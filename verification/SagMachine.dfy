/** The sag and interruption state machine of checkPqEvent (src/ade9000.c), over whole sample histories. */
module SagMachine {
  import opened Words

  const WRAP64 := 0x1_0000_0000_0000_0000

  /** One half-cycle: the clock, the zero-crossing count, the three voltages and the settings in force. */
  datatype Sample = Sample(tick: nat, zx: nat, u: seq<nat>, action: bool,
                           sagLevel: nat, retLevel: nat, intrLevel: nat, holdOff: nat)

  predicate SampleOk(x: Sample) { x.tick < WRAP64 && |x.u| == 3 }

  const AllPhases := {0, 1, 2}

  function SagMask(x: Sample): set<int>
    requires SampleOk(x)
  {
    set i: int | 0 <= i < 3 && x.action && x.u[i] < x.sagLevel
  }

  function RetMask(x: Sample): set<int>
    requires SampleOk(x)
  {
    set i: int | 0 <= i < 3 && x.action && x.u[i] >= x.sagLevel && x.u[i] > x.retLevel
  }

  datatype Kind = SAG | SHORT_INTR | LONG_INTR

  datatype PqEvent = PqEvent(kind: Kind, startTs: nat, endTs: nat, mask: set<int>, val: seq<nat>)

  datatype Phase = Init | Normal | Sagging | Interrupted | HoldOff

  /** The sample numbers of an event: first below the sag level, first interrupting (or the last), recovered. */
  datatype Span = Span(first: nat, cut: nat, last: nat)

  datatype Machine = Machine(
    online: bool, st: Phase, startTs: nat, endTs: nat, mask: set<int>, val: seq<nat>, sag: nat, intr: nat,
    events: seq<PqEvent>,
    begun: nat, cut: nat, released: nat, spans: seq<Span>)   // history only

  function Boot(): Machine {
    Machine(false, Init, 0, 0, {}, [0, 0, 0], 0, 0, [], 0, 0, 0, [])
  }

  function Online(was: bool, x: Sample): bool { if was then x.zx != 0 else x.zx > 12 }

  /** The meter is offline, or a sagging phase is below the interruption level. */
  predicate Interrupting(online: bool, x: Sample)
    requires SampleOk(x)
  {
    !online || exists i :: i in SagMask(x) && x.u[i] < x.intrLevel
  }

  function Min3(a: seq<nat>, b: seq<nat>): seq<nat>
    requires |a| == 3 && |b| == 3
  {
    seq(3, i requires 0 <= i < 3 => if a[i] > b[i] then b[i] else a[i])
  }

  /** Elapsed time on the wrapping 64-bit clock. */
  function Since(now: nat, then_: nat): nat { (now - then_) % WRAP64 }

  function IntrKind(duration: nat): Kind { if duration < 60000 then SHORT_INTR else LONG_INTR }

  function StepSagging(m: Machine, x: Sample, n: nat): Machine
    requires SampleOk(x) && |m.val| == 3
  {
    if Interrupting(m.online, x) then m.(st := Interrupted, cut := n)
    else if SagMask(x) != {} then m.(mask := m.mask + SagMask(x), val := Min3(m.val, x.u))
    else if RetMask(x) == AllPhases then
      m.(endTs := x.tick, events := m.events + [PqEvent(SAG, m.startTs, x.tick, m.mask, m.val)],
         st := HoldOff, sag := Wrap16(m.sag + 1), spans := m.spans + [Span(m.begun, n, n)])
    else m
  }

  function StepInterrupted(m: Machine, x: Sample, n: nat): Machine
    requires SampleOk(x)
  {
    if RetMask(x) == AllPhases then
      m.(endTs := x.tick,
         events := m.events + [PqEvent(IntrKind(Since(x.tick, m.startTs)), m.startTs, x.tick, m.mask, m.val)],
         st := Normal, intr := Wrap16(m.intr + 1), spans := m.spans + [Span(m.begun, m.cut, n)], released := n)
    else m
  }

  /** One call of the sag handler on sample number n. */
  function Step(m0: Machine, x: Sample, n: nat): Machine
    requires SampleOk(x) && |m0.val| == 3
  {
    var m := m0.(online := Online(m0.online, x));
    if m.st == Sagging then StepSagging(m, x, n)
    else if m.st == Interrupted then StepInterrupted(m, x, n)
    else StepQuiet(m, x, n)
  }

  /** The states in which no event is under way. */
  function StepQuiet(m: Machine, x: Sample, n: nat): Machine
    requires SampleOk(x)
  {
    if m.st == Init then (if SagMask(x) == {} && m.online then m.(st := Normal, released := n) else m)
    else if m.st == Normal then
      (if SagMask(x) != {} then m.(startTs := x.tick, mask := SagMask(x), val := x.u, st := Sagging, begun := n) else m)
    else if Since(x.tick, m.endTs) > x.holdOff then m.(st := Normal, released := n)
    else m
  }

  predicate HistoryOk(h: seq<Sample>) { forall j :: 0 <= j < |h| ==> SampleOk(h[j]) }

  /** The machine after the first n samples. */
  function Run(h: seq<Sample>, n: nat): (m: Machine)
    requires HistoryOk(h) && n <= |h|
    ensures |m.val| == 3
    decreases n
  {
    if n == 0 then Boot() else Step(Run(h, n - 1), h[n - 1], n - 1)
  }

  /* ---- what an event must say about its samples ---- */

  /** Whether sample j interrupts, given what the zero crossings up to it say. */
  predicate InterruptsAt(h: seq<Sample>, j: nat)
    requires HistoryOk(h) && j < |h|
  {
    Interrupting(Run(h, j + 1).online, h[j])
  }

  /** Phases seen below the sag level in samples a to b - 1. */
  function PhasesSeen(h: seq<Sample>, a: nat, b: nat): set<int>
    requires HistoryOk(h) && a < b <= |h|
    decreases b
  {
    if b == a + 1 then SagMask(h[a]) else PhasesSeen(h, a, b - 1) + SagMask(h[b - 1])
  }

  /** Per-phase minimum over sample a and the later samples before b with some phase sagging. */
  function Lowest(h: seq<Sample>, a: nat, b: nat): (v: seq<nat>)
    requires HistoryOk(h) && a < b <= |h|
    ensures |v| == 3
    decreases b
  {
    if b == a + 1 then h[a].u
    else if SagMask(h[b - 1]) != {} then Min3(Lowest(h, a, b - 1), h[b - 1].u)
    else Lowest(h, a, b - 1)
  }

  predicate Recovered(x: Sample)
    requires SampleOk(x)
  {
    SagMask(x) == {} && RetMask(x) == AllPhases
  }

  predicate SpanOf(h: seq<Sample>, n: nat, s: Span)
    requires n <= |h|
  {
    s.first < s.cut <= s.last < n
  }

  predicate EventOk(h: seq<Sample>, s: Span, e: PqEvent)
    requires HistoryOk(h) && SpanOf(h, |h|, s)
  {
    && SagMask(h[s.first]) != {}
    && e.startTs == h[s.first].tick && e.endTs == h[s.last].tick
    && e.mask == PhasesSeen(h, s.first, s.cut) && e.val == Lowest(h, s.first, s.cut)
    && (forall j :: s.first < j < s.cut ==> !InterruptsAt(h, j) && !Recovered(h[j]))
    && RetMask(h[s.last]) == AllPhases
    && (if e.kind == SAG then s.cut == s.last && !InterruptsAt(h, s.last) && Recovered(h[s.last])
        else && s.cut < s.last && InterruptsAt(h, s.cut)
             && (forall j :: s.cut < j < s.last ==> RetMask(h[j]) != AllPhases)
             && e.kind == IntrKind(Since(e.endTs, e.startTs)))
  }

  function CountSags(events: seq<PqEvent>): (c: nat)
    ensures c <= |events|
    decreases |events|
  {
    if events == [] then 0
    else CountSags(events[..|events| - 1]) + (if events[|events| - 1].kind == SAG then 1 else 0)
  }

  /** After an ended sag some sample before n finds the hold-off over. */
  predicate ReleasedAt(h: seq<Sample>, last: nat, r: nat)
    requires HistoryOk(h) && last < |h|
  {
    last < r < |h| && Since(h[r].tick, h[last].tick) > h[r].holdOff
  }

  /* ---- the invariant ---- */

  predicate Ongoing(h: seq<Sample>, n: nat, m: Machine)
    requires HistoryOk(h) && n <= |h| && |m.val| == 3
  {
    && (m.st == Sagging ==>
          && m.begun < n && SagMask(h[m.begun]) != {} && m.startTs == h[m.begun].tick
          && m.mask == PhasesSeen(h, m.begun, n) && m.val == Lowest(h, m.begun, n)
          && (forall j :: m.begun < j < n ==> !InterruptsAt(h, j) && !Recovered(h[j])))
    && (m.st == Interrupted ==>
          && m.begun < m.cut < n && SagMask(h[m.begun]) != {} && m.startTs == h[m.begun].tick
          && m.mask == PhasesSeen(h, m.begun, m.cut) && m.val == Lowest(h, m.begun, m.cut)
          && (forall j :: m.begun < j < m.cut ==> !InterruptsAt(h, j) && !Recovered(h[j]))
          && InterruptsAt(h, m.cut)
          && (forall j :: m.cut < j < n ==> RetMask(h[j]) != AllPhases))
  }

  /** After an ended sag the hold-off passes before the next event begins. */
  ghost predicate Apart(h: seq<Sample>, s: Span, e: PqEvent, next: nat)
    requires HistoryOk(h) && s.last < |h|
  {
    s.last < next && (e.kind == SAG ==> exists r: nat :: r < next && ReleasedAt(h, s.last, r))
  }

  ghost predicate Ordered(h: seq<Sample>, n: nat, m: Machine)
    requires HistoryOk(h) && n <= |h|
  {
    && |m.spans| == |m.events|
    && (forall k :: 0 <= k < |m.spans| ==> SpanOf(h, n, m.spans[k]))
    && (forall k :: 0 <= k < |m.spans| - 1 ==> Apart(h, m.spans[k], m.events[k], m.spans[k + 1].first))
  }

  /** Where the machine stands relative to the last event. */
  ghost predicate AfterLast(h: seq<Sample>, n: nat, m: Machine)
    requires HistoryOk(h) && n <= |h| && Ordered(h, n, m)
  {
    if m.spans == [] then m.st != HoldOff
    else
      var s, e := m.spans[|m.spans| - 1], m.events[|m.events| - 1];
      && m.st != Init
      && (m.st == Sagging || m.st == Interrupted ==> Apart(h, s, e, m.begun))
      && (m.st == HoldOff ==> m.endTs == h[s.last].tick)
      && (m.st == Normal && e.kind == SAG ==> m.released < n && ReleasedAt(h, s.last, m.released))
  }

  predicate Counted(m: Machine) {
    m.sag == Wrap16(CountSags(m.events)) && m.intr == Wrap16(|m.events| - CountSags(m.events))
  }

  ghost predicate Events(h: seq<Sample>, n: nat, m: Machine)
    requires HistoryOk(h) && n <= |h| && Ordered(h, n, m)
  {
    forall k :: 0 <= k < |m.spans| ==> EventOk(h, m.spans[k], m.events[k])
  }

  ghost predicate Inv(h: seq<Sample>, n: nat, m: Machine)
    requires HistoryOk(h) && n <= |h| && |m.val| == 3
  {
    Ongoing(h, n, m) && Ordered(h, n, m) && AfterLast(h, n, m) && Events(h, n, m) && Counted(m)
  }

  lemma OngoingWhileSagging(h: seq<Sample>, n: nat)
    requires HistoryOk(h) && n < |h| && Ongoing(h, n, Run(h, n))
    requires Run(h, n).st == Sagging
    ensures Ongoing(h, n + 1, Run(h, n + 1))
  {
    hide Interrupting, SagMask, RetMask;
    var m, m' := Run(h, n), Run(h, n + 1);
    assert m' == Step(m, h[n], n);
    assert m'.online == Online(m.online, h[n]);
    assert InterruptsAt(h, n) == Interrupting(m'.online, h[n]);
  }

  lemma OngoingWhileInterrupted(h: seq<Sample>, n: nat)
    requires HistoryOk(h) && n < |h| && Ongoing(h, n, Run(h, n))
    requires Run(h, n).st == Interrupted
    ensures Ongoing(h, n + 1, Run(h, n + 1))
  {
    hide Interrupting, SagMask, RetMask;
    var m, m' := Run(h, n), Run(h, n + 1);
    assert m' == Step(m, h[n], n);
    assert m'.online == Online(m.online, h[n]);
    assert InterruptsAt(h, n) == Interrupting(m'.online, h[n]);
  }

  lemma OngoingFromRest(h: seq<Sample>, n: nat)
    requires HistoryOk(h) && n < |h| && Ongoing(h, n, Run(h, n))
    requires Run(h, n).st != Sagging && Run(h, n).st != Interrupted
    ensures Ongoing(h, n + 1, Run(h, n + 1))
  {
    hide Interrupting, SagMask, RetMask;
    var m, m' := Run(h, n), Run(h, n + 1);
    assert m' == Step(m, h[n], n);
    assert m'.online == Online(m.online, h[n]);
    assert InterruptsAt(h, n) == Interrupting(m'.online, h[n]);
  }

  lemma OngoingStep(h: seq<Sample>, n: nat)
    requires HistoryOk(h) && n < |h| && Ongoing(h, n, Run(h, n))
    ensures Ongoing(h, n + 1, Run(h, n + 1))
  {
    hide Ongoing;
    match Run(h, n).st
    case Sagging => OngoingWhileSagging(h, n);
    case Interrupted => OngoingWhileInterrupted(h, n);
    case _ => OngoingFromRest(h, n);
  }

  /** Whether sample n completes an event. */
  predicate Completes(h: seq<Sample>, n: nat)
    requires HistoryOk(h) && n < |h|
  {
    |Run(h, n + 1).events| > |Run(h, n).events|
  }

  lemma PushShape(h: seq<Sample>, n: nat)
    requires HistoryOk(h) && n < |h|
    ensures var m, m' := Run(h, n), Run(h, n + 1);
            if Completes(h, n) then
              && (m.st == Sagging || m.st == Interrupted)
              && |m'.events| == |m.events| + 1 && |m'.spans| == |m.spans| + 1
              && m'.events[..|m.events|] == m.events && m'.spans[..|m.spans|] == m.spans
              && m'.spans[|m.spans|] == Span(m.begun, if m.st == Sagging then n else m.cut, n)
            else m'.events == m.events && m'.spans == m.spans && m'.sag == m.sag && m'.intr == m.intr
  {
    hide Interrupting, SagMask, RetMask;
    assert Run(h, n + 1) == Step(Run(h, n), h[n], n);
  }

  lemma PushedEventOk(h: seq<Sample>, n: nat)
    requires HistoryOk(h) && n < |h| && Ongoing(h, n, Run(h, n))
    requires Completes(h, n)
    ensures var m, m' := Run(h, n), Run(h, n + 1);
            && |m'.events| == |m.events| + 1 && |m'.spans| == |m.spans| + 1
            && SpanOf(h, |h|, m'.spans[|m.spans|])
            && EventOk(h, m'.spans[|m.spans|], m'.events[|m.events|])
  {
    hide Interrupting, SagMask, RetMask;
    var m, m' := Run(h, n), Run(h, n + 1);
    assert m' == Step(m, h[n], n);
    assert m'.online == Online(m.online, h[n]);
    assert InterruptsAt(h, n) == Interrupting(m'.online, h[n]);
  }

  lemma OrderedStep(h: seq<Sample>, n: nat)
    requires HistoryOk(h) && n < |h| && Inv(h, n, Run(h, n))
    ensures Ordered(h, n + 1, Run(h, n + 1))
  {
    hide Run, EventOk, ReleasedAt, Apart, Counted, Events;
    PushShape(h, n);
    var m, m' := Run(h, n), Run(h, n + 1);
    if Completes(h, n) {
      assert forall k :: 0 <= k < |m.spans| ==> m'.spans[k] == m.spans[k] && m'.events[k] == m.events[k];
    }
  }

  lemma EventsStep(h: seq<Sample>, n: nat)
    requires HistoryOk(h) && n < |h| && Inv(h, n, Run(h, n)) && Ordered(h, n + 1, Run(h, n + 1))
    ensures Events(h, n + 1, Run(h, n + 1))
  {
    hide Run, EventOk, ReleasedAt, Apart, Counted, Ongoing;
    PushShape(h, n);
    var m, m' := Run(h, n), Run(h, n + 1);
    if Completes(h, n) {
      PushedEventOk(h, n);
      assert forall k :: 0 <= k < |m.spans| ==> m'.spans[k] == m.spans[k] && m'.events[k] == m.events[k];
    }
  }

  /** Where each state can come from. */
  lemma StepLinks(h: seq<Sample>, n: nat)
    requires HistoryOk(h) && n < |h|
    ensures var m, m' := Run(h, n), Run(h, n + 1);
            && (m.st != Init ==> m'.st != Init)
            && (m'.st == Sagging || m'.st == Interrupted ==>
                  ((m.st == Sagging || m.st == Interrupted) && m'.begun == m.begun) || (m.st == Normal && m'.begun == n))
            && (m'.st == HoldOff ==>
                  (m.st == HoldOff && m'.endTs == m.endTs) || (Completes(h, n) && m'.endTs == h[n].tick))
            && (m'.st == Normal ==>
                  || (m.st == Normal && m'.released == m.released) || m.st == Init
                  || (m.st == HoldOff && m'.released == n && Since(h[n].tick, m.endTs) > h[n].holdOff)
                  || (Completes(h, n) && m'.events[|m'.events| - 1].kind != SAG))
            && (Completes(h, n) ==> m'.st == HoldOff || m'.st == Normal)
  {
    hide Interrupting, SagMask, RetMask, Min3, Online, Wrap16;
    assert Run(h, n + 1) == Step(Run(h, n), h[n], n);
  }

  lemma AfterLastStep(h: seq<Sample>, n: nat)
    requires HistoryOk(h) && n < |h| && Inv(h, n, Run(h, n)) && Ordered(h, n + 1, Run(h, n + 1))
    ensures AfterLast(h, n + 1, Run(h, n + 1))
  {
    hide Run, EventOk, Events, Counted, Ongoing, Since;
    StepLinks(h, n);
    PushShape(h, n);
    var m, m' := Run(h, n), Run(h, n + 1);
    if !Completes(h, n) && m.spans != [] {
      var s, e := m.spans[|m.spans| - 1], m.events[|m.events| - 1];
      if m.st == Normal {
        assert Apart(h, s, e, n) by { if e.kind == SAG { assert ReleasedAt(h, s.last, m.released); } }
      }
    }
  }

  lemma WrapStep(x: nat)
    ensures Wrap16(Wrap16(x) + 1) == Wrap16(x + 1)
  {
  }

  lemma CountSagsSnoc(events: seq<PqEvent>, e: PqEvent)
    ensures CountSags(events + [e]) == CountSags(events) + if e.kind == SAG then 1 else 0
  {
    assert (events + [e])[..|events|] == events;
  }

  lemma CountedStep(h: seq<Sample>, n: nat)
    requires HistoryOk(h) && n < |h| && Counted(Run(h, n))
    ensures Counted(Run(h, n + 1))
  {
    CountedEvents(Run(h, n), h[n], n);
  }

  lemma EventKinds(m: Machine, x: Sample, n: nat)
    requires SampleOk(x) && |m.val| == 3
    ensures var m' := Step(m, x, n);
            || (m'.events == m.events && m'.sag == m.sag && m'.intr == m.intr)
            || (exists e :: m'.events == m.events + [e] &&
                  if e.kind == SAG then m'.sag == Wrap16(m.sag + 1) && m'.intr == m.intr
                  else m'.sag == m.sag && m'.intr == Wrap16(m.intr + 1))
  {
    hide Interrupting, SagMask, RetMask, Wrap16, Min3, Since, Online;
  }

  lemma CountedEvents(m: Machine, x: Sample, n: nat)
    requires SampleOk(x) && |m.val| == 3 && Counted(m)
    ensures Counted(Step(m, x, n))
  {
    hide Interrupting, SagMask, RetMask, CountSags, Wrap16, Min3, Since, Online, IntrKind;
    var m' := Step(m, x, n);
    WrapStep(CountSags(m.events));
    WrapStep(|m.events| - CountSags(m.events));
    EventKinds(m, x, n);
    hide Step;
    if m'.events != m.events {
      var e :| m'.events == m.events + [e] &&
        if e.kind == SAG then m'.sag == Wrap16(m.sag + 1) && m'.intr == m.intr
        else m'.sag == m.sag && m'.intr == Wrap16(m.intr + 1);
      CountSagsSnoc(m.events, e);
    }
  }

  /** The invariant of the whole run. */
  lemma {:induction false} RunInv(h: seq<Sample>, n: nat)
    requires HistoryOk(h) && n <= |h|
    ensures Inv(h, n, Run(h, n))
    decreases n
  {
    hide Run, Ongoing, Ordered, AfterLast, Events, Counted;
    if n == 0 {
      BootInv(h);
    } else {
      RunInv(h, n - 1);
      OngoingStep(h, n - 1);
      OrderedStep(h, n - 1);
      AfterLastStep(h, n - 1);
      EventsStep(h, n - 1);
      CountedStep(h, n - 1);
    }
  }

  lemma BootInv(h: seq<Sample>)
    requires HistoryOk(h)
    ensures Inv(h, 0, Run(h, 0))
  {
    hide Step, EventOk;
  }

  /* ---- main results ---- */

  /** A clock that never goes back. */
  ghost predicate Monotone(h: seq<Sample>) {
    forall i, j :: 0 <= i <= j < |h| ==> h[i].tick <= h[j].tick
  }

  lemma SinceMonotone(now: nat, then_: nat)
    requires then_ <= now < WRAP64
    ensures Since(now, then_) == now - then_
  {
  }

  /** Then every event is an interval, and an interruption is short exactly when it lasted under a minute. */
  lemma EventIntervals(h: seq<Sample>, k: nat)
    requires HistoryOk(h) && Monotone(h) && k < |Run(h, |h|).events|
    ensures var e := Run(h, |h|).events[k];
            && e.startTs <= e.endTs
            && (e.kind == SHORT_INTR ==> e.endTs - e.startTs < 60000)
            && (e.kind == LONG_INTR ==> e.endTs - e.startTs >= 60000)
  {
    hide Run, PhasesSeen, Lowest, InterruptsAt, Recovered, Counted, Ongoing, AfterLast;
    RunInv(h, |h|);
    var m := Run(h, |h|);
    var s, e := m.spans[k], m.events[k];
    assert EventOk(h, s, e) && SpanOf(h, |h|, s);
    SinceMonotone(e.endTs, e.startTs);
  }

  /** Then also events do not overlap, and after an ended sag the next event starts more than the hold-off of some
      sample in between later. */
  lemma EventsOrdered(h: seq<Sample>, k: nat)
    requires HistoryOk(h) && Monotone(h) && k + 1 < |Run(h, |h|).events|
    ensures var a, b := Run(h, |h|).events[k], Run(h, |h|).events[k + 1];
            && a.endTs <= b.startTs
            && (a.kind == SAG ==> exists r :: 0 <= r < |h| && a.endTs <= h[r].tick <= b.startTs && h[r].tick - a.endTs > h[r].holdOff)
  {
    hide Run, PhasesSeen, Lowest, InterruptsAt, Recovered, Counted, Ongoing, AfterLast, Since;
    RunInv(h, |h|);
    var m := Run(h, |h|);
    var s, s', a, b := m.spans[k], m.spans[k + 1], m.events[k], m.events[k + 1];
    assert EventOk(h, s, a) && SpanOf(h, |h|, s) && EventOk(h, s', b) && SpanOf(h, |h|, s');
    assert Apart(h, s, a, s'.first);
    if a.kind == SAG {
      var r: nat :| r < s'.first && ReleasedAt(h, s.last, r);
      SinceMonotone(h[r].tick, h[s.last].tick);
    }
  }

  /** Every finished sag: its phases, its depths, how it ended and that nothing in it was an interruption. */
  lemma SagEvent(h: seq<Sample>, k: nat)
    requires HistoryOk(h) && k < |Run(h, |h|).events| && Run(h, |h|).events[k].kind == SAG
    ensures var m := Run(h, |h|);
            && |m.spans| == |m.events|
            && var s, e := m.spans[k], m.events[k];
            && s.first < s.last < |h|
            && (forall i :: i in e.mask <==> exists j :: s.first <= j <= s.last && i in SagMask(h[j]))
            && |e.val| == 3
            && (forall i :: 0 <= i < 3 ==> LowestOf(h, s.first, s.last, i, e.val[i]))
            && SagMask(h[s.last]) == {} && RetMask(h[s.last]) == AllPhases
            && (forall j :: s.first < j <= s.last ==> !InterruptsAt(h, j))
  {
    hide Run, PhasesSeen, Lowest, InterruptsAt, Counted, Ongoing, AfterLast, SagMask, RetMask;
    RunInv(h, |h|);
    var m := Run(h, |h|);
    var s, e := m.spans[k], m.events[k];
    assert EventOk(h, s, e) && SpanOf(h, |h|, s);
    PhasesSeenMeans(h, s.first, s.last);
    LowestMeans(h, s.first, s.last);
  }

  /** Every interruption records only what was seen before the sample that made it one. */
  lemma IntrEvent(h: seq<Sample>, k: nat)
    requires HistoryOk(h) && k < |Run(h, |h|).events| && Run(h, |h|).events[k].kind != SAG
    ensures var m := Run(h, |h|);
            && |m.spans| == |m.events|
            && var s, e := m.spans[k], m.events[k];
            && s.first < s.cut < s.last < |h|
            && (forall i :: i in e.mask <==> exists j :: s.first <= j < s.cut && i in SagMask(h[j]))
            && |e.val| == 3
            && (forall i :: 0 <= i < 3 ==> LowestOf(h, s.first, s.cut, i, e.val[i]))
            && InterruptsAt(h, s.cut) && (forall j :: s.first < j < s.cut ==> !InterruptsAt(h, j))
            && RetMask(h[s.last]) == AllPhases && (forall j :: s.cut < j < s.last ==> RetMask(h[j]) != AllPhases)
            && (e.kind == SHORT_INTR <==> Since(e.endTs, e.startTs) < 60000)
  {
    hide Run, PhasesSeen, Lowest, InterruptsAt, Counted, Ongoing, AfterLast, SagMask, RetMask;
    RunInv(h, |h|);
    var m := Run(h, |h|);
    var s, e := m.spans[k], m.events[k];
    assert EventOk(h, s, e) && SpanOf(h, |h|, s);
    PhasesSeenMeans(h, s.first, s.cut);
    LowestMeans(h, s.first, s.cut);
  }

  /** v is the least voltage of phase i at sample a and at the later samples before b with some phase sagging. */
  ghost predicate LowestOf(h: seq<Sample>, a: nat, b: nat, i: nat, v: nat)
    requires HistoryOk(h) && a < b <= |h| && i < 3
  {
    && (forall j :: a <= j < b && (j == a || SagMask(h[j]) != {}) ==> v <= h[j].u[i])
    && (exists j :: a <= j < b && (j == a || SagMask(h[j]) != {}) && v == h[j].u[i])
  }

  lemma {:induction false} PhasesSeenMeans(h: seq<Sample>, a: nat, b: nat)
    requires HistoryOk(h) && a < b <= |h|
    ensures forall i :: i in PhasesSeen(h, a, b) <==> exists j :: a <= j < b && i in SagMask(h[j])
    decreases b
  {
    hide SagMask;
    if b > a + 1 { PhasesSeenMeans(h, a, b - 1); }
  }

  lemma {:induction false} LowestMeans(h: seq<Sample>, a: nat, b: nat)
    requires HistoryOk(h) && a < b <= |h|
    ensures forall i :: 0 <= i < 3 ==> LowestOf(h, a, b, i, Lowest(h, a, b)[i])
    decreases b
  {
    hide SagMask;
    if b == a + 1 {
      forall i | 0 <= i < 3 ensures LowestOf(h, a, b, i, Lowest(h, a, b)[i]) { assert h[a].u[i] == Lowest(h, a, b)[i]; }
    } else {
      LowestMeans(h, a, b - 1);
      forall i | 0 <= i < 3 ensures LowestOf(h, a, b, i, Lowest(h, a, b)[i]) {
        LowestStep(h, a, b, i, Lowest(h, a, b - 1)[i], Lowest(h, a, b)[i]);
      }
    }
  }

  lemma LowestStep(h: seq<Sample>, a: nat, b: nat, i: nat, v: nat, w: nat)
    requires HistoryOk(h) && a + 1 < b <= |h| && i < 3 && LowestOf(h, a, b - 1, i, v)
    requires w == if SagMask(h[b - 1]) != {} && v > h[b - 1].u[i] then h[b - 1].u[i] else v
    ensures LowestOf(h, a, b, i, w)
  {
    hide SagMask;
    var j0 :| a <= j0 < b - 1 && (j0 == a || SagMask(h[j0]) != {}) && v == h[j0].u[i];
    if w == v { assert w == h[j0].u[i]; } else { assert w == h[b - 1].u[i]; }
  }

  /** The 16-bit counters add up to the events pushed. */
  lemma CountersAddUp(h: seq<Sample>)
    requires HistoryOk(h)
    ensures var m := Run(h, |h|); Wrap16(m.sag + m.intr) == Wrap16(|m.events|)
  {
    hide Run, Ongoing, Ordered, AfterLast, Events, CountSags;
    RunInv(h, |h|);
    var m := Run(h, |h|);
    WrapSum(CountSags(m.events), |m.events| - CountSags(m.events));
  }

  lemma WrapSum(a: nat, b: nat)
    ensures Wrap16(Wrap16(a) + Wrap16(b)) == Wrap16(a + b)
  {
  }

  /* ---- the handler on its own fields ---- */

  class SagDetector {
    var online: bool
    var sagSt: Phase
    var sagMask: set<int>
    var sagRetMask: set<int>
    var startTs: nat
    var endTs: nat
    var mask: set<int>
    var val: seq<nat>
    var sag: nat
    var intr: nat
    var events: seq<PqEvent>
    ghost var begun: nat
    ghost var cut: nat
    ghost var released: nat
    ghost var spans: seq<Span>

    ghost function State(): Machine
      reads this
    {
      Machine(online, sagSt, startTs, endTs, mask, val, sag, intr, events, begun, cut, released, spans)
    }

    /** Which phases are below the sag level and which are back above the return level. */
    method BuildMasks(x: Sample)
      requires SampleOk(x)
      modifies `sagMask, `sagRetMask
      ensures sagMask == SagMask(x) && sagRetMask == RetMask(x)
    {
      sagMask, sagRetMask := {}, {};
      var i := 0;
      while x.action && i < 3
        invariant 0 <= i <= 3 && (!x.action ==> i == 0)
        invariant sagMask == set p: int | 0 <= p < i && x.u[p] < x.sagLevel
        invariant sagRetMask == set p: int | 0 <= p < i && x.u[p] >= x.sagLevel && x.u[p] > x.retLevel
      {
        if x.u[i] < x.sagLevel {
          sagMask := sagMask + {i};
        } else if x.u[i] > x.retLevel {
          sagRetMask := sagRetMask + {i};
        }
        i := i + 1;
      }
      assert forall p :: p in sagMask <==> p in SagMask(x);
      assert forall p :: p in sagRetMask <==> p in RetMask(x);
    }

    method IsInterruption(x: Sample) returns (isIntr: bool)
      requires SampleOk(x) && sagMask == SagMask(x)
      ensures isIntr == Interrupting(online, x)
    {
      isIntr := !online;
      if !isIntr && sagMask != {} {
        var i := 0;
        while i < 3 && !isIntr
          invariant 0 <= i <= 3
          invariant isIntr <==> exists p :: 0 <= p < i && p in sagMask && x.u[p] < x.intrLevel
        {
          if i in sagMask && x.u[i] < x.intrLevel { isIntr := true; }
          i := i + 1;
        }
      }
    }

    method UpdateMinimum(x: Sample)
      requires SampleOk(x) && |val| == 3
      modifies `val
      ensures val == Min3(old(val), x.u)
    {
      for i := 0 to 3
        invariant |val| == 3
        invariant forall p :: 0 <= p < 3 ==> val[p] == if p < i then Min3(old(val), x.u)[p] else old(val)[p]
      {
        if val[i] > x.u[i] { val := val[i := x.u[i]]; }
      }
    }

    method UpdateOnline(x: Sample)
      modifies `online
      ensures online == Online(old(online), x)
    {
      if !online {
        if x.zx > 12 { online := true; }
      } else if x.zx == 0 {
        online := false;
      }
    }

    method CheckPqEvent(x: Sample, ghost n: nat)
      requires SampleOk(x) && |val| == 3
      modifies this
      ensures State() == Step(old(State()), x, n)
    {
      UpdateOnline(x);
      BuildMasks(x);
      hide SagMask, RetMask, StepSagging, StepInterrupted, StepQuiet, Online;
      if sagSt == Sagging { OnSagging(x, n); }
      else if sagSt == Interrupted { OnInterrupted(x, n); }
      else { OnQuiet(x, n); }
    }

    method OnQuiet(x: Sample, ghost n: nat)
      requires SampleOk(x) && sagMask == SagMask(x) && sagSt != Sagging && sagSt != Interrupted
      modifies this
      ensures State() == StepQuiet(old(State()), x, n)
    {
      hide SagMask, Since;
      if sagSt == Init {
        if sagMask == {} && online { sagSt, released := Normal, n; }
      } else if sagSt == Normal {
        if sagMask != {} {
          startTs, mask, val := x.tick, sagMask, x.u;
          sagSt, begun := Sagging, n;
        }
      } else if Since(x.tick, endTs) > x.holdOff {
        sagSt, released := Normal, n;
      }
    }

    method OnSagging(x: Sample, ghost n: nat)
      requires SampleOk(x) && |val| == 3 && sagMask == SagMask(x) && sagRetMask == RetMask(x)
      modifies this
      ensures State() == StepSagging(old(State()), x, n)
    {
      hide SagMask, RetMask, Interrupting, Min3;
      var isIntr := IsInterruption(x);
      if isIntr {
        sagSt, cut := Interrupted, n;
      } else if sagMask != {} {
        mask := mask + sagMask;
        UpdateMinimum(x);
      } else if sagRetMask == AllPhases {
        endTs := x.tick;
        PushEvent(SAG);
        spans := spans + [Span(begun, n, n)];
        sagSt := HoldOff;
        sag := Wrap16(sag + 1);
      }
    }

    method OnInterrupted(x: Sample, ghost n: nat)
      requires SampleOk(x) && sagRetMask == RetMask(x)
      modifies this
      ensures State() == StepInterrupted(old(State()), x, n)
    {
      hide RetMask;
      if sagRetMask == AllPhases {
        endTs := x.tick;
        if Since(endTs, startTs) < 60000 { PushEvent(SHORT_INTR); } else { PushEvent(LONG_INTR); }
        spans := spans + [Span(begun, cut, n)];
        intr := Wrap16(intr + 1);
        sagSt, released := Normal, n;
      }
    }

    method PushEvent(kind: Kind)
      modifies `events
      ensures events == old(events) + [PqEvent(kind, startTs, endTs, mask, val)]
    {
      events := events + [PqEvent(kind, startTs, endTs, mask, val)];
    }
  }
}
