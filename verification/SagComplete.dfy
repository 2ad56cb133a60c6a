/** That the detector of checkPqEvent (src/ade9000.c) misses nothing: every sample with a phase below the sag level is
    accounted for, by conditions on the samples alone. */
module SagComplete {
  import opened SagMachine
  import opened Words

  /* ---- conditions on the samples ---- */

  predicate BelowSag(x: Sample, i: int)
    requires SampleOk(x)
  {
    0 <= i < 3 && x.action && x.u[i] < x.sagLevel
  }

  /** Some phase is below the sag level. */
  predicate Sags(x: Sample)
    requires SampleOk(x)
  {
    exists i :: 0 <= i < 3 && BelowSag(x, i)
  }

  /** All three phases are above the return level, none below the sag level. */
  predicate Back(x: Sample)
    requires SampleOk(x)
  {
    x.action && forall i :: 0 <= i < 3 ==> x.u[i] >= x.sagLevel && x.u[i] > x.retLevel
  }

  /** After n samples the meter is online: more than twelve zero crossings were counted once and none failed since. */
  predicate OnlineAfter(h: seq<Sample>, n: nat)
    requires n <= |h|
  {
    exists j :: 0 <= j < n && OnlineFrom(h, j, n)
  }

  predicate OnlineFrom(h: seq<Sample>, j: nat, n: nat)
    requires j < n <= |h|
  {
    h[j].zx > 12 && forall i :: j < i < n ==> h[i].zx != 0
  }

  /** The voltage is lost: the meter is offline, or a phase below the sag level is below the interruption level. */
  predicate Lost(h: seq<Sample>, j: nat)
    requires HistoryOk(h) && j < |h|
  {
    !OnlineAfter(h, j + 1) || exists i :: 0 <= i < 3 && BelowSag(h[j], i) && h[j].u[i] < h[j].intrLevel
  }

  /** Online with no phase below the sag level: from here on sags are looked for. */
  predicate Ready(h: seq<Sample>, r: nat)
    requires HistoryOk(h) && r < |h|
  {
    OnlineAfter(h, r + 1) && !Sags(h[r])
  }

  predicate NeverReady(h: seq<Sample>, n: nat)
    requires HistoryOk(h) && n <= |h|
  {
    forall r :: 0 <= r < n ==> !Ready(h, r)
  }

  /** At sample r more than its hold-off has passed since sample last. */
  predicate Over(h: seq<Sample>, last: nat, r: nat)
    requires last < |h| && r < |h|
  {
    (h[r].tick - h[last].tick) % 0x1_0000_0000_0000_0000 > h[r].holdOff
  }

  /** No sample between the two has found the hold-off over. */
  predicate HeldOff(h: seq<Sample>, last: nat, n: nat)
    requires last < |h| && n <= |h|
  {
    forall r :: last < r < n ==> !Over(h, last, r)
  }

  lemma MasksMean(x: Sample)
    requires SampleOk(x)
    ensures forall i :: i in SagMask(x) <==> BelowSag(x, i)
    ensures SagMask(x) != {} <==> Sags(x)
    ensures RetMask(x) == AllPhases <==> Back(x)
    ensures Recovered(x) <==> Back(x)
  {
    if SagMask(x) != {} {
      var i :| i in SagMask(x);
      assert BelowSag(x, i);
    }
    if Sags(x) {
      var i :| 0 <= i < 3 && BelowSag(x, i);
      assert i in SagMask(x);
    }
    if RetMask(x) == AllPhases {
      assert 0 in RetMask(x) && 1 in RetMask(x) && 2 in RetMask(x);
    }
    if Back(x) { AllReturned(x); }
    if Back(x) { assert forall i :: !(i in SagMask(x)); }
  }

  lemma AllReturned(x: Sample)
    requires SampleOk(x) && Back(x)
    ensures RetMask(x) == AllPhases
  {
    assert forall i :: i in RetMask(x) <==> i in AllPhases;
  }

  lemma OnlineNext(h: seq<Sample>, n: nat)
    requires n < |h|
    ensures OnlineAfter(h, n + 1) <==> if OnlineAfter(h, n) then h[n].zx != 0 else h[n].zx > 12
  {
    if OnlineAfter(h, n) && h[n].zx != 0 {
      var j :| 0 <= j < n && OnlineFrom(h, j, n);
      assert OnlineFrom(h, j, n + 1);
    }
    if h[n].zx > 12 { assert OnlineFrom(h, n, n + 1); }
    if OnlineAfter(h, n + 1) {
      var j :| 0 <= j < n + 1 && OnlineFrom(h, j, n + 1);
      if j < n { assert OnlineFrom(h, j, n); }
    }
  }

  lemma {:induction false} OnlineIs(h: seq<Sample>, n: nat)
    requires HistoryOk(h) && n <= |h|
    ensures Run(h, n).online == OnlineAfter(h, n)
    decreases n
  {
    hide OnlineFrom, OnlineAfter, StepQuiet, StepSagging, StepInterrupted;
    if n == 0 {
      NotOnline(h);
    } else {
      OnlineIs(h, n - 1);
      OnlineNext(h, n - 1);
      OnlineStep(h, n - 1);
    }
  }

  lemma NotOnline(h: seq<Sample>)
    ensures !OnlineAfter(h, 0)
  {
  }

  lemma OnlineStep(h: seq<Sample>, n: nat)
    requires HistoryOk(h) && n < |h|
    ensures Run(h, n + 1).online == if Run(h, n).online then h[n].zx != 0 else h[n].zx > 12
  {
    hide Interrupting, SagMask, RetMask, Since;
    assert Run(h, n + 1) == Step(Run(h, n), h[n], n);
  }

  lemma InterruptsMeans(h: seq<Sample>, j: nat)
    requires HistoryOk(h) && j < |h|
    ensures InterruptsAt(h, j) <==> Lost(h, j)
  {
    OnlineIs(h, j + 1);
    MasksMean(h[j]);
    hide Run, SagMask, OnlineAfter, BelowSag;
    var x := h[j];
    if i :| i in SagMask(x) && x.u[i] < x.intrLevel { assert BelowSag(x, i); }
    if i :| 0 <= i < 3 && BelowSag(x, i) && x.u[i] < x.intrLevel { assert i in SagMask(x); }
  }

  /* ---- how the machine moves ---- */

  predicate UnderWay(m: Machine) { m.st == Sagging || m.st == Interrupted }

  lemma StepMoves(h: seq<Sample>, n: nat)
    requires HistoryOk(h) && n < |h|
    ensures var m, m' := Run(h, n), Run(h, n + 1);
            && (m.st == Init ==> m'.st == if SagMask(h[n]) == {} && m'.online then Normal else Init)
            && (m.st == Normal ==>
                  if SagMask(h[n]) != {} then m'.st == Sagging && m'.begun == n else m'.st == Normal)
            && (UnderWay(m) ==> Completes(h, n) || (UnderWay(m') && m'.begun == m.begun))
            && (m.st == HoldOff ==> m'.st == if Since(h[n].tick, m.endTs) > h[n].holdOff then Normal else HoldOff)
  {
    hide Interrupting, SagMask, RetMask, Min3, Online, Wrap16, Since;
    assert Run(h, n + 1) == Step(Run(h, n), h[n], n);
  }

  lemma CompletesMoves(h: seq<Sample>, n: nat)
    requires HistoryOk(h) && n < |h| && Completes(h, n)
    ensures var m' := Run(h, n + 1);
            && |m'.events| > 0 && |m'.spans| > 0
            && m'.st == if m'.events[|m'.events| - 1].kind == SAG then HoldOff else Normal
  {
    hide Interrupting, SagMask, RetMask, Min3, Online, Wrap16, Since;
    assert Run(h, n + 1) == Step(Run(h, n), h[n], n);
  }

  /* ---- every sagging sample is accounted for ---- */

  predicate Linked(h: seq<Sample>, m: Machine) {
    |m.spans| == |m.events| && forall k :: 0 <= k < |m.spans| ==> SpanOf(h, |h|, m.spans[k])
  }

  /** Why sample j, though a phase is below the sag level, begins no event of its own. */
  ghost predicate Accounted(h: seq<Sample>, j: nat, m: Machine)
    requires HistoryOk(h) && j < |h| && Linked(h, m)
  {
    || NeverReady(h, j)
    || (exists k :: 0 <= k < |m.spans| && m.spans[k].first <= j <= m.spans[k].last)
    || (UnderWay(m) && m.begun <= j)
    || (exists k :: 0 <= k < |m.spans| && m.events[k].kind == SAG && m.spans[k].last < j && HeldOff(h, m.spans[k].last, j))
  }

  /** Where the machine stands towards the conditions on the samples so far. */
  ghost predicate Armed(h: seq<Sample>, n: nat, m: Machine)
    requires HistoryOk(h) && n <= |h| && Linked(h, m)
  {
    && (m.st == Init <==> NeverReady(h, n))
    && (m.st == HoldOff ==>
          m.spans != [] && m.events[|m.events| - 1].kind == SAG && HeldOff(h, m.spans[|m.spans| - 1].last, n))
  }

  lemma NeverReadyNext(h: seq<Sample>, n: nat)
    requires HistoryOk(h) && n < |h|
    ensures NeverReady(h, n + 1) <==> NeverReady(h, n) && !Ready(h, n)
  {
    hide Ready;
  }

  lemma HeldOffNext(h: seq<Sample>, last: nat, n: nat)
    requires last < n < |h|
    ensures HeldOff(h, last, n + 1) <==> HeldOff(h, last, n) && !Over(h, last, n)
  {
    hide Over;
  }

  lemma OverIs(h: seq<Sample>, last: nat, n: nat)
    requires last < |h| && n < |h|
    ensures Over(h, last, n) <==> Since(h[n].tick, h[last].tick) > h[n].holdOff
  {
  }

  /** What the invariant of the run says about its spans. */
  lemma SpansWithin(h: seq<Sample>, n: nat)
    requires HistoryOk(h) && n <= |h|
    ensures var m := Run(h, n);
            && Linked(h, m)
            && (forall k :: 0 <= k < |m.spans| ==> m.spans[k].last < n && !(n <= m.spans[k].first))
            && (UnderWay(m) ==> m.begun < n && SagMask(h[m.begun]) != {})
            && (m.st == HoldOff ==> m.spans != [] && m.endTs == h[m.spans[|m.spans| - 1].last].tick)
            && (m.spans != [] ==> m.st != Init)
  {
    hide Run, EventOk, Apart, ReleasedAt, PhasesSeen, Lowest, InterruptsAt, Recovered, Counted, SagMask, RetMask;
    RunInv(h, n);
  }

  lemma ArmedStep(h: seq<Sample>, n: nat)
    requires HistoryOk(h) && n < |h| && Linked(h, Run(h, n)) && Armed(h, n, Run(h, n))
    ensures Linked(h, Run(h, n + 1)) && Armed(h, n + 1, Run(h, n + 1))
  {
    hide Run, Over, SagMask, RetMask, OnlineAfter, NeverReady, Sags, Back, Since, HeldOff, Linked, Completes;
    SpansWithin(h, n);
    SpansWithin(h, n + 1);
    NeverReadyNext(h, n);
    if Completes(h, n) { ArmedCompletes(h, n); } else { ArmedGoesOn(h, n); }
  }

  lemma ArmedCompletes(h: seq<Sample>, n: nat)
    requires HistoryOk(h) && n < |h| && Linked(h, Run(h, n)) && Linked(h, Run(h, n + 1)) && Armed(h, n, Run(h, n))
    requires Completes(h, n)
    ensures Armed(h, n + 1, Run(h, n + 1))
  {
    hide Run, Over, SagMask, RetMask, OnlineAfter, NeverReady, Ready;
    PushShape(h, n);
    CompletesMoves(h, n);
    NeverReadyNext(h, n);
    hide Completes;
  }

  lemma ArmedGoesOn(h: seq<Sample>, n: nat)
    requires HistoryOk(h) && n < |h| && Linked(h, Run(h, n)) && Linked(h, Run(h, n + 1)) && Armed(h, n, Run(h, n))
    requires !Completes(h, n)
    ensures Armed(h, n + 1, Run(h, n + 1))
  {
    hide Run, Over, SagMask, RetMask, OnlineAfter, NeverReady, Since, Sags, Back, HeldOff, Completes;
    SpansWithin(h, n);
    PushShape(h, n);
    StepMoves(h, n);
    OnlineIs(h, n + 1);
    MasksMean(h[n]);
    NeverReadyNext(h, n);
    if Run(h, n).st == HoldOff {
      var last := Run(h, n).spans[|Run(h, n).spans| - 1].last;
      HeldOffNext(h, last, n);
      OverIs(h, last, n);
    }
  }

  /** An excuse outlives the next sample. */
  lemma AccountedKept(h: seq<Sample>, n: nat, j: nat)
    requires HistoryOk(h) && j < n < |h| && Linked(h, Run(h, n)) && Linked(h, Run(h, n + 1))
    requires Accounted(h, j, Run(h, n))
    ensures Accounted(h, j, Run(h, n + 1))
  {
    hide Run, NeverReady, HeldOff, SagMask, RetMask, Since, Completes;
    SpansWithin(h, n);
    PushShape(h, n);
    StepMoves(h, n);
    var m, m' := Run(h, n), Run(h, n + 1);
    assert forall k :: 0 <= k < |m.spans| ==> m'.spans[k] == m.spans[k] && m'.events[k] == m.events[k];
    if UnderWay(m) && m.begun <= j && Completes(h, n) {
      var k := |m.spans|;
      assert m'.spans[k].first <= j <= m'.spans[k].last;
    }
  }

  /** A sagging sample is accounted for as soon as it is in. */
  lemma AccountedNow(h: seq<Sample>, n: nat)
    requires HistoryOk(h) && n < |h| && Linked(h, Run(h, n)) && Linked(h, Run(h, n + 1)) && Armed(h, n, Run(h, n))
    requires Sags(h[n])
    ensures Accounted(h, n, Run(h, n + 1))
  {
    hide Run, NeverReady, HeldOff, SagMask, RetMask, Since, Sags, Back, Completes;
    SpansWithin(h, n);
    PushShape(h, n);
    StepMoves(h, n);
    MasksMean(h[n]);
    var m, m' := Run(h, n), Run(h, n + 1);
    assert forall k :: 0 <= k < |m.spans| ==> m'.spans[k] == m.spans[k] && m'.events[k] == m.events[k];
    if UnderWay(m) && Completes(h, n) {
      var k := |m.spans|;
      assert m'.spans[k].first <= n <= m'.spans[k].last;
    }
  }

  lemma {:induction false} AllAccounted(h: seq<Sample>, n: nat)
    requires HistoryOk(h) && n <= |h|
    ensures Linked(h, Run(h, n)) && Armed(h, n, Run(h, n))
    ensures forall j :: 0 <= j < n && Sags(h[j]) ==> Accounted(h, j, Run(h, n))
    decreases n
  {
    hide Linked, Accounted, Sags;
    if n == 0 {
      AtBoot(h);
    } else {
      hide Run, Armed;
      AllAccounted(h, n - 1);
      ArmedStep(h, n - 1);
      forall j | 0 <= j < n && Sags(h[j]) ensures Accounted(h, j, Run(h, n)) {
        if j < n - 1 { AccountedKept(h, n - 1, j); } else { AccountedNow(h, n - 1); }
      }
    }
  }

  lemma AtBoot(h: seq<Sample>)
    requires HistoryOk(h)
    ensures Linked(h, Run(h, 0)) && Armed(h, 0, Run(h, 0))
  {
  }

  /* ---- main results ---- */

  /** Over every history: a sample with a phase below the sag level comes before the meter was first online without
      one, or inside an event recorded, or inside the event under way, or while the hold-off after a sag runs. */
  lemma {:induction false} EverySagAccounted(h: seq<Sample>, j: nat)
    requires HistoryOk(h) && j < |h| && Sags(h[j])
    ensures Linked(h, Run(h, |h|)) && Accounted(h, j, Run(h, |h|))
  {
    AllAccounted(h, |h|);
    hide Run, Linked, Armed, Accounted;
  }

  /** The event under way has not met what would end it. */
  lemma {:induction false} UnderWayMeans(h: seq<Sample>)
    requires HistoryOk(h) && UnderWay(Run(h, |h|))
    ensures var m := Run(h, |h|);
            && m.begun < |h| && Sags(h[m.begun])
            && (m.st == Sagging ==> forall j :: m.begun < j < |h| ==> !Lost(h, j) && !Back(h[j]))
            && (m.st == Interrupted ==>
                  && m.begun < m.cut < |h| && Lost(h, m.cut)
                  && (forall j :: m.begun < j < m.cut ==> !Lost(h, j))
                  && (forall j :: m.begun < j < |h| && j != m.cut ==> !Back(h[j])))
  {
    hide Run, PhasesSeen, Lowest, InterruptsAt, Recovered, SagMask, RetMask, Lost, Sags, Back, Ordered, AfterLast, Events, Counted;
    RunInv(h, |h|);
    forall j | 0 <= j < |h| ensures
      (InterruptsAt(h, j) <==> Lost(h, j)) && (Recovered(h[j]) <==> Back(h[j])) && (RetMask(h[j]) == AllPhases <==> Back(h[j]))
      && (SagMask(h[j]) != {} <==> Sags(h[j]))
    {
      MasksMean(h[j]);
      InterruptsMeans(h, j);
    }
  }

  /** Every event recorded begins at a sagging sample and ends at the first sample that ends it: a sag at the first with
      all phases back, if none before lost the voltage; an interruption at the first such after the one that did. */
  lemma {:induction false} SpanMeans(h: seq<Sample>, k: nat)
    requires HistoryOk(h) && k < |Run(h, |h|).events|
    ensures var m := Run(h, |h|);
            && Linked(h, m)
            && var s, e := m.spans[k], m.events[k];
            && Sags(h[s.first]) && Back(h[s.last])
            && (forall j :: s.first < j < s.cut ==> !Lost(h, j) && !Back(h[j]))
            && (if e.kind == SAG then s.cut == s.last && !Lost(h, s.last)
                else s.cut < s.last && Lost(h, s.cut) && forall j :: s.cut < j < s.last ==> !Back(h[j]))
  {
    hide Run, PhasesSeen, Lowest, InterruptsAt, Recovered, SagMask, RetMask, Lost, Sags, Back, Ongoing, AfterLast, Counted;
    RunInv(h, |h|);
    var m := Run(h, |h|);
    assert SpanOf(h, |h|, m.spans[k]) && EventOk(h, m.spans[k], m.events[k]);
    forall j | 0 <= j < |h| ensures
      (InterruptsAt(h, j) <==> Lost(h, j)) && (Recovered(h[j]) <==> Back(h[j])) && (RetMask(h[j]) == AllPhases <==> Back(h[j]))
      && (SagMask(h[j]) != {} <==> Sags(h[j]))
    {
      MasksMean(h[j]);
      InterruptsMeans(h, j);
    }
  }

  /** Some event, recorded or under way, begins at sample n. */
  ghost predicate Begins(m: Machine, n: nat) {
    (exists k :: 0 <= k < |m.spans| && m.spans[k].first == n) || (UnderWay(m) && m.begun == n)
  }

  /** Before an event there is a sagging sample at its beginning. */
  lemma {:induction false} BeginningsSag(h: seq<Sample>)
    requires HistoryOk(h)
    ensures var m := Run(h, |h|);
            && Linked(h, m)
            && (forall k :: 0 <= k < |m.spans| ==> Sags(h[m.spans[k].first]))
            && (UnderWay(m) ==> m.begun < |h| && Sags(h[m.begun]))
  {
    SpansWithin(h, |h|);
    hide Run, Sags, SagMask, Lost, Back;
    var m := Run(h, |h|);
    forall k | 0 <= k < |m.spans| ensures Sags(h[m.spans[k].first]) { SpanMeans(h, k); }
    if UnderWay(m) { MasksMean(h[m.begun]); }
  }

  /** The first sag: once the meter was online with no phase low, the first sample with a phase below the sag level
      begins an event. */
  lemma {:induction false} FirstSagDetected(h: seq<Sample>, r: nat, n: nat)
    requires HistoryOk(h) && r < n < |h| && Ready(h, r) && Sags(h[n]) && forall i :: 0 <= i < n ==> !Sags(h[i])
    ensures Begins(Run(h, |h|), n)
  {
    EverySagAccounted(h, n);
    BeginningsSag(h);
    hide Run, Ready, Sags, HeldOff;
  }

  /** After event k sags are looked for again from sample r on: at once after an interruption, and after a sag from the
      first sample that finds the hold-off over. */
  predicate Rearmed(h: seq<Sample>, s: Span, e: PqEvent, r: nat)
    requires s.last < |h|
  {
    if e.kind == SAG then s.last < r < |h| && Over(h, s.last, r) && HeldOff(h, s.last, r) else r == s.last
  }

  /** What follows event k begins after that. */
  lemma {:induction false} NextIsLater(h: seq<Sample>, k: nat, r: nat, next: nat)
    requires HistoryOk(h) && Linked(h, Run(h, |h|)) && k < |Run(h, |h|).spans|
    requires var m := Run(h, |h|); Apart(h, m.spans[k], m.events[k], next) && Rearmed(h, m.spans[k], m.events[k], r)
    ensures r < next
  {
    hide Run;
    var s, e := Run(h, |h|).spans[k], Run(h, |h|).events[k];
    if e.kind == SAG {
      var r': nat :| r' < next && ReleasedAt(h, s.last, r');
      assert Over(h, s.last, r');
    }
  }

  predicate ApartAll(h: seq<Sample>, m: Machine)
    requires HistoryOk(h) && Linked(h, m)
  {
    && (forall k :: 0 <= k < |m.spans| - 1 ==> m.spans[k].last < m.spans[k + 1].first)
    && (UnderWay(m) && m.spans != [] ==> m.spans[|m.spans| - 1].last < m.begun)
  }

  lemma {:induction false} RunApart(h: seq<Sample>, k: nat)
    requires HistoryOk(h)
    ensures var m := Run(h, |h|);
            && Linked(h, m) && ApartAll(h, m)
            && (k + 1 < |m.spans| ==> Apart(h, m.spans[k], m.events[k], m.spans[k + 1].first))
            && (k + 1 == |m.spans| && UnderWay(m) ==> Apart(h, m.spans[k], m.events[k], m.begun))
  {
    hide Run, EventOk, ReleasedAt, PhasesSeen, Lowest, InterruptsAt, Recovered, Counted, SagMask, RetMask, Ongoing;
    RunInv(h, |h|);
    var m := Run(h, |h|);
    forall k | 0 <= k < |m.spans| - 1 ensures m.spans[k].last < m.spans[k + 1].first {
      assert Apart(h, m.spans[k], m.events[k], m.spans[k + 1].first);
    }
  }

  lemma {:induction false} SpansRise(h: seq<Sample>, m: Machine, a: nat, b: nat)
    requires HistoryOk(h) && Linked(h, m) && ApartAll(h, m) && a < b < |m.spans|
    ensures m.spans[a].last < m.spans[b].first
    decreases b
  {
    assert m.spans[b - 1].last < m.spans[b].first && SpanOf(h, |h|, m.spans[b - 1]);
    if a < b - 1 { SpansRise(h, m, a, b - 1); }
  }

  /** Events after event k begin after the machine was rearmed. */
  lemma {:induction false} LaterBeginnings(h: seq<Sample>, k: nat, r: nat)
    requires HistoryOk(h) && Linked(h, Run(h, |h|)) && k < |Run(h, |h|).spans|
    requires Rearmed(h, Run(h, |h|).spans[k], Run(h, |h|).events[k], r)
    ensures var m := Run(h, |h|);
            && (forall k' :: k < k' < |m.spans| ==> r < m.spans[k'].first)
            && (UnderWay(m) ==> r < m.begun)
  {
    var m := Run(h, |h|);
    hide Run, Apart, Rearmed;
    RunApart(h, k);
    if k + 1 < |m.spans| {
      NextIsLater(h, k, r, m.spans[k + 1].first);
      forall k' | k < k' < |m.spans| ensures r < m.spans[k'].first {
        if k + 1 < k' { SpansRise(h, m, k + 1, k'); }
        assert SpanOf(h, |h|, m.spans[k + 1]);
      }
      if UnderWay(m) {
        assert SpanOf(h, |h|, m.spans[|m.spans| - 1]);
      }
    } else if UnderWay(m) {
      NextIsLater(h, k, r, m.begun);
    }
  }

  /** The hold-offs of earlier sags are over by then. */
  lemma {:induction false} EarlierHoldOffsOver(h: seq<Sample>, k: nat, k': nat, r: nat, n: nat)
    requires HistoryOk(h) && Linked(h, Run(h, |h|)) && k' <= k < |Run(h, |h|).spans| && r < n < |h|
    requires Rearmed(h, Run(h, |h|).spans[k], Run(h, |h|).events[k], r)
    requires Run(h, |h|).events[k'].kind == SAG
    ensures !HeldOff(h, Run(h, |h|).spans[k'].last, n)
  {
    var m := Run(h, |h|);
    hide Run, Over;
    if k' < k {
      RunApart(h, k');
      var next := m.spans[k' + 1].first;
      var r': nat :| r' < next && ReleasedAt(h, m.spans[k'].last, r');
      OverIs(h, m.spans[k'].last, r');
      assert SpanOf(h, |h|, m.spans[k' + 1]) && SpanOf(h, |h|, m.spans[k]);
      if k' + 1 < k { SpansRise(h, m, k' + 1, k); }
      assert m.spans[k' + 1].first <= m.spans[k].first;
    }
  }

  /** The next sag: after each event, the first sample with a phase below the sag level once the machine is rearmed
      begins another. */
  lemma {:induction false} NextSagDetected(h: seq<Sample>, k: nat, r: nat, n: nat)
    requires HistoryOk(h) && Linked(h, Run(h, |h|)) && k < |Run(h, |h|).spans|
    requires Rearmed(h, Run(h, |h|).spans[k], Run(h, |h|).events[k], r)
    requires r < n < |h| && Sags(h[n]) && forall i :: r < i < n ==> !Sags(h[i])
    ensures Begins(Run(h, |h|), n)
  {
    var m := Run(h, |h|);
    EverySagAccounted(h, n);
    BeginningsSag(h);
    LaterBeginnings(h, k, r);
    SomeReady(h, k, n);
    hide Run, Sags, HeldOff, Ready;
    assert SpanOf(h, |h|, m.spans[k]);
    RearmedLater(h, m.spans[k], m.events[k], r);
    hide Rearmed;
    if k' :| 0 <= k' < |m.spans| && m.spans[k'].first <= n <= m.spans[k'].last {
      if k' <= k { NotYet(h, k', k, n); }
      assert m.spans[k'].first == n;
    } else if k' :| 0 <= k' < |m.spans| && m.events[k'].kind == SAG && m.spans[k'].last < n && HeldOff(h, m.spans[k'].last, n) {
      assert SpanOf(h, |h|, m.spans[k']);
      if k' <= k { EarlierHoldOffsOver(h, k, k', r, n); }
    }
  }

  lemma RearmedLater(h: seq<Sample>, s: Span, e: PqEvent, r: nat)
    requires s.last < |h| && Rearmed(h, s, e, r)
    ensures s.last <= r
  {
  }

  /** Events up to k end before sample n. */
  lemma {:induction false} NotYet(h: seq<Sample>, k': nat, k: nat, n: nat)
    requires HistoryOk(h) && Linked(h, Run(h, |h|)) && k' <= k < |Run(h, |h|).spans| && Run(h, |h|).spans[k].last < n
    ensures Run(h, |h|).spans[k'].last < n
  {
    hide Run;
    RunApart(h, k);
    var m := Run(h, |h|);
    if k' < k { SpansRise(h, m, k', k); }
    assert SpanOf(h, |h|, m.spans[k]);
  }

  /** Where there is an event the meter was ready before its end. */
  lemma {:induction false} ReadyBefore(h: seq<Sample>, n: nat)
    requires HistoryOk(h) && n <= |h|
    ensures Linked(h, Run(h, n)) && forall k :: 0 <= k < |Run(h, n).spans| ==> !NeverReady(h, Run(h, n).spans[k].last)
    decreases n
  {
    hide Run, NeverReady, Completes, SagMask, RetMask, Since;
    AllAccounted(h, n);
    if n == 0 {
      NoSpans(h);
    } else {
      ReadyBefore(h, n - 1);
      AllAccounted(h, n - 1);
      PushShape(h, n - 1);
      var m, m' := Run(h, n - 1), Run(h, n);
      forall k | 0 <= k < |m'.spans| ensures !NeverReady(h, m'.spans[k].last) {
        if k < |m.spans| { assert m'.spans[k] == m.spans[k]; }
      }
    }
  }

  lemma NoSpans(h: seq<Sample>)
    requires HistoryOk(h)
    ensures Run(h, 0).spans == []
  {
  }

  lemma {:induction false} SomeReady(h: seq<Sample>, k: nat, n: nat)
    requires HistoryOk(h) && Linked(h, Run(h, |h|)) && k < |Run(h, |h|).spans| && Run(h, |h|).spans[k].last < n < |h|
    ensures !NeverReady(h, n)
  {
    ReadyBefore(h, |h|);
    hide Run, Ready;
    assert !NeverReady(h, Run(h, |h|).spans[k].last);
  }

  /* ---- a history with one event of each kind ---- */

  /** Phases 1 and 2 at 220, phase 0 at v; sag level 180, return level 189, interruption level 20, hold-off 5. */
  function At(tick: nat, zx: nat, v: nat): Sample { Sample(tick, zx, [v, 220, 220], true, 180, 189, 20, 5) }

  /** A sag; a deep sag that turns into an interruption; a sag during which the zero crossings fail for a minute. */
  const HISTORY: seq<Sample> :=
    [At(0, 13, 220), At(10, 13, 100), At(20, 13, 220), At(30, 13, 220), At(40, 13, 100), At(50, 13, 10), At(60, 13, 220),
     At(70, 13, 100), At(80, 0, 100), At(60070, 13, 220)]

  lemma AtMasks(tick: nat, zx: nat, v: nat)
    requires tick < WRAP64
    ensures SampleOk(At(tick, zx, v))
    ensures v >= 190 ==> SagMask(At(tick, zx, v)) == {} && RetMask(At(tick, zx, v)) == AllPhases
    ensures v < 180 ==> SagMask(At(tick, zx, v)) == {0} && RetMask(At(tick, zx, v)) != AllPhases
    ensures forall on :: v < 180 ==> (Interrupting(on, At(tick, zx, v)) <==> !on || v < 20)
    ensures forall on :: v >= 190 ==> (Interrupting(on, At(tick, zx, v)) <==> !on)
  {
    var x := At(tick, zx, v);
    if v < 180 {
      assert forall i :: i in SagMask(x) <==> i == 0;
      assert 0 !in RetMask(x);
    }
    if v >= 190 { AllReturned(x); }
  }

  lemma RunNext(n: nat)
    requires n < |HISTORY|
    ensures HistoryOk(HISTORY) && Run(HISTORY, n + 1) == Step(Run(HISTORY, n), HISTORY[n], n)
  {
  }

  lemma IntrEnds(m: Machine, x: Sample, n: nat)
    requires SampleOk(x) && |m.val| == 3 && m.st == Interrupted && RetMask(x) == AllPhases
    ensures Step(m, x, n) ==
            m.(online := Online(m.online, x), endTs := x.tick, st := Normal, intr := Wrap16(m.intr + 1), released := n,
               events := m.events + [PqEvent(IntrKind(Since(x.tick, m.startTs)), m.startTs, x.tick, m.mask, m.val)],
               spans := m.spans + [Span(m.begun, m.cut, n)])
  {
    hide RetMask, SagMask, Since, Online, Wrap16, IntrKind;
  }

  lemma SagBegins(m: Machine, x: Sample, n: nat)
    requires SampleOk(x) && |m.val| == 3 && m.st == Normal && SagMask(x) != {}
    ensures Step(m, x, n) == m.(online := Online(m.online, x), startTs := x.tick, mask := SagMask(x), val := x.u, st := Sagging, begun := n)
  {
    hide RetMask, SagMask, Online;
  }

  lemma SagIsLost(m: Machine, x: Sample, n: nat)
    requires SampleOk(x) && |m.val| == 3 && m.st == Sagging && Interrupting(Online(m.online, x), x)
    ensures Step(m, x, n) == m.(online := Online(m.online, x), st := Interrupted, cut := n)
  {
    hide RetMask, SagMask, Online, Interrupting;
  }

  /** A sag and its hold-off. */
  lemma HistorySag()
    ensures HistoryOk(HISTORY)
    ensures Run(HISTORY, 4) ==
            Machine(true, Normal, 10, 20, {0}, [100, 220, 220], 1, 0, [PqEvent(SAG, 10, 20, {0}, [100, 220, 220])],
                    1, 0, 3, [Span(1, 2, 2)])
  {
    AtMasks(0, 13, 220);
    AtMasks(10, 13, 100);
    AtMasks(20, 13, 220);
    AtMasks(30, 13, 220);
    hide Run, SagMask, RetMask, Interrupting;
    BootRun();
    RunNext(0);
    assert Run(HISTORY, 1) == Machine(true, Normal, 0, 0, {}, [0, 0, 0], 0, 0, [], 0, 0, 0, []);
    RunNext(1);
    assert Run(HISTORY, 2) == Machine(true, Sagging, 10, 0, {0}, [100, 220, 220], 0, 0, [], 1, 0, 0, []);
    RunNext(2);
    RunNext(3);
  }

  lemma BootRun()
    ensures HistoryOk(HISTORY) && Run(HISTORY, 0) == Boot()
  {
  }

  /** A short interruption, recorded with the depth seen before it. */
  lemma HistoryShort()
    ensures HistoryOk(HISTORY)
    ensures Run(HISTORY, 7) ==
            Machine(true, Normal, 40, 60, {0}, [100, 220, 220], 1, 1,
                    [PqEvent(SAG, 10, 20, {0}, [100, 220, 220]), PqEvent(SHORT_INTR, 40, 60, {0}, [100, 220, 220])],
                    4, 5, 6, [Span(1, 2, 2), Span(4, 5, 6)])
  {
    AtMasks(40, 13, 100);
    AtMasks(50, 13, 10);
    AtMasks(60, 13, 220);
    hide Run, SagMask, RetMask, Interrupting, Step;
    HistorySag();
    RunNext(4);
    SagBegins(Run(HISTORY, 4), HISTORY[4], 4);
    RunNext(5);
    SagIsLost(Run(HISTORY, 5), HISTORY[5], 5);
    RunNext(6);
    IntrEnds(Run(HISTORY, 6), HISTORY[6], 6);
  }

  const SAG_SEEN := PqEvent(SAG, 10, 20, {0}, [100, 220, 220])
  const SHORT_SEEN := PqEvent(SHORT_INTR, 40, 60, {0}, [100, 220, 220])

  /** The zero crossings have failed during the third. */
  lemma HistoryThird()
    ensures HistoryOk(HISTORY)
    ensures Run(HISTORY, 9) ==
            Machine(false, Interrupted, 70, 60, {0}, [100, 220, 220], 1, 1, [SAG_SEEN, SHORT_SEEN],
                    7, 8, 6, [Span(1, 2, 2), Span(4, 5, 6)])
  {
    AtMasks(70, 13, 100);
    AtMasks(80, 0, 100);
    hide Run, SagMask, RetMask, Interrupting, Step;
    HistoryShort();
    RunNext(7);
    SagBegins(Run(HISTORY, 7), HISTORY[7], 7);
    RunNext(8);
    SagIsLost(Run(HISTORY, 8), HISTORY[8], 8);
  }

  const LONG_SEEN := PqEvent(LONG_INTR, 70, 60070, {0}, [100, 220, 220])

  /** And a long one. */
  lemma HistoryOfAllKinds()
    ensures HistoryOk(HISTORY) && |HISTORY| == 10
    ensures var m := Run(HISTORY, 10);
            && m.events == [SAG_SEEN, SHORT_SEEN] + [LONG_SEEN]
            && m.spans == [Span(1, 2, 2), Span(4, 5, 6)] + [Span(7, 8, 9)]
            && m.sag == 1 && m.intr == 2
  {
    LastSample();
    hide Run, SagMask, RetMask, Interrupting, Step, HISTORY, Online, Since, Wrap16, At;
    HistoryThird();
    RunNext(9);
    IntrEnds(Run(HISTORY, 9), HISTORY[9], 9);
    SinceMonotone(60070, 70);
    assert Wrap16(2) == 2 by { SmallWrap(); }
  }

  lemma LastSample()
    ensures HistoryOk(HISTORY) && |HISTORY| == 10 && HISTORY[9].tick == 60070 && RetMask(HISTORY[9]) == AllPhases
  {
    AtMasks(60070, 13, 220);
  }

  lemma SmallWrap()
    ensures Wrap16(2) == 2
  {
  }
}
