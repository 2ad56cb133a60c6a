/** How meter_scan (src/ade9000.c) reads, acknowledges and handles the two latching status registers of the chip,
    which can set a latch between any two of its actions. */
module StatusLatch {

  /** Handled bits in the order their handlers run. STATUS0 is acknowledged before them, STATUS1 after. */
  const HANDLERS0: seq<int> := [0, 17, 19, 20, 18, 21, 25]
  const HANDLERS1: seq<int> := [9, 6]

  /** A latch being set, and when. */
  datatype Occurrence = Occurrence(bit: int, time: nat)

  /** The next action of the scan. */
  datatype Pc = Read0 | Read1 | Ack0 | Handle0(k: nat) | Handle1(k: nat) | Ack1

  datatype Register = Register(latched: set<int>, snap: set<int>, occurred: set<Occurrence>, ran: map<int, nat>)

  datatype Chip = Chip(r0: Register, r1: Register, pc: Pc, now: nat, lastRead: nat)

  datatype Step = Occur0(bit: int) | Occur1(bit: int) | Scan

  predicate PcOk(pc: Pc) {
    (pc.Handle0? ==> pc.k < |HANDLERS0|) && (pc.Handle1? ==> pc.k < |HANDLERS1|)
  }

  function Raise(r: Register, bit: int, now: nat): Register {
    r.(latched := r.latched + {bit}, occurred := r.occurred + {Occurrence(bit, now)})
  }

  /** Write-1-to-clear of what was read. */
  function Acknowledge(r: Register): Register { r.(latched := r.latched - r.snap) }

  function Handle(r: Register, bit: int, now: nat): Register {
    if bit in r.snap then r.(ran := r.ran[bit := now]) else r
  }

  function Next(c: Chip, step: Step): Chip
    requires PcOk(c.pc)
  {
    var t := c.(now := c.now + 1);
    match step
    case Occur0(bit) => t.(r0 := Raise(c.r0, bit, c.now))
    case Occur1(bit) => t.(r1 := Raise(c.r1, bit, c.now))
    case Scan =>
      match c.pc
      case Read0 => t.(r0 := c.r0.(snap := c.r0.latched), pc := Read1, lastRead := c.now)
      case Read1 => t.(r1 := c.r1.(snap := c.r1.latched), pc := Ack0)
      case Ack0 => t.(r0 := Acknowledge(c.r0), pc := Handle0(0))
      case Handle0(k) =>
        t.(r0 := Handle(c.r0, HANDLERS0[k], c.now), pc := if k + 1 < |HANDLERS0| then Handle0(k + 1) else Handle1(0))
      case Handle1(k) =>
        t.(r1 := Handle(c.r1, HANDLERS1[k], c.now), pc := if k + 1 < |HANDLERS1| then Handle1(k + 1) else Ack1)
      case Ack1 => t.(r1 := Acknowledge(c.r1), pc := Read0)
  }

  /* ---- no STATUS0 event is lost ---- */

  /** The snapshot holds the bit and its handler is still to come in this scan. */
  predicate Pending0(c: Chip, bit: int) {
    bit in c.r0.snap &&
    match c.pc
    case Read1 => true
    case Ack0 => true
    case Handle0(k) => exists i :: k <= i < |HANDLERS0| && HANDLERS0[i] == bit
    case _ => false
  }

  predicate RanAfter(r: Register, o: Occurrence) { o.bit in r.ran && r.ran[o.bit] > o.time }

  predicate Kept0(c: Chip, o: Occurrence) {
    o.bit in c.r0.latched || Pending0(c, o.bit) || RanAfter(c.r0, o)
  }

  predicate Inv0(c: Chip) {
    && PcOk(c.pc) && c.lastRead <= c.now
    && (forall o :: o in c.r0.occurred ==> o.time < c.now)
    && (forall o :: o in c.r0.occurred && o.bit in HANDLERS0 ==> Kept0(c, o))
    && (forall o :: o in c.r0.occurred && o.bit in HANDLERS0 && o.time < c.lastRead ==> Pending0(c, o.bit) || RanAfter(c.r0, o))
  }

  lemma HandlerReached(bit: int, k: nat)
    requires k < |HANDLERS0| && HANDLERS0[k] != bit
    ensures (exists i :: k <= i < |HANDLERS0| && HANDLERS0[i] == bit) ==>
            exists i :: k + 1 <= i < |HANDLERS0| && HANDLERS0[i] == bit
  {
  }

  lemma KeptPreserved(c: Chip, step: Step, o: Occurrence)
    requires Inv0(c) && o.bit in HANDLERS0 && o.time < c.now && Kept0(c, o)
    ensures Kept0(Next(c, step), o)
    ensures (Pending0(c, o.bit) || RanAfter(c.r0, o)) && !(step.Scan? && c.pc.Read0?) ==>
              Pending0(Next(c, step), o.bit) || RanAfter(Next(c, step).r0, o)
  {
    if step.Scan? && c.pc.Ack0? {
      assert HANDLERS0[0] == 0;
      var i :| 0 <= i < |HANDLERS0| && HANDLERS0[i] == o.bit;
    } else if step.Scan? && c.pc.Handle0? {
      if HANDLERS0[c.pc.k] != o.bit { HandlerReached(o.bit, c.pc.k); }
    }
  }

  lemma Inv0Preserved(c: Chip, step: Step)
    requires Inv0(c)
    ensures Inv0(Next(c, step))
  {
    var c' := Next(c, step);
    forall o | o in c'.r0.occurred && o.bit in HANDLERS0
      ensures Kept0(c', o)
      ensures o.time < c'.lastRead ==> Pending0(c', o.bit) || RanAfter(c'.r0, o)
    {
      if o in c.r0.occurred { KeptPreserved(c, step, o); }
    }
  }

  function Boot(): Chip {
    Chip(Register({}, {}, {}, map[]), Register({}, {}, {}, map[]), Read0, 0, 0)
  }

  function After(c: Chip, steps: seq<Step>): (c': Chip)
    requires PcOk(c.pc)
    ensures PcOk(c'.pc)
    decreases |steps|
  {
    if steps == [] then c else After(Next(c, steps[0]), steps[1..])
  }

  lemma {:induction false} AfterInv0(c: Chip, steps: seq<Step>)
    requires Inv0(c)
    ensures Inv0(After(c, steps))
    decreases |steps|
  {
    hide Inv0, Next;
    if steps != [] {
      Inv0Preserved(c, steps[0]);
      PcStaysOk(c);
      AfterInv0(Next(c, steps[0]), steps[1..]);
    } else {
      PcStaysOk(c);
    }
  }

  lemma PcStaysOk(c: Chip)
    requires Inv0(c)
    ensures PcOk(c.pc)
  {
  }

  /** At every moment of every run each STATUS0 event with a handler is still latched, or in the snapshot with its
      handler yet to run, or already followed by a run of its handler. */
  lemma NoStatus0EventLost(steps: seq<Step>, o: Occurrence)
    requires o in After(Boot(), steps).r0.occurred && o.bit in HANDLERS0
    ensures Kept0(After(Boot(), steps), o)
  {
    AfterInv0(Boot(), steps);
  }

  /** Once a scan's handlers are over, every event older than its register read has been handled. */
  lemma ScanHandlesAllOlder(steps: seq<Step>, o: Occurrence)
    requires var c := After(Boot(), steps);
             o in c.r0.occurred && o.bit in HANDLERS0 && o.time < c.lastRead && (c.pc.Handle1? || c.pc.Ack1? || c.pc.Read0?)
    ensures RanAfter(After(Boot(), steps).r0, o)
  {
    AfterInv0(Boot(), steps);
  }

  /* ---- when a STATUS1 event is lost ---- */

  predicate Pending1(c: Chip, bit: int) {
    bit in c.r1.snap &&
    match c.pc
    case Ack0 => true
    case Handle0(_) => true
    case Handle1(k) => exists i :: k <= i < |HANDLERS1| && HANDLERS1[i] == bit
    case _ => false
  }

  predicate Kept1(c: Chip, o: Occurrence) {
    o.bit in c.r1.latched || Pending1(c, o.bit) || RanAfter(c.r1, o)
  }

  lemma Handler1Reached(bit: int, k: nat)
    requires k < |HANDLERS1| && HANDLERS1[k] != bit
    ensures (exists i :: k <= i < |HANDLERS1| && HANDLERS1[i] == bit) ==>
            exists i :: k + 1 <= i < |HANDLERS1| && HANDLERS1[i] == bit
  {
  }

  /** The handler of the bit has run, or been passed over, in this scan and the acknowledge is still to come. */
  predicate Passed(pc: Pc, bit: int) {
    (pc.Handle1? && exists i :: 0 <= i < pc.k && i < |HANDLERS1| && HANDLERS1[i] == bit) || (pc.Ack1? && bit in HANDLERS1)
  }

  predicate Exposed(c: Chip, bit: int) { Passed(c.pc, bit) && bit in c.r1.snap }

  /** The bits of the snapshot that were set again after their handlers ran. */
  function Late(c: Chip, step: Step, late: set<int>): set<int> {
    if step.Occur1? && Exposed(c, step.bit) then late + {step.bit}
    else if step.Scan? && c.pc.Ack1? then {}
    else late
  }

  predicate AnyLate(late: set<int>) { exists bit :: bit in late }

  ghost predicate SetAgain(c: Chip, bit: int)
    requires bit in c.r1.ran
  {
    exists o :: o in c.r1.occurred && o.bit == bit && o.time >= c.r1.ran[bit]
  }

  /** Handlers passed did run in this scan, and the late bits are exactly those set since. */
  ghost predicate Inv1(c: Chip, late: set<int>) {
    && PcOk(c.pc) && (!c.pc.Read0? ==> c.lastRead < c.now)
    && (forall o :: o in c.r1.occurred ==> o.time < c.now)
    && (forall bit :: Exposed(c, bit) ==> bit in c.r1.ran && c.lastRead < c.r1.ran[bit] < c.now)
    && (forall bit :: bit in late <==> Exposed(c, bit) && SetAgain(c, bit))
  }

  ghost predicate AllKept1(c: Chip) {
    forall o :: o in c.r1.occurred && o.bit in HANDLERS1 ==> Kept1(c, o)
  }

  lemma PassedNext(c: Chip, bit: int)
    requires PcOk(c.pc)
    ensures Passed(Next(c, Scan).pc, bit) <==>
            !c.pc.Ack1? && (Passed(c.pc, bit) || (c.pc.Handle1? && bit == HANDLERS1[c.pc.k]))
  {
    if c.pc.Handle1? { assert HANDLERS1[c.pc.k] in HANDLERS1; }
  }

  lemma Inv1Occurs(c: Chip, step: Step, late: set<int>)
    requires Inv1(c, late) && !step.Scan?
    ensures Inv1(Next(c, step), Late(c, step, late))
  {
    var c', late' := Next(c, step), Late(c, step, late);
    if step.Occur1? {
      var o := Occurrence(step.bit, c.now);
      assert o in c'.r1.occurred;
      forall bit | Exposed(c', bit) ensures bit in late' <==> SetAgain(c', bit) {
        assert Exposed(c, bit);
        if SetAgain(c, bit) {
          var o' :| o' in c.r1.occurred && o'.bit == bit && o'.time >= c.r1.ran[bit];
          assert o' in c'.r1.occurred;
        }
      }
    } else {
      assert c'.r1 == c.r1 && forall bit :: Exposed(c', bit) <==> Exposed(c, bit);
    }
  }

  lemma Inv1Scans(c: Chip, late: set<int>)
    requires Inv1(c, late)
    ensures Inv1(Next(c, Scan), Late(c, Scan, late))
  {
    var c', late' := Next(c, Scan), Late(c, Scan, late);
    forall bit ensures Exposed(c', bit) <==> !c.pc.Ack1? && !c.pc.Read1? && (Exposed(c, bit) || (c.pc.Handle1? && bit == HANDLERS1[c.pc.k] && bit in c.r1.snap)) {
      PassedNext(c, bit);
    }
    forall bit | Exposed(c', bit)
      ensures bit in c'.r1.ran && c'.lastRead < c'.r1.ran[bit] < c'.now && (bit in late' <==> SetAgain(c', bit))
    {
      assert c'.r1.occurred == c.r1.occurred;
    }
  }

  /** Each step keeps every STATUS1 event exactly when it is not an acknowledge over a late bit. */
  lemma Kept1Exactly(c: Chip, step: Step, late: set<int>)
    requires Inv1(c, late) && AllKept1(c)
    ensures AllKept1(Next(c, step)) <==> !(step.Scan? && c.pc.Ack1? && AnyLate(late))
  {
    var c' := Next(c, step);
    if step.Scan? && c.pc.Ack1? {
      AcknowledgeKeeps(c, late);
    } else {
      forall o | o in c'.r1.occurred && o.bit in HANDLERS1 ensures Kept1(c', o) {
        if o in c.r1.occurred { KeptBeforeAck(c, step, o); }
      }
    }
  }

  lemma KeptBeforeAck(c: Chip, step: Step, o: Occurrence)
    requires PcOk(c.pc) && o.bit in HANDLERS1 && o.time < c.now && Kept1(c, o) && !(step.Scan? && c.pc.Ack1?)
    ensures Kept1(Next(c, step), o)
  {
    if step.Scan? && c.pc.Handle1? {
      if HANDLERS1[c.pc.k] != o.bit { Handler1Reached(o.bit, c.pc.k); }
    } else if step.Scan? && c.pc.Handle0? {
      assert HANDLERS1[0] == 9 && HANDLERS1[1] == 6;
    }
  }

  lemma AcknowledgeKeeps(c: Chip, late: set<int>)
    requires Inv1(c, late) && AllKept1(c) && c.pc.Ack1?
    ensures AllKept1(Next(c, Scan)) <==> !AnyLate(late)
  {
    var c' := Next(c, Scan);
    if bit :| bit in late {
      assert Exposed(c, bit) && SetAgain(c, bit);
      var o :| o in c.r1.occurred && o.bit == bit && o.time >= c.r1.ran[bit];
      assert !Kept1(c', o);
    } else {
      forall o | o in c'.r1.occurred && o.bit in HANDLERS1 ensures Kept1(c', o) {
        if o.bit in c.r1.snap { assert Exposed(c, o.bit) && !SetAgain(c, o.bit); }
      }
    }
  }

  ghost predicate AlwaysKept1(c: Chip, steps: seq<Step>)
    requires PcOk(c.pc)
    decreases |steps|
  {
    AllKept1(c) && (steps == [] || (NextPcOk(c, steps[0]); AlwaysKept1(Next(c, steps[0]), steps[1..])))
  }

  /** No acknowledge of the run finds a bit that was set again after its handler. */
  predicate Calm(c: Chip, late: set<int>, steps: seq<Step>)
    requires PcOk(c.pc)
    decreases |steps|
  {
    steps == [] ||
    (!(steps[0].Scan? && c.pc.Ack1? && AnyLate(late)) &&
     (NextPcOk(c, steps[0]); Calm(Next(c, steps[0]), Late(c, steps[0], late), steps[1..])))
  }

  lemma NextPcOk(c: Chip, step: Step)
    requires PcOk(c.pc)
    ensures PcOk(Next(c, step).pc)
  {
  }

  lemma {:induction false} AlwaysKeptExactly(c: Chip, late: set<int>, steps: seq<Step>)
    requires Inv1(c, late) && AllKept1(c)
    ensures AlwaysKept1(c, steps) <==> Calm(c, late, steps)
    decreases |steps|
  {
    hide Inv1, AllKept1, Next, Late;
    if steps != [] {
      var step := steps[0];
      Inv1Preserved(c, step, late);
      Kept1Exactly(c, step, late);
      if AllKept1(Next(c, step)) {
        AlwaysKeptExactly(Next(c, step), Late(c, step, late), steps[1..]);
      } else {
        NextPcOk(c, step);
      }
    }
  }

  lemma Inv1Preserved(c: Chip, step: Step, late: set<int>)
    requires Inv1(c, late)
    ensures Inv1(Next(c, step), Late(c, step, late))
    ensures PcOk(c.pc)
  {
    if step.Scan? { Inv1Scans(c, late); } else { Inv1Occurs(c, step, late); }
  }

  lemma BootInv1()
    ensures Inv1(Boot(), {}) && AllKept1(Boot())
  {
  }

  /** Over every run: no STATUS1 event is ever lost if and only if no acknowledge finds a bit that was set again
      between its handler and that acknowledge. */
  lemma Status1KeptExactly(steps: seq<Step>)
    ensures AlwaysKept1(Boot(), steps) <==> Calm(Boot(), {}, steps)
  {
    BootInv1();
    AlwaysKeptExactly(Boot(), {}, steps);
  }

  /** The late bits after a run. */
  function LateAfter(c: Chip, late: set<int>, steps: seq<Step>): set<int>
    requires PcOk(c.pc)
    decreases |steps|
  {
    if steps == [] then late
    else
      NextPcOk(c, steps[0]);
      LateAfter(Next(c, steps[0]), Late(c, steps[0], late), steps[1..])
  }

  lemma {:induction false} AfterInv1(c: Chip, late: set<int>, steps: seq<Step>)
    requires Inv1(c, late) && PcOk(c.pc)
    ensures Inv1(After(c, steps), LateAfter(c, late, steps))
    decreases |steps|
  {
    hide Inv1, Next, Late;
    if steps != [] {
      Inv1Preserved(c, steps[0], late);
      NextPcOk(c, steps[0]);
      AfterInv1(Next(c, steps[0]), Late(c, steps[0], late), steps[1..]);
    }
  }

  /** At the acknowledge of any run every handled bit of the snapshot has had its handler run in this scan, and the
      events lost are those that came after that run. */
  lemma AcknowledgeLosesExactly(steps: seq<Step>, o: Occurrence)
    requires var c := After(Boot(), steps); c.pc.Ack1? && o in c.r1.occurred && o.bit in HANDLERS1 && Kept1(c, o)
    ensures var c := After(Boot(), steps);
            && (o.bit in c.r1.snap ==> o.bit in c.r1.ran && c.lastRead < c.r1.ran[o.bit])
            && (Kept1(Next(c, Scan), o) <==> !(o.bit in c.r1.snap && o.time >= c.r1.ran[o.bit]))
  {
    BootInv1();
    AfterInv1(Boot(), {}, steps);
    assert o.bit in After(Boot(), steps).r1.snap ==> Exposed(After(Boot(), steps), o.bit);
  }

  /** No bit comes again between its handler and the acknowledge. */
  predicate Quiet(c: Chip, steps: seq<Step>)
    requires PcOk(c.pc)
    decreases |steps|
  {
    steps == [] ||
    (!(steps[0].Occur1? && Passed(c.pc, steps[0].bit)) &&
     (NextPcOk(c, steps[0]); Quiet(Next(c, steps[0]), steps[1..])))
  }

  lemma {:induction false} QuietIsCalm(c: Chip, steps: seq<Step>)
    requires PcOk(c.pc) && Quiet(c, steps)
    ensures Calm(c, {}, steps)
    decreases |steps|
  {
    hide Next, Passed;
    if steps != [] {
      NextPcOk(c, steps[0]);
      QuietIsCalm(Next(c, steps[0]), steps[1..]);
    }
  }

  /** Then nothing is lost. */
  lemma QuietRunLosesNothing(steps: seq<Step>)
    requires Quiet(Boot(), steps)
    ensures AlwaysKept1(Boot(), steps)
  {
    QuietIsCalm(Boot(), steps);
    Status1KeptExactly(steps);
  }

  /** n actions of the scan with no latch set in between. */
  function Scans(c: Chip, n: nat): (c': Chip)
    requires PcOk(c.pc)
    ensures PcOk(c'.pc)
  {
    if n == 0 then c else Next(Scans(c, n - 1), Scan)
  }

  /** A zero crossing that comes after its handler and before the acknowledge is never seen. */
  lemma Status1LossExample()
    ensures var c := Next(Scans(Next(Boot(), Occur1(9)), 12), Occur1(9));
            var o := Occurrence(9, 13);
            o in c.r1.occurred && Kept1(c, o) && !Kept1(Next(c, Scan), o)
  {
    var c := Next(Boot(), Occur1(9));
    var c3 := Scans(c, 3);
    assert Scans(c, 1) == Next(c, Scan) && Scans(c, 2) == Next(Next(c, Scan), Scan);
    assert c3.pc == Handle0(0) && c3.r1 == Register({9}, {9}, {Occurrence(9, 0)}, map[]) && c3.now == 4 && c3.r0.snap == {};
    var c6 := Scans(c, 6);
    assert Scans(c, 4).pc == Handle0(1) && Scans(c, 5).pc == Handle0(2);
    assert c6.pc == Handle0(3) && c6.r1 == c3.r1 && c6.now == 7;
    var c10 := Scans(c, 10);
    assert Scans(c, 7).pc == Handle0(4) && Scans(c, 8).pc == Handle0(5) && Scans(c, 9).pc == Handle0(6);
    assert c10.pc == Handle1(0) && c10.r1 == c3.r1 && c10.now == 11;
    var c12 := Scans(c, 12);
    assert Scans(c, 11).pc == Handle1(1) && Scans(c, 11).r1 == Register({9}, {9}, {Occurrence(9, 0)}, map[9 := 11]);
    assert c12.pc == Ack1 && c12.now == 13 && c12.r1 == Scans(c, 11).r1;
    assert Next(Next(c12, Occur1(9)), Scan).r1.ran == map[9 := 11];
  }

  /* ---- how soon an event is handled ---- */

  /** The scan actions among the steps. */
  function ScanCount(steps: seq<Step>): nat
    decreases |steps|
  {
    if steps == [] then 0 else (if steps[0].Scan? then 1 else 0) + ScanCount(steps[1..])
  }

  /** Actions from the start of a scan to the one the chip is at. */
  function Position(pc: Pc): nat {
    match pc
    case Read0 => 0
    case Read1 => 1
    case Ack0 => 2
    case Handle0(k) => 3 + k
    case Handle1(k) => 10 + k
    case Ack1 => 12
  }

  function IndexIn(bits: seq<int>, bit: int): (i: nat)
    requires bit in bits
    ensures i < |bits| && bits[i] == bit
    decreases |bits|
  {
    if bits[0] == bit then 0 else 1 + IndexIn(bits[1..], bit)
  }

  /** Scan actions until the handler of the bit has run: those left in this scan if it is pending, or else those to the
      next read and from there. */
  function Due0(c: Chip, bit: int): (n: nat)
    requires PcOk(c.pc) && bit in HANDLERS0
    ensures n <= 26
  {
    var at := 4 + IndexIn(HANDLERS0, bit);
    if Pending0(c, bit) && Position(c.pc) < at then at - Position(c.pc) else (13 - Position(c.pc)) % 13 + at
  }

  lemma OneHandler0(i: nat, j: nat)
    requires i < |HANDLERS0| && j < |HANDLERS0| && HANDLERS0[i] == HANDLERS0[j]
    ensures i == j
  {
  }

  lemma PendingPlace0(c: Chip, bit: int)
    requires PcOk(c.pc) && bit in HANDLERS0
    ensures Pending0(c, bit) <==>
            bit in c.r0.snap && 1 <= Position(c.pc) < 4 + IndexIn(HANDLERS0, bit)
  {
    var i := IndexIn(HANDLERS0, bit);
    if c.pc.Handle0? && Pending0(c, bit) {
      var j :| c.pc.k <= j < |HANDLERS0| && HANDLERS0[j] == bit;
      OneHandler0(i, j);
    }
  }

  lemma DueScan0(c: Chip, o: Occurrence)
    requires PcOk(c.pc) && o.bit in HANDLERS0 && o.time < c.now && Kept0(c, o) && !RanAfter(c.r0, o)
    ensures PcOk(Next(c, Scan).pc)
    ensures RanAfter(Next(c, Scan).r0, o) ||
            Due0(Next(c, Scan), o.bit) + 1 <= Due0(c, o.bit)
  {
    hide IndexIn;
    PendingPlace0(c, o.bit);
    PendingPlace0(Next(c, Scan), o.bit);
    hide Pending0;
  }

  lemma DueOccurs0(c: Chip, step: Step, o: Occurrence)
    requires PcOk(c.pc) && o.bit in HANDLERS0 && o.time < c.now && Kept0(c, o) && !RanAfter(c.r0, o)
    requires !step.Scan?
    ensures PcOk(Next(c, step).pc)
    ensures RanAfter(Next(c, step).r0, o) ||
            Due0(Next(c, step), o.bit) <= Due0(c, o.bit)
  {
    hide IndexIn;
    PendingPlace0(c, o.bit);
    PendingPlace0(Next(c, step), o.bit);
    hide Pending0;
  }

  /** Each scan action brings the handler nearer; an event does not put it off. */
  lemma DueStep0(c: Chip, step: Step, o: Occurrence)
    requires PcOk(c.pc) && o.bit in HANDLERS0 && o.time < c.now && Kept0(c, o) && !RanAfter(c.r0, o)
    ensures PcOk(Next(c, step).pc)
    ensures RanAfter(Next(c, step).r0, o) ||
            Due0(Next(c, step), o.bit) + (if step.Scan? then 1 else 0) <= Due0(c, o.bit)
  {
    hide Due0, Next, Kept0;
    if step.Scan? { DueScan0(c, o); } else { DueOccurs0(c, step, o); }
  }

  lemma RanStays0(c: Chip, step: Step, o: Occurrence)
    requires PcOk(c.pc) && o.time < c.now && RanAfter(c.r0, o)
    ensures PcOk(Next(c, step).pc) && RanAfter(Next(c, step).r0, o)
  {
  }

  lemma {:induction false} HandledInTime0(c: Chip, steps: seq<Step>, o: Occurrence)
    requires Inv0(c) && PcOk(c.pc) && o in c.r0.occurred && o.bit in HANDLERS0
    requires RanAfter(c.r0, o) || Due0(c, o.bit) <= ScanCount(steps)
    ensures RanAfter(After(c, steps).r0, o)
    decreases |steps|
  {
    hide Next, Due0, HANDLERS0;
    assert o.time < c.now && Kept0(c, o);
    if steps == [] {
      DuePositive0(c, o.bit);
    } else {
      var step := steps[0];
      Inv0Preserved(c, step);
      Occurred0(c, step, o);
      if RanAfter(c.r0, o) { RanStays0(c, step, o); } else { DueStep0(c, step, o); }
      HandledInTime0(Next(c, step), steps[1..], o);
    }
  }

  lemma DuePositive0(c: Chip, bit: int)
    requires PcOk(c.pc) && bit in HANDLERS0
    ensures Due0(c, bit) > 0
  {
  }

  lemma Occurred0(c: Chip, step: Step, o: Occurrence)
    requires PcOk(c.pc) && o in c.r0.occurred
    ensures o in Next(c, step).r0.occurred && PcOk(Next(c, step).pc)
  {
  }

  lemma {:induction false} AfterJoin(c: Chip, a: seq<Step>, b: seq<Step>)
    requires PcOk(c.pc)
    ensures After(c, a + b) == After(After(c, a), b)
    ensures After(c, a).now == c.now + |a|
    decreases |a|
  {
    if a == [] {
      assert a + b == b;
    } else {
      NextPcOk(c, a[0]);
      assert (a + b)[1..] == a[1..] + b;
      AfterJoin(Next(c, a[0]), a[1..], b);
      hide Next;
    }
  }

  /** Whatever happens before, meanwhile and after: once any of the seven STATUS0 events with a handler has come,
      twenty-six more actions of the scan (two passes) include a run of its handler after it. */
  lemma Status0HandledSoon(a: seq<Step>, bit: int, b: seq<Step>)
    requires bit in {0, 17, 18, 19, 20, 21, 25} && ScanCount(b) >= 26
    ensures var r := After(Boot(), a + [Occur0(bit)] + b).r0; bit in r.ran && r.ran[bit] > |a|
  {
    var c := After(Boot(), a);
    AfterInv0(Boot(), a);
    AfterJoin(Boot(), a, []);
    AfterJoin(Boot(), a, [Occur0(bit)]);
    AfterJoin(Boot(), a + [Occur0(bit)], b);
    Inv0Preserved(c, Occur0(bit));
    AfterOne(c, Occur0(bit));
    AllHandled(bit);
    hide Inv0, HANDLERS0;
    HandledInTime0(Next(c, Occur0(bit)), b, Occurrence(bit, c.now));
  }

  lemma AfterOne(c: Chip, step: Step)
    requires PcOk(c.pc)
    ensures PcOk(Next(c, step).pc) && After(c, [step]) == Next(c, step)
    ensures step.Occur0? ==> Occurrence(step.bit, c.now) in Next(c, step).r0.occurred
    ensures step.Occur1? ==> Occurrence(step.bit, c.now) in Next(c, step).r1.occurred
  {
    NextPcOk(c, step);
    assert [step][1..] == [];
  }

  lemma AllHandled(bit: int)
    ensures bit in {0, 17, 18, 19, 20, 21, 25} ==> bit in HANDLERS0
    ensures bit in {6, 9} ==> bit in HANDLERS1
  {
    assert HANDLERS0[0] == 0 && HANDLERS0[1] == 17 && HANDLERS0[2] == 19 && HANDLERS0[3] == 20;
    assert HANDLERS0[4] == 18 && HANDLERS0[5] == 21 && HANDLERS0[6] == 25;
    assert HANDLERS1[0] == 9 && HANDLERS1[1] == 6;
  }

  /** The same for a STATUS1 bit: to the next read of STATUS1 unless it is pending. */
  function Due1(c: Chip, bit: int): (n: nat)
    requires PcOk(c.pc) && bit in HANDLERS1
    ensures n <= 26
  {
    var at := 11 + IndexIn(HANDLERS1, bit);
    if Pending1(c, bit) && Position(c.pc) < at then at - Position(c.pc) else (14 - Position(c.pc)) % 13 + at - 1
  }

  lemma PendingPlace1(c: Chip, bit: int)
    requires PcOk(c.pc) && bit in HANDLERS1
    ensures Pending1(c, bit) <==> bit in c.r1.snap && 2 <= Position(c.pc) < 11 + IndexIn(HANDLERS1, bit)
  {
    var i := IndexIn(HANDLERS1, bit);
    assert HANDLERS1[0] != HANDLERS1[1];
    if c.pc.Handle1? && Pending1(c, bit) {
      var j :| c.pc.k <= j < |HANDLERS1| && HANDLERS1[j] == bit;
      assert i == j;
    }
  }

  lemma DueScan1(c: Chip, o: Occurrence)
    requires PcOk(c.pc) && o.bit in HANDLERS1 && o.time < c.now && Kept1(c, o) && !RanAfter(c.r1, o)
    requires Kept1(Next(c, Scan), o)
    ensures PcOk(Next(c, Scan).pc)
    ensures RanAfter(Next(c, Scan).r1, o) ||
            Due1(Next(c, Scan), o.bit) + 1 <= Due1(c, o.bit)
  {
    hide IndexIn;
    PendingPlace1(c, o.bit);
    PendingPlace1(Next(c, Scan), o.bit);
    hide Pending1;
  }

  lemma DueOccurs1(c: Chip, step: Step, o: Occurrence)
    requires PcOk(c.pc) && o.bit in HANDLERS1 && o.time < c.now && Kept1(c, o) && !RanAfter(c.r1, o)
    requires Kept1(Next(c, step), o)
    requires !step.Scan?
    ensures PcOk(Next(c, step).pc)
    ensures RanAfter(Next(c, step).r1, o) ||
            Due1(Next(c, step), o.bit) <= Due1(c, o.bit)
  {
    hide IndexIn;
    PendingPlace1(c, o.bit);
    PendingPlace1(Next(c, step), o.bit);
    hide Pending1;
  }

  lemma DueStep1(c: Chip, step: Step, o: Occurrence)
    requires PcOk(c.pc) && o.bit in HANDLERS1 && o.time < c.now && Kept1(c, o) && !RanAfter(c.r1, o)
    requires Kept1(Next(c, step), o)
    ensures PcOk(Next(c, step).pc)
    ensures RanAfter(Next(c, step).r1, o) ||
            Due1(Next(c, step), o.bit) + (if step.Scan? then 1 else 0) <= Due1(c, o.bit)
  {
    hide Due1, Next, Kept1;
    if step.Scan? { DueScan1(c, o); } else { DueOccurs1(c, step, o); }
  }

  lemma DuePositive1(c: Chip, bit: int)
    requires PcOk(c.pc) && bit in HANDLERS1
    ensures Due1(c, bit) > 0
  {
  }

  lemma RanStays1(c: Chip, step: Step, o: Occurrence)
    requires PcOk(c.pc) && o.time < c.now && RanAfter(c.r1, o)
    ensures PcOk(Next(c, step).pc) && RanAfter(Next(c, step).r1, o)
  {
  }

  /** A quiet step keeps all and leaves no bit late. */
  lemma QuietStep(c: Chip, step: Step)
    requires Inv1(c, {}) && AllKept1(c) && !(step.Occur1? && Passed(c.pc, step.bit))
    ensures Inv1(Next(c, step), {}) && AllKept1(Next(c, step))
  {
    Inv1Preserved(c, step, {});
    Kept1Exactly(c, step, {});
    hide Inv1, AllKept1, Next;
  }

  lemma {:induction false} HandledInTime1(c: Chip, steps: seq<Step>, o: Occurrence)
    requires Inv1(c, {}) && AllKept1(c) && Quiet(c, steps) && o in c.r1.occurred && o.bit in HANDLERS1
    requires RanAfter(c.r1, o) || Due1(c, o.bit) <= ScanCount(steps)
    ensures RanAfter(After(c, steps).r1, o)
    decreases |steps|
  {
    hide Next, Due1, HANDLERS1, Passed;
    assert o.time < c.now && Kept1(c, o);
    if steps == [] {
      DuePositive1(c, o.bit);
    } else {
      var step := steps[0];
      QuietStep(c, step);
      Occurred1(c, step, o);
      if RanAfter(c.r1, o) { RanStays1(c, step, o); } else { DueStep1(c, step, o); }
      HandledInTime1(Next(c, step), steps[1..], o);
    }
  }

  lemma Occurred1(c: Chip, step: Step, o: Occurrence)
    requires PcOk(c.pc) && o in c.r1.occurred
    ensures o in Next(c, step).r1.occurred && PcOk(Next(c, step).pc)
  {
  }

  lemma {:induction false} QuietPrefix(c: Chip, a: seq<Step>, b: seq<Step>)
    requires Inv1(c, {}) && AllKept1(c) && PcOk(c.pc) && Quiet(c, a + b)
    ensures Inv1(After(c, a), {}) && AllKept1(After(c, a)) && Quiet(After(c, a), b)
    decreases |a|
  {
    hide Inv1, AllKept1, Next, Passed;
    if a == [] {
      assert a + b == b;
    } else {
      assert (a + b)[1..] == a[1..] + b && (a + b)[0] == a[0];
      NextPcOk(c, a[0]);
      QuietStep(c, a[0]);
      QuietPrefix(Next(c, a[0]), a[1..], b);
    }
  }

  /** And in a quiet run the same holds of both STATUS1 events. */
  lemma Status1HandledSoon(a: seq<Step>, bit: int, b: seq<Step>)
    requires bit in {6, 9} && ScanCount(b) >= 26 && Quiet(Boot(), a + [Occur1(bit)] + b)
    ensures var r := After(Boot(), a + [Occur1(bit)] + b).r1; bit in r.ran && r.ran[bit] > |a|
  {
    var c := After(Boot(), a);
    var one := [Occur1(bit)];
    BootInv1();
    assert a + one + b == a + (one + b);
    QuietPrefix(Boot(), a, one + b);
    QuietPrefix(c, one, b);
    AfterJoin(Boot(), a, one);
    AfterJoin(Boot(), a + one, b);
    AfterOne(c, Occur1(bit));
    AllHandled(bit);
    hide Inv1, AllKept1, HANDLERS1, Quiet;
    HandledInTime1(Next(c, Occur1(bit)), b, Occurrence(bit, c.now));
  }
}
