/** The one-slot handoff of ten-minute records from the metering task to the file task: src/Quality.c.
    Every step below is one that the two tasks can interleave at, and each write to a file is a step of its own. */
module PqHandoff {
  import opened QualWeekFile

  /** One record of the event queue. */
  datatype Event = Event(startTs: int, msec: int, duration: int, kind: int, mask: int)

  const N_EVENT_Q := 1024
  const EVENT_SIZE := 24

  /** The weekly header: the statistics are summed up in one value, the event count is kept apart. */
  datatype Week = Week(startTs: int, endTs: int, stats: int, evtCount: nat)

  /** A week file; it is torn between being truncated and being given its header. */
  datatype QwFile = Torn | QwFile(header: Week, tail: seq<Event>)

  datatype Job = Job(rollover: bool, ev: seq<Event>, snap: Week, qwfn: string, newQwfn: string, newQw: Week)

  /** Where the metering task stands inside updateQualData. */
  datatype MeterPc = Sampling | Filled | Rolling(queued: bool)

  /** Where the file task stands inside pqIoTick. */
  datatype FilePc = Waiting | Started | TailRead | Truncated | Headed | Rewritten | Updated | NewTruncated | Created

  datatype Sys = Sys(
    queue: seq<Event>, week: Week, qwfn: string, mpc: MeterPc,
    pending: bool, job: Job,
    fpc: FilePc, tail: seq<Event>, files: map<string, QwFile>,
    committed: Job,           // the job as it was when it was committed
    accepted: seq<Event>,     // every event the queue ever took
    handed: seq<Event>)       // every event whose file write is over

  /** ShortRead and Fault are what failing I/O can do: a read that ends early is taken for the end of the file; a
      failing write ends its file's update and may leave anything there. */
  datatype Step =
    | Push(e: Event)
    | Record(now: int, stats: int)
    | Roll(now: int, endTs: int, newQwfn: string)
    | Commit
    | Start | ReadTail | Truncate | WriteHeader | WriteTail | Append | CreateOpen | CreateWrite | Finish
    | ShortRead(n: nat)
    | Fault(wrote: bool, left: QwFile)

  function TailIn(files: map<string, QwFile>, fn: string): seq<Event> {
    if fn in files && files[fn].QwFile? then files[fn].tail else []
  }

  /** The tail fits the file task's buffer. */
  predicate Fits(tail: seq<Event>) { |tail| * EVENT_SIZE <= QW_TAIL_MAX }

  /** The week file is being updated. */
  predicate Updating(pc: FilePc) {
    pc.Started? || pc.TailRead? || pc.Truncated? || pc.Headed? || pc.Rewritten?
  }

  predicate Enabled(s: Sys, step: Step) {
    match step
    case Push(_) => s.mpc.Sampling?
    case Record(_, _) => s.mpc.Sampling?
    case Roll(_, _, _) => s.mpc.Rolling?
    case Commit => s.mpc.Filled?
    case Start => s.fpc.Waiting? && s.pending
    case ReadTail => s.fpc.Started?
    case Truncate => s.fpc.TailRead?
    case WriteHeader => s.fpc.Truncated?
    case WriteTail => s.fpc.Headed?
    case Append => s.fpc.Rewritten?
    case CreateOpen => s.fpc.Updated? && s.job.rollover
    case CreateWrite => s.fpc.NewTruncated?
    case Finish => s.fpc.Created? || (s.fpc.Updated? && !s.job.rollover)
    case ShortRead(n) => s.fpc.Started? && n <= |TailIn(s.files, s.job.qwfn)| && Fits(TailIn(s.files, s.job.qwfn)[..n])
    case Fault(wrote, _) =>
      (Updating(s.fpc) && !(wrote && s.fpc.Started?)) || (s.fpc.Updated? && s.job.rollover) || s.fpc.NewTruncated?
  }

  /** updateQualWeek as far as the handoff sees it. */
  function Accumulate(w: Week, now: int, stats: int): Week {
    w.(startTs := if w.startTs == 0 then now else w.startTs, stats := stats)
  }

  /** pqQueueJob: the queue moves into the free slot and is counted. */
  function TakeQueue(s: Sys): Sys {
    if s.pending then s
    else
      var w := s.week.(evtCount := s.week.evtCount + |s.queue|);
      s.(week := w, queue := [], job := s.job.(rollover := false, ev := s.queue, snap := w, qwfn := s.qwfn))
  }

  function ApplyRecord(s: Sys, now: int, stats: int): Sys {
    var within := s.week.startTs <= now < s.week.endTs;
    var s' := TakeQueue(s.(week := Accumulate(s.week, now, stats)));
    s'.(mpc := if !within then Rolling(!s.pending) else if s.pending then Sampling else Filled)
  }

  function Apply(s: Sys, step: Step): Sys
    requires Enabled(s, step)
  {
    match step
    case Push(e) =>
      if |s.queue| < N_EVENT_Q then s.(queue := s.queue + [e], accepted := s.accepted + [e]) else s
    case Record(now, stats) => ApplyRecord(s, now, stats)
    case Roll(now, endTs, fn) =>
      var w := Week(now, endTs, 0, 0);
      if s.mpc.queued then
        s.(qwfn := fn, week := w, job := s.job.(rollover := true, newQwfn := fn, newQw := w), mpc := Filled)
      else s.(qwfn := fn, week := w, mpc := Sampling)
    case Commit => s.(pending := true, committed := s.job, mpc := Sampling)
    case Start => s.(fpc := Started)
    case ReadTail =>
      var t := TailIn(s.files, s.job.qwfn);
      if Fits(t) then s.(tail := t, fpc := TailRead)
      else s.(handed := s.handed + s.job.ev, fpc := Updated)
    case Truncate => s.(files := s.files[s.job.qwfn := Torn], fpc := Truncated)
    case WriteHeader => s.(files := s.files[s.job.qwfn := QwFile(s.job.snap, [])], fpc := Headed)
    case WriteTail => s.(files := s.files[s.job.qwfn := QwFile(s.job.snap, s.tail)], fpc := Rewritten)
    case Append =>
      s.(files := s.files[s.job.qwfn := QwFile(s.job.snap, s.tail + s.job.ev)],
         handed := s.handed + s.job.ev, fpc := Updated)
    case CreateOpen => s.(files := s.files[s.job.newQwfn := Torn], fpc := NewTruncated)
    case CreateWrite => s.(files := s.files[s.job.newQwfn := QwFile(s.job.newQw, [])], fpc := Created)
    case Finish => s.(pending := false, fpc := Waiting)
    case ShortRead(n) => s.(tail := TailIn(s.files, s.job.qwfn)[..n], fpc := TailRead)
    case Fault(wrote, left) =>
      if Updating(s.fpc) then
        s.(files := if wrote then s.files[s.job.qwfn := left] else s.files,
           handed := s.handed + s.job.ev, fpc := Updated)
      else s.(files := if wrote then s.files[s.job.newQwfn := left] else s.files, fpc := Created)
  }

  /* ---- what every interleaving keeps ---- */

  /** The job holds events that no file write has finished with. */
  predicate Live(s: Sys) {
    s.mpc.Filled? || s.mpc == Rolling(true) || (s.pending && (s.fpc.Waiting? || Updating(s.fpc)))
  }

  function InJob(s: Sys): seq<Event> { if Live(s) then s.job.ev else [] }

  /** The file under work is what the last write made of it. */
  predicate FileStands(s: Sys) {
    match s.fpc
    case Truncated => s.job.qwfn in s.files && s.files[s.job.qwfn] == Torn
    case Headed => s.job.qwfn in s.files && s.files[s.job.qwfn] == QwFile(s.job.snap, [])
    case Rewritten => s.job.qwfn in s.files && s.files[s.job.qwfn] == QwFile(s.job.snap, s.tail)
    case NewTruncated => s.job.rollover && s.job.newQwfn in s.files && s.files[s.job.newQwfn] == Torn
    case _ => true
  }

  predicate Inv(s: Sys) {
    && (s.mpc.Filled? || s.mpc == Rolling(true) ==> !s.pending && s.fpc.Waiting?)
    && (s.pending ==> s.job == s.committed)
    && (!s.fpc.Waiting? ==> s.pending)
    && s.accepted == s.handed + InJob(s) + s.queue
    && FileStands(s)
  }

  lemma SequenceShift(a: seq<Event>, b: seq<Event>)
    ensures a + [] + b == a + b && a + b + [] == a + b
  {
  }

  /** Under every interleaving, and whatever fails: no event is in two places or in none. */
  lemma InvPreserved(s: Sys, step: Step)
    requires Inv(s) && Enabled(s, step)
    ensures Inv(Apply(s, step))
  {
    hide Fits, TailIn;
    var s' := Apply(s, step);
    if step.Push? {
      assert s.handed + InJob(s) + (s.queue + [step.e]) == s.handed + InJob(s) + s.queue + [step.e];
    } else {
      SequenceShift(s.handed, s.queue);
      SequenceShift(s.handed, s.job.ev);
      SequenceShift(s.handed + s.job.ev, s.queue);
    }
  }

  /** From the commit to the end of its file work the file task works on one unchanging job. */
  lemma JobStable(s: Sys, step: Step)
    requires Inv(s) && Enabled(s, step) && s.pending
    ensures Apply(s, step).job == s.job == s.committed
    ensures Apply(s, step).committed == s.committed
  {
  }

  /* ---- the same system with every record saved at once ---- */

  /** The job still has its new week file to create. */
  predicate WillCreate(s: Sys) {
    s.job.rollover && (s.mpc.Filled? || (s.pending && !s.fpc.Created?))
  }

  /** The records the update will keep: those read, or else those still to be read. */
  function OldTail(s: Sys): seq<Event> {
    if s.fpc.TailRead? || s.fpc.Truncated? || s.fpc.Headed? || s.fpc.Rewritten? then s.tail
    else TailIn(s.files, s.job.qwfn)
  }

  /** The files as the live job will leave them. */
  function Settled(s: Sys): map<string, QwFile> {
    var saved := if Live(s) then s.files[s.job.qwfn := QwFile(s.job.snap, OldTail(s) + s.job.ev)] else s.files;
    if WillCreate(s) then saved[s.job.newQwfn := QwFile(s.job.newQw, [])] else saved
  }

  /** Recording writes header, old tail and queue in one action; rolling over creates the new file in one action;
      the file task does nothing at all. */
  function AtomicFiles(s: Sys, step: Step): map<string, QwFile>
    requires Enabled(s, step)
  {
    var files := Settled(s);
    if step.Record? && !s.pending then
      files[s.qwfn := QwFile(Apply(s, step).week, TailIn(files, s.qwfn) + s.queue)]
    else if step.Roll? && s.mpc.queued then
      files[step.newQwfn := QwFile(Apply(s, step).week, [])]
    else files
  }

  predicate Failing(step: Step) { step.Fault? || step.ShortRead? }

  predicate Unread(s: Sys, step: Step) {
    step.ReadTail? && !Fits(TailIn(s.files, s.job.qwfn))
  }

  /** While no operation fails and every tail fits, the deferred file task cannot be told from an atomic one. */
  lemma DeferredIsAtomic(s: Sys, step: Step)
    requires Inv(s) && Enabled(s, step) && !Failing(step) && !Unread(s, step)
    ensures Settled(Apply(s, step)) == AtomicFiles(s, step)
  {
    hide Settled, AtomicFiles;
    if MeterStep(step) { MeterSettles(s, step); } else { FileTaskSettles(s, step); }
  }

  predicate MeterStep(step: Step) { step.Push? || step.Record? || step.Roll? || step.Commit? }

  lemma MeterSettles(s: Sys, step: Step)
    requires Inv(s) && Enabled(s, step) && MeterStep(step)
    ensures Settled(Apply(s, step)) == AtomicFiles(s, step)
  {
    hide Fits, TailIn;
  }

  lemma FileTaskSettles(s: Sys, step: Step)
    requires Inv(s) && Enabled(s, step) && !MeterStep(step) && !Failing(step) && !Unread(s, step)
    ensures Settled(Apply(s, step)) == AtomicFiles(s, step)
  {
    hide Fits, TailIn;
  }

  /** When no job is live the settled files are the files. */
  lemma SettledIsReal(s: Sys)
    requires !Live(s) && !WillCreate(s)
    ensures Settled(s) == s.files
  {
  }

  /* ---- the event count in RAM against the records in the file ---- */

  /** The week's event count is the number of records its file has or is about to have. */
  predicate Agree(s: Sys) {
    s.week.evtCount == |TailIn(Settled(s), s.qwfn)|
  }

  /** The job's file is the running week's, and not to be created anew. */
  predicate OwnFile(s: Sys) { s.job.qwfn == s.qwfn && !(s.job.rollover && s.job.newQwfn == s.qwfn) }

  /** The ways the count is left wrong without a failing write: an overrun at a week change onto a file that already
      holds records, records given up because the tail no longer fits the buffer, and a tail read short. */
  predicate Misses(s: Sys, step: Step)
    requires Enabled(s, step)
  {
    || (step.Roll? && !s.mpc.queued && TailIn(Settled(s), step.newQwfn) != [])
    || (Unread(s, step) && s.job.ev != [] && OwnFile(s))
    || (step.ShortRead? && step.n < |TailIn(s.files, s.job.qwfn)| && OwnFile(s))
  }

  lemma UnreadAgrees(s: Sys, step: Step)
    requires Inv(s) && Enabled(s, step) && Unread(s, step) && Agree(s)
    ensures Agree(Apply(s, step)) <==> !Misses(s, step)
  {
    var s' := Apply(s, step);
    var t := TailIn(s.files, s.job.qwfn);
    assert Live(s) && !Live(s') && WillCreate(s) == WillCreate(s');
    assert |t + s.job.ev| == |t| <==> s.job.ev == [];
  }

  lemma ShortReadAgrees(s: Sys, step: Step)
    requires Inv(s) && Enabled(s, step) && step.ShortRead? && Agree(s)
    ensures Agree(Apply(s, step)) <==> !Misses(s, step)
  {
    hide Fits;
    var s' := Apply(s, step);
    assert Live(s) && Live(s') && WillCreate(s) == WillCreate(s');
  }

  /** Unless a write fails, a step keeps the count right exactly when it does not miss. */
  lemma AgreeExactly(s: Sys, step: Step)
    requires Inv(s) && Enabled(s, step) && !step.Fault? && Agree(s)
    ensures Agree(Apply(s, step)) <==> !Misses(s, step)
  {
    if Unread(s, step) {
      UnreadAgrees(s, step);
    } else if step.ShortRead? {
      ShortReadAgrees(s, step);
    } else {
      DeferredIsAtomic(s, step);
      hide Settled;
    }
  }

  /** The first miss: the overrun leaves a new week at zero beside the records its file already has. */
  lemma StaleRollover(s: Sys, now: int, endTs: int, fn: string)
    requires Inv(s) && s.mpc == Rolling(false) && TailIn(Settled(s), fn) != []
    ensures !Agree(Apply(s, Roll(now, endTs, fn)))
  {
    DeferredIsAtomic(s, Roll(now, endTs, fn));
  }

  predicate Consistent(f: QwFile) { f.QwFile? && f.header.evtCount == |f.tail| }

  /** The file under work may be torn or miscount. */
  predicate InWork(s: Sys, fn: string) {
    || ((s.fpc.Truncated? || s.fpc.Headed? || s.fpc.Rewritten?) && fn == s.job.qwfn)
    || (s.fpc.NewTruncated? && fn == s.job.newQwfn)
  }

  /** Every settled file counts its records, and every real one too unless it is under work. */
  predicate Sound(s: Sys) {
    && (forall fn :: fn in Settled(s) ==> Consistent(Settled(s)[fn]))
    && (forall fn :: fn in s.files && !InWork(s, fn) ==> Consistent(s.files[fn]))
    && (Live(s) ==> s.job.snap.evtCount == |OldTail(s)| + |s.job.ev|)
    && (s.job.rollover ==> s.job.newQw.evtCount == 0)
  }

  predicate Good(s: Sys) { Inv(s) && Agree(s) && Sound(s) }

  lemma SoundSettled(s: Sys, step: Step)
    requires Good(s) && Enabled(s, step) && !Failing(step) && !Unread(s, step)
    ensures var s' := Apply(s, step); forall fn :: fn in Settled(s') ==> Consistent(Settled(s')[fn])
  {
    DeferredIsAtomic(s, step);
    hide Settled, InJob;
    var s' := Apply(s, step);
  }

  lemma SoundFiles(s: Sys, step: Step)
    requires Good(s) && Enabled(s, step) && !Failing(step) && !Unread(s, step)
    ensures var s' := Apply(s, step); forall fn :: fn in s'.files && !InWork(s', fn) ==> Consistent(s'.files[fn])
  {
    hide Fits, Settled, Agree, InJob;
  }

  lemma SoundJob(s: Sys, step: Step)
    requires Good(s) && Enabled(s, step) && !Failing(step) && !Unread(s, step)
    ensures var s' := Apply(s, step);
            && (Live(s') ==> s'.job.snap.evtCount == |OldTail(s')| + |s'.job.ev|)
            && (s'.job.rollover ==> s'.job.newQw.evtCount == 0)
  {
    hide Fits;
  }

  lemma SoundUnread(s: Sys, step: Step)
    requires Good(s) && Enabled(s, step) && Unread(s, step)
    ensures Sound(Apply(s, step))
  {
    var s' := Apply(s, step);
    assert !Live(s') && WillCreate(s) == WillCreate(s') && s'.files == s.files;
  }

  /** Count and files stay right through every step that neither fails nor misses. */
  lemma GoodPreserved(s: Sys, step: Step)
    requires Good(s) && Enabled(s, step) && !Failing(step) && !Misses(s, step)
    ensures Good(Apply(s, step))
  {
    InvPreserved(s, step);
    AgreeExactly(s, step);
    if Unread(s, step) {
      SoundUnread(s, step);
    } else {
      hide Settled, Apply, Agree, Inv;
      SoundSettled(s, step);
      SoundFiles(s, step);
      SoundJob(s, step);
    }
  }

  /** What a power loss would find: some file torn or with a header that miscounts, exactly while a file is
      truncated, while its header stands without the records still to be written, or while the old records stand
      without the new ones. */
  lemma PowerLoss(s: Sys)
    requires Good(s)
    ensures (forall fn :: fn in s.files ==> Consistent(s.files[fn])) <==>
            match s.fpc
            case Truncated => false
            case Headed => s.tail == [] && s.job.ev == []
            case Rewritten => s.job.ev == []
            case NewTruncated => false
            case _ => true
  {
    if s.fpc.Truncated? || s.fpc.Headed? || s.fpc.Rewritten? { assert s.job.qwfn in s.files; }
    if s.fpc.NewTruncated? { assert s.job.newQwfn in s.files; }
  }

  /** The tail a new record meets is too long for the buffer exactly when the week already counts more than fit. */
  lemma UnreadForeseen(s: Sys, now: int, stats: int)
    requires Good(s) && s.mpc.Sampling? && !s.pending
    ensures var s' := Apply(s, Record(now, stats));
            !Fits(TailIn(s'.files, s'.job.qwfn)) <==> s.week.evtCount * 24 > 4096
  {
    SettledIsReal(s);
  }

  /** And it still is when the file task comes to read it. */
  lemma UnreadExactly(s: Sys)
    requires Good(s) && s.fpc.Started?
    ensures Unread(s, ReadTail) <==> (s.job.snap.evtCount - |s.job.ev|) * 24 > 4096
  {
  }

  /* ---- whole runs ---- */

  predicate Runs(s: Sys, steps: seq<Step>)
    decreases |steps|
  {
    steps == [] || (Enabled(s, steps[0]) && Runs(Apply(s, steps[0]), steps[1..]))
  }

  function After(s: Sys, steps: seq<Step>): Sys
    requires Runs(s, steps)
    decreases |steps|
  {
    if steps == [] then s else After(Apply(s, steps[0]), steps[1..])
  }

  predicate FaultFree(s: Sys, steps: seq<Step>)
    requires Runs(s, steps)
    decreases |steps|
  {
    steps == [] ||
    (!Failing(steps[0]) && !Misses(s, steps[0]) && FaultFree(Apply(s, steps[0]), steps[1..]))
  }

  /** Booted with the week's file read back or freshly created, nothing queued and the slot empty. */
  predicate Boot(s: Sys) {
    && s.queue == [] && s.accepted == [] && s.handed == [] && s.mpc.Sampling? && !s.pending && s.fpc.Waiting?
    && !s.job.rollover
    && (forall fn :: fn in s.files ==> Consistent(s.files[fn]))
    && s.qwfn in s.files && s.week == s.files[s.qwfn].header
  }

  lemma {:induction false} EventsConserved(s: Sys, steps: seq<Step>)
    requires Inv(s) && Runs(s, steps)
    ensures Inv(After(s, steps))
    decreases |steps|
  {
    hide Inv, Apply, Enabled;
    if steps != [] {
      InvPreserved(s, steps[0]);
      EventsConserved(Apply(s, steps[0]), steps[1..]);
    }
  }

  lemma {:induction false} CountsAgreeFrom(s: Sys, steps: seq<Step>)
    requires Good(s) && Runs(s, steps) && FaultFree(s, steps)
    ensures Good(After(s, steps))
    decreases |steps|
  {
    hide Good, Apply, Enabled, Misses;
    if steps != [] {
      GoodPreserved(s, steps[0]);
      CountsAgreeFrom(Apply(s, steps[0]), steps[1..]);
    }
  }

  /** From boot on: the events accepted are, in order, those written, those in the job and those queued;
      in fault-free runs that miss nothing the week's count is its file's records plus the job's. */
  lemma RunFromBoot(s: Sys, steps: seq<Step>)
    requires Boot(s) && Runs(s, steps)
    ensures var e := After(s, steps); e.accepted == e.handed + InJob(e) + e.queue
    ensures FaultFree(s, steps) ==> Agree(After(s, steps))
    ensures var e := After(s, steps);
            FaultFree(s, steps) && !WillCreate(e) ==>
              e.week.evtCount == if Live(e) && e.job.qwfn == e.qwfn then |OldTail(e)| + |e.job.ev| else |TailIn(e.files, e.qwfn)|
  {
    SettledIsReal(s);
    EventsConserved(s, steps);
    if FaultFree(s, steps) {
      CountsAgreeFrom(s, steps);
    }
  }

  /* ---- joining runs ---- */

  lemma RunNone(s: Sys)
    ensures Runs(s, []) && After(s, []) == s
  {
  }

  lemma RunOne(s: Sys, a: Step, rest: seq<Step>)
    requires Enabled(s, a)
    ensures Runs(s, [a] + rest) == Runs(Apply(s, a), rest)
    ensures Runs(s, [a] + rest) ==> After(s, [a] + rest) == After(Apply(s, a), rest)
  {
    assert ([a] + rest)[1..] == rest;
  }

  lemma {:induction false} RunJoin(s: Sys, a: seq<Step>, b: seq<Step>)
    requires Runs(s, a) && Runs(After(s, a), b)
    ensures Runs(s, a + b) && After(s, a + b) == After(After(s, a), b)
    decreases |a|
  {
    hide Apply, Enabled;
    if a == [] {
      assert a + b == b;
    } else {
      assert (a + b)[1..] == a[1..] + b;
      RunJoin(Apply(s, a[0]), a[1..], b);
    }
  }
}
