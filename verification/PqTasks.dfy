/** pqQueueJob, pqCommitJob and pqIoTick of src/Quality.c on their own fields: each is a run of handoff steps. */
module PqTasks {
  import opened QualWeekFile
  import opened PqHandoff

  /** The steps of one ten-minute boundary in the metering task, uninterrupted. */
  function MeterSteps(s: Sys, now: int, stats: int, endTs: int, fn: string): seq<Step> {
    var record := Record(now, stats);
    if s.week.startTs <= now < s.week.endTs then
      (if s.pending then [record] else [record, Commit])
    else
      (if s.pending then [record, Roll(now, endTs, fn)] else [record, Roll(now, endTs, fn), Commit])
  }

  /** The steps of one call in the file task, uninterrupted. */
  function FileSteps(s: Sys): seq<Step> {
    if !s.pending then []
    else UpdateSteps(s) + CreateSteps(s.job.rollover)
  }

  function UpdateSteps(s: Sys): seq<Step> {
    if Fits(TailIn(s.files, s.job.qwfn)) then [Start, ReadTail] + ([Truncate, WriteHeader] + [WriteTail, Append])
    else [Start, ReadTail]
  }

  function CreateSteps(rollover: bool): seq<Step> {
    if rollover then [CreateOpen, CreateWrite] + [Finish] else [Finish]
  }

  /** The week once a record of the statistics given is in: it starts now if it had no start, and counts the events
      taken. */
  function Recorded(w: Week, now: int, stats: int, taken: nat): Week {
    Week(if w.startTs == 0 then now else w.startTs, w.endTs, stats, w.evtCount + taken)
  }

  class PqReport {
    // metering side
    var queue: seq<Event>
    var week: Week
    var qwfn: string
    // the mailbox
    var pending: bool
    var job: Job
    // file side
    var tail: seq<Event>
    var files: map<string, QwFile>
    // history
    ghost var committed: Job
    ghost var accepted: seq<Event>
    ghost var handed: seq<Event>

    /** The state between calls, when neither task is inside one. */
    ghost function State(): Sys
      reads this
    {
      Sys(queue, week, qwfn, Sampling, pending, job, Waiting, tail, files, committed, accepted, handed)
    }

    method PushEvent(e: Event)
      modifies this
      ensures State() == Apply(old(State()), Push(e))
      ensures queue == if |old(queue)| < 1024 then old(queue) + [e] else old(queue)
    {
      if |queue| < N_EVENT_Q {
        queue := queue + [e];
        accepted := accepted + [e];
      }
    }

    /** -1 when the previous job is still pending; the queue then stays as it is. */
    method PqQueueJob() returns (res: int)
      modifies this
      ensures res == if old(pending) then -1 else 0
      ensures State() == TakeQueue(old(State()))
    {
      if pending { return -1; }
      var evCount := |queue|;
      job := job.(ev := queue[..evCount]);
      queue := [];
      week := week.(evtCount := week.evtCount + evCount);
      job := job.(snap := week, rollover := false, qwfn := qwfn);
      return 0;
    }

    method PqCommitJob()
      modifies this
      ensures State() == old(State()).(pending := true, committed := old(job))
    {
      committed := job;
      pending := true;
    }

    /** The report part of one ten-minute boundary. */
    method TenMinutes(now: int, stats: int, endTs: int, fn: string)
      modifies this
      ensures Runs(old(State()), MeterSteps(old(State()), now, stats, endTs, fn))
      ensures State() == After(old(State()), MeterSteps(old(State()), now, stats, endTs, fn))
      ensures if old(week.startTs) <= now < old(week.endTs) then
                && week == Recorded(old(week), now, stats, if old(pending) then 0 else |old(queue)|) && qwfn == old(qwfn)
                && (!old(pending) ==> job == old(job).(ev := old(queue), snap := week, qwfn := qwfn, rollover := false))
              else
                && week == Week(now, endTs, 0, 0) && qwfn == fn
                && (!old(pending) ==>
                      job == Job(true, old(queue), Recorded(old(week), now, stats, |old(queue)|), old(qwfn), fn, week))
      ensures pending && queue == (if old(pending) then old(queue) else []) && (old(pending) ==> job == old(job))
    {
      if week.startTs <= now < week.endTs {
        RecordWithin(now, stats, endTs, fn);
      } else {
        RecordRolling(now, stats, endTs, fn);
      }
    }

    method RecordWithin(now: int, stats: int, ghost endTs: int, ghost fn: string)
      requires week.startTs <= now < week.endTs
      modifies this
      ensures Runs(old(State()), MeterSteps(old(State()), now, stats, endTs, fn))
      ensures State() == After(old(State()), MeterSteps(old(State()), now, stats, endTs, fn))
      ensures week == Recorded(old(week), now, stats, if old(pending) then 0 else |old(queue)|) && qwfn == old(qwfn)
      ensures pending && (!old(pending) ==> queue == [])
      ensures !old(pending) ==> job == old(job).(ev := old(queue), snap := week, qwfn := qwfn, rollover := false)
      ensures old(pending) ==> queue == old(queue) && job == old(job)
    {
      hide Runs, After, MeterSteps;
      MeterWithin(State(), now, stats, endTs, fn);
      week := Accumulate(week, now, stats);
      var res := PqQueueJob();
      if res == 0 { PqCommitJob(); }
    }

    method RecordRolling(now: int, stats: int, endTs: int, fn: string)
      requires !(week.startTs <= now < week.endTs)
      modifies this
      ensures Runs(old(State()), MeterSteps(old(State()), now, stats, endTs, fn))
      ensures State() == After(old(State()), MeterSteps(old(State()), now, stats, endTs, fn))
      ensures week == Week(now, endTs, 0, 0) && qwfn == fn
      ensures pending && (!old(pending) ==> queue == [])
      ensures !old(pending) ==>
                job == Job(true, old(queue), Recorded(old(week), now, stats, |old(queue)|), old(qwfn), fn, week)
      ensures old(pending) ==> queue == old(queue) && job == old(job)
    {
      hide Runs, After, MeterSteps;
      MeterRolling(State(), now, stats, endTs, fn);
      week := Accumulate(week, now, stats);
      var res := PqQueueJob();
      qwfn := fn;
      week := Week(now, endTs, 0, 0);
      if res == 0 {
        job := job.(rollover := true, newQwfn := qwfn, newQw := week);
        PqCommitJob();
      }
    }

    method PqIoTick()
      modifies this
      ensures Runs(old(State()), FileSteps(old(State())))
      ensures State() == After(old(State()), FileSteps(old(State())))
    {
      ghost var s := State();
      if pending {
        UpdateQualWeekData();
        if job.rollover { CreateQualWeekData(); }
        pending := false;
      }
      FileTurn(s);
    }

    method UpdateQualWeekData()
      modifies `tail, `files, `handed
      ensures var t := TailIn(old(files), job.qwfn);
              && tail == (if Fits(t) then t else old(tail))
              && files == (if Fits(t) then old(files)[job.qwfn := QwFile(job.snap, t + job.ev)] else old(files))
      ensures handed == old(handed) + job.ev
    {
      var t := TailIn(files, job.qwfn);
      handed := handed + job.ev;
      if !Fits(t) { return; }
      tail := t;
      files := files[job.qwfn := Torn];
      files := files[job.qwfn := QwFile(job.snap, [])];
      if |tail| > 0 { files := files[job.qwfn := QwFile(job.snap, tail)]; }
      if |job.ev| > 0 {
        files := files[job.qwfn := QwFile(job.snap, tail + job.ev)];
      } else {
        assert tail + job.ev == tail;
      }
    }

    method CreateQualWeekData()
      modifies `files
      ensures files == old(files)[job.newQwfn := QwFile(job.newQw, [])]
    {
      files := files[job.newQwfn := Torn];
      files := files[job.newQwfn := QwFile(job.newQw, [])];
    }
  }

  lemma MeterWithin(s: Sys, now: int, stats: int, endTs: int, fn: string)
    requires s.mpc.Sampling? && s.week.startTs <= now < s.week.endTs
    ensures var steps := MeterSteps(s, now, stats, endTs, fn);
            && Runs(s, steps)
            && After(s, steps) == (var r := ApplyRecord(s, now, stats);
                                   if s.pending then r else r.(pending := true, committed := r.job, mpc := Sampling))
  {
    hide Runs, After, TakeQueue, Accumulate;
    var record := Record(now, stats);
    var r := Apply(s, record);
    if s.pending {
      RunOne(s, record, []);
      RunNone(r);
      assert [record] + [] == [record];
    } else {
      RunOne(s, record, [Commit]);
      RunOne(r, Commit, []);
      RunNone(Apply(r, Commit));
      assert [record] + [Commit] == [record, Commit] && [Commit] + [] == [Commit];
    }
    TakeQueueFrame(s.(week := Accumulate(s.week, now, stats)));
  }

  lemma TakeQueueFrame(s: Sys)
    ensures var t := TakeQueue(s); t.pending == s.pending && t.fpc == s.fpc && t.mpc == s.mpc
  {
  }

  lemma MeterRolling(s: Sys, now: int, stats: int, endTs: int, fn: string)
    requires s.mpc.Sampling? && !(s.week.startTs <= now < s.week.endTs)
    ensures var steps := MeterSteps(s, now, stats, endTs, fn);
            && Runs(s, steps)
            && After(s, steps) == (
                 var r := ApplyRecord(s, now, stats);
                 var w := Week(now, endTs, 0, 0);
                 if s.pending then r.(qwfn := fn, week := w, mpc := Sampling)
                 else var j := r.job.(rollover := true, newQwfn := fn, newQw := w);
                      r.(qwfn := fn, week := w, job := j, pending := true, committed := j, mpc := Sampling))
  {
    hide Runs, After, TakeQueue, Accumulate;
    TakeQueueFrame(s.(week := Accumulate(s.week, now, stats)));
    var record, roll := Record(now, stats), Roll(now, endTs, fn);
    var r := Apply(s, record);
    var q := Apply(r, roll);
    if s.pending {
      RunOne(s, record, [roll]);
      RunOne(r, roll, []);
      RunNone(q);
      assert [record] + [roll] == [record, roll] && [roll] + [] == [roll];
    } else {
      RunOne(s, record, [roll, Commit]);
      RunOne(r, roll, [Commit]);
      RunOne(q, Commit, []);
      RunNone(Apply(q, Commit));
      assert [record] + [roll, Commit] == [record, roll, Commit];
      assert [roll] + [Commit] == [roll, Commit] && [Commit] + [] == [Commit];
    }
  }

  function Saved(s: Sys): Sys {
    var t := TailIn(s.files, s.job.qwfn);
    var saved := if Fits(t) then s.files[s.job.qwfn := QwFile(s.job.snap, t + s.job.ev)] else s.files;
    s.(tail := if Fits(t) then t else s.tail,
       files := if s.job.rollover then saved[s.job.newQwfn := QwFile(s.job.newQw, [])] else saved,
       handed := s.handed + s.job.ev, pending := false)
  }

  lemma FileTurn(s: Sys)
    requires s.fpc.Waiting?
    ensures Runs(s, FileSteps(s)) && After(s, FileSteps(s)) == (if !s.pending then s else Saved(s))
  {
    hide Runs, After, Fits, TailIn;
    RunNone(s);
    if s.pending {
      if Fits(TailIn(s.files, s.job.qwfn)) { SavingTurn(s); } else { FailingTurn(s); }
      var e := After(s, UpdateSteps(s));
      FileClose(e);
      RunJoin(s, UpdateSteps(s), CreateSteps(s.job.rollover));
    }
  }

  lemma RunTwo(s: Sys, a: Step, b: Step)
    requires Enabled(s, a) && Enabled(Apply(s, a), b)
    ensures Runs(s, [a, b]) && After(s, [a, b]) == Apply(Apply(s, a), b)
  {
    hide Apply, Enabled;
    RunOne(s, a, [b]);
    RunOne(Apply(s, a), b, []);
    RunNone(Apply(Apply(s, a), b));
    assert [a] + [b] == [a, b] && [b] + [] == [b];
  }

  lemma SavingTurn(s: Sys)
    requires s.fpc.Waiting? && s.pending && Fits(TailIn(s.files, s.job.qwfn))
    ensures Runs(s, UpdateSteps(s))
    ensures var t := TailIn(s.files, s.job.qwfn);
            After(s, UpdateSteps(s)) ==
            s.(tail := t, files := s.files[s.job.qwfn := QwFile(s.job.snap, t + s.job.ev)],
               handed := s.handed + s.job.ev, fpc := Updated)
  {
    hide Runs, After, Fits, TailIn;
    var s2 := Apply(Apply(s, Start), ReadTail);
    RunTwo(s, Start, ReadTail);
    Rewriting(s2);
    RunJoin(s, [Start, ReadTail], [Truncate, WriteHeader] + [WriteTail, Append]);
  }

  lemma Rewriting(s: Sys)
    requires s.fpc.TailRead?
    ensures var steps := [Truncate, WriteHeader] + [WriteTail, Append];
            && Runs(s, steps)
            && After(s, steps) == s.(files := s.files[s.job.qwfn := QwFile(s.job.snap, s.tail + s.job.ev)],
                                     handed := s.handed + s.job.ev, fpc := Updated)
  {
    hide Runs, After, Fits, TailIn;
    var s2 := Apply(Apply(s, Truncate), WriteHeader);
    RunTwo(s, Truncate, WriteHeader);
    RunTwo(s2, WriteTail, Append);
    RunJoin(s, [Truncate, WriteHeader], [WriteTail, Append]);
    LastWriteStands(s.files, s.job.qwfn, QwFile(s.job.snap, []), QwFile(s.job.snap, s.tail),
                    QwFile(s.job.snap, s.tail + s.job.ev));
  }

  lemma LastWriteStands(files: map<string, QwFile>, fn: string, a: QwFile, b: QwFile, c: QwFile)
    ensures files[fn := Torn][fn := a][fn := b][fn := c] == files[fn := c]
  {
  }

  /** The old tail does not fit the buffer, so the week file stays as it is. */
  lemma FailingTurn(s: Sys)
    requires s.fpc.Waiting? && s.pending && !Fits(TailIn(s.files, s.job.qwfn))
    ensures Runs(s, UpdateSteps(s))
    ensures After(s, UpdateSteps(s)) == s.(handed := s.handed + s.job.ev, fpc := Updated)
  {
    hide Runs, After, Fits, TailIn;
    RunTwo(s, Start, ReadTail);
  }

  lemma FileClose(s: Sys)
    requires s.fpc.Updated?
    ensures Runs(s, CreateSteps(s.job.rollover))
    ensures After(s, CreateSteps(s.job.rollover)) ==
            s.(files := if s.job.rollover then s.files[s.job.newQwfn := QwFile(s.job.newQw, [])] else s.files,
               pending := false, fpc := Waiting)
  {
    hide Runs, After;
    var e := if s.job.rollover then Apply(Apply(s, CreateOpen), CreateWrite) else s;
    RunOne(e, Finish, []);
    RunNone(Apply(e, Finish));
    assert [Finish] + [] == [Finish];
    if s.job.rollover {
      RunTwo(s, CreateOpen, CreateWrite);
      RunJoin(s, [CreateOpen, CreateWrite], [Finish]);
    }
  }
}
