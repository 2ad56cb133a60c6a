/** Whole runs of the handoff: what an overrun means for the events, and runs from boot that end in each miss. */
module PqRuns {
  import opened PqHandoff
  import opened PqTasks

  /* ---- overruns ---- */

  /** No record of the run finds the slot free. */
  predicate Overrunning(s: Sys, steps: seq<Step>)
    requires Runs(s, steps)
    decreases |steps|
  {
    steps == [] || ((steps[0].Record? ==> s.pending) && Overrunning(Apply(s, steps[0]), steps[1..]))
  }

  lemma QueueStep(s: Sys, step: Step)
    requires Enabled(s, step) && (step.Record? ==> s.pending)
    ensures s.queue <= Apply(s, step).queue
  {
  }

  lemma {:induction false} QueueOnlyGrows(s: Sys, steps: seq<Step>)
    requires Runs(s, steps) && Overrunning(s, steps)
    ensures s.queue <= After(s, steps).queue
    decreases |steps|
  {
    hide Apply, Enabled;
    if steps != [] {
      QueueStep(s, steps[0]);
      QueueOnlyGrows(Apply(s, steps[0]), steps[1..]);
    }
  }

  /** An overrun defers and loses nothing: however long the slot stays taken, the events that were queued are, in
      order, the first of the next job, which counts all it takes. */
  lemma OverrunDefers(s: Sys, now: int, stats: int, steps: seq<Step>, now': int, stats': int)
    requires Inv(s) && s.mpc.Sampling? && s.pending
    requires Runs(s, [Record(now, stats)] + steps) && Overrunning(s, [Record(now, stats)] + steps)
    requires var e := After(s, [Record(now, stats)] + steps); e.mpc.Sampling? && !e.pending
    ensures var o := Apply(s, Record(now, stats));
            o.queue == s.queue && o.week.evtCount == s.week.evtCount && o.job == s.job && o.files == s.files
    ensures var e := After(s, [Record(now, stats)] + steps);
            var e' := Apply(e, Record(now', stats'));
            && s.queue <= e'.job.ev && e'.queue == [] && Live(e')
            && e'.week.evtCount == e.week.evtCount + |e'.job.ev|
            && e'.accepted == e'.handed + e'.job.ev
  {
    var all := [Record(now, stats)] + steps;
    QueueOnlyGrows(s, all);
    EventsConserved(s, all);
    var e := After(s, all);
    InvPreserved(e, Record(now', stats'));
    hide Runs, After, Overrunning;
    assert e.queue + [] == e.queue;
  }

  /* ---- the misses are reached ---- */

  const NO_WEEK := Week(0, 0, 0, 0)
  const NO_JOB := Job(false, [], NO_WEEK, "", "", NO_WEEK)

  function Booted(files: map<string, QwFile>, fn: string): Sys
    requires fn in files && files[fn].QwFile?
  {
    Sys([], files[fn].header, fn, Sampling, false, NO_JOB, Waiting, [], files, NO_JOB, [], [])
  }

  /** The ten-minute record in the slot overruns the week change; the file of the new week already has two records. */
  lemma StaleRolloverReached(e: Event)
    ensures var s := Booted(map["a" := QwFile(Week(0, 100, 0, 0), []), "b" := QwFile(Week(200, 300, 0, 2), [e, e])], "a");
            var steps := [Record(50, 0), Commit] + [Record(200, 0), Roll(200, 300, "b")];
            Boot(s) && Runs(s, steps) && !Agree(After(s, steps))
  {
    var s := Booted(map["a" := QwFile(Week(0, 100, 0, 0), []), "b" := QwFile(Week(200, 300, 0, 2), [e, e])], "a");
    var record := [Record(50, 0), Commit];
    var roll := [Record(200, 0), Roll(200, 300, "b")];
    var s1 := Apply(s, Record(50, 0));
    var s2 := Apply(s1, Commit);
    RunTwo(s, Record(50, 0), Commit);
    var s3 := Apply(s2, Record(200, 0));
    RunTwo(s2, Record(200, 0), Roll(200, 300, "b"));
    RunJoin(s, record, roll);
    StaleRollover(s3, 200, 300, "b");
  }

  /** Events one after the other into a queue with room for them. */
  function Pushes(es: seq<Event>): seq<Step> { seq(|es|, i requires 0 <= i < |es| => Push(es[i])) }

  lemma {:induction false} RunPushes(s: Sys, es: seq<Event>)
    requires s.mpc.Sampling? && |s.queue| + |es| <= N_EVENT_Q
    ensures Runs(s, Pushes(es))
    ensures After(s, Pushes(es)) == s.(queue := s.queue + es, accepted := s.accepted + es)
    decreases |es|
  {
    if es == [] {
      RunNone(s);
      assert Pushes(es) == [];
      assert s.queue + es == s.queue && s.accepted + es == s.accepted;
    } else {
      var s' := Apply(s, Push(es[0]));
      assert Pushes(es) == [Push(es[0])] + Pushes(es[1..]);
      assert es == [es[0]] + es[1..];
      RunPushes(s', es[1..]);
      RunOne(s, Push(es[0]), Pushes(es[1..]));
      assert s.queue + [es[0]] + es[1..] == s.queue + es && s.accepted + [es[0]] + es[1..] == s.accepted + es;
    }
  }

  /** A batch is queued, recorded and handed over. */
  function Handover(es: seq<Event>, now: int): seq<Step> { Pushes(es) + [Record(now, 0), Commit] }

  /** Between batches of an unchanged week, with everything saved. */
  predicate Resting(s: Sys, now: int) {
    && s.mpc.Sampling? && s.fpc.Waiting? && !s.pending && s.queue == []
    && 0 < s.week.startTs <= now < s.week.endTs
    && s.qwfn in s.files && s.files[s.qwfn].QwFile? && s.week.evtCount == |s.files[s.qwfn].tail|
  }

  lemma RunHandover(s: Sys, es: seq<Event>, now: int)
    requires Resting(s, now) && |es| <= N_EVENT_Q
    ensures Runs(s, Handover(es, now))
    ensures var e := After(s, Handover(es, now));
            && e.fpc.Waiting? && e.pending && e.mpc.Sampling? && e.queue == [] && e.files == s.files && e.qwfn == s.qwfn
            && e.week == s.week.(stats := 0, evtCount := s.week.evtCount + |es|)
            && e.job == s.job.(rollover := false, ev := es, snap := e.week, qwfn := s.qwfn)
            && e.handed == s.handed
  {
    hide Runs, After;
    RunPushes(s, es);
    var s1 := After(s, Pushes(es));
    assert s.queue + es == es;
    RunTwo(s1, Record(now, 0), Commit);
    RunJoin(s, Pushes(es), [Record(now, 0), Commit]);
  }

  /** A batch that fits is saved behind the records the file had, and the week counts it. */
  lemma RunBatch(s: Sys, es: seq<Event>, now: int) returns (steps: seq<Step>)
    requires Resting(s, now) && |es| <= N_EVENT_Q && Fits(s.files[s.qwfn].tail)
    ensures Runs(s, steps)
    ensures var r := After(s, steps);
            && Resting(r, now) && r.qwfn == s.qwfn
            && r.files[r.qwfn].tail == s.files[s.qwfn].tail + es && r.handed == s.handed + es
  {
    hide Runs, After, FileSteps, Fits;
    RunHandover(s, es, now);
    var e := After(s, Handover(es, now));
    FileTurn(e);
    steps := Handover(es, now) + FileSteps(e);
    RunJoin(s, Handover(es, now), FileSteps(e));
  }

  const EMPTY_WEEK := QwFile(Week(1, 100, 0, 0), [])

  /** From an empty file: the first batch saves more records than the buffer holds, so the next is given up. */
  lemma UnreadReached(first: seq<Event>, next: seq<Event>) returns (steps: seq<Step>)
    requires |first| <= N_EVENT_Q && !Fits(first) && 0 < |next| <= N_EVENT_Q
    ensures var s := Booted(map["a" := EMPTY_WEEK], "a");
            && Boot(s) && Runs(s, steps)
            && var e := After(s, steps);
               !Agree(e) && e.handed == first + next && "a" in e.files && e.files["a"].QwFile? && e.files["a"].tail == first
  {
    assert Fits([]);
    hide Runs, After, Fits;
    var s := Booted(map["a" := EMPTY_WEEK], "a");
    var batch := RunBatch(s, first, 50);
    var s1 := After(s, batch);
    assert s1.files[s1.qwfn].tail == [] + first == first;
    RunHandover(s1, next, 50);
    var s2 := After(s1, Handover(next, 50));
    FailingTurn(s2);
    assert UpdateSteps(s2) == [Start, ReadTail];
    RunJoin(s1, Handover(next, 50), [Start, ReadTail]);
    RunJoin(s, batch, Handover(next, 50) + [Start, ReadTail]);
    steps := batch + (Handover(next, 50) + [Start, ReadTail]);
    assert [] + first + next == first + next;
  }
}
