/** The 1 s / 10 s / 10 min / week accumulation of src/Quality.c: error counts and the divisors they are reported over. */
module QualCounters {

  /** Ten-second slots of one ten-minute record, and the ten-minute channels:
      Volt1 0-2, Volt2 3-5, Voltbal 6, VoltThd 7-9, VoltHd 10-12, Pst 13-15, Plt 16-18, Svolt 19-21. */
  const N_FREQ := 60
  const CHANNELS := 22

  datatype Variation = Variation(err: nat, ratio: real)
  const Clear := Variation(0, 0.0)

  /** One second's measurements. */
  datatype Sample = Sample(freq: real, u: seq<real>, ubal: real, uthd: seq<real>, uhd: seq<seq<real>>)

  datatype Limits = Limits(fLo: seq<real>, fHi: seq<real>, uLo: seq<real>, uHi: seq<real>, harm: seq<real>)

  predicate SampleOk(x: Sample) {
    |x.u| == 3 && |x.uthd| == 3 && |x.uhd| == 3 && forall i :: 0 <= i < 3 ==> |x.uhd[i]| == 24
  }

  predicate LimitsOk(l: Limits) {
    |l.fLo| == 2 && |l.fHi| == 2 && |l.uLo| == 2 && |l.uHi| == 2 && |l.harm| == 24
  }

  predicate Outside(x: real, lo: real, hi: real) { x < lo || x > hi }

  /** An error adds one and renews the ratio; otherwise nothing changes. */
  function Bump(v: Variation, out: bool, count: nat): Variation
    requires count > 0
  {
    if out then Variation(v.err + 1, (v.err + 1) as real / count as real) else v
  }

  function AddErrors(v: Variation, errors: nat, count: nat): Variation
    requires count > 0
  {
    Variation(v.err + errors, (v.err + errors) as real / count as real)
  }

  /** The ten-minute record being built. */
  datatype Record = Record(
    ts10m: nat, ts10s: nat, count10m: nat, count10s: nat, freqSum: real,
    uSum: seq<real>, ubalSum: real,
    slots: seq<real>,
    avgU: seq<real>, avgUbal: real, avgUthd: seq<real>, avgUhd: seq<seq<real>>,
    freq1: Variation, freq2: Variation, ten: seq<Variation>)

  datatype Weekly = Weekly(count10s: nat, count10m: nat, complete: bool, freq1: Variation, freq2: Variation, ten: seq<Variation>)

  predicate RecordOk(r: Record) {
    && |r.uSum| == 3 && |r.avgU| == 3 && |r.avgUthd| == 3 && |r.avgUhd| == 3 && |r.ten| == CHANNELS
    && (forall i :: 0 <= i < 3 ==> |r.avgUhd[i]| == 24)
    && |r.slots| <= N_FREQ
  }

  /* ---- ten seconds ---- */

  function TenSeconds(r: Record, tick10s: nat, x: Sample, l: Limits): Record
    requires RecordOk(r) && SampleOk(x) && LimitsOk(l) && r.count10s > 0
  {
    var freq := r.freqSum / r.count10s as real;
    var slots := if |r.slots| < N_FREQ then r.slots + [freq] else r.slots;
    r.(ts10s := tick10s, slots := slots,
       freq1 := Bump(r.freq1, Outside(freq, l.fLo[0], l.fHi[0]), |slots|),
       freq2 := Bump(r.freq2, Outside(freq, l.fLo[1], l.fHi[1]), |slots|),
       avgUthd := x.uthd, avgUhd := x.uhd, freqSum := 0.0, count10s := 0)
  }

  function Summed(r: Record, x: Sample): Record
    requires RecordOk(r) && SampleOk(x) && r.count10m > 0
  {
    var u := [r.uSum[0] + x.u[0], r.uSum[1] + x.u[1], r.uSum[2] + x.u[2]];
    var n := r.count10m as real;
    r.(uSum := u, ubalSum := r.ubalSum + x.ubal, avgU := [u[0] / n, u[1] / n, u[2] / n], avgUbal := (r.ubalSum + x.ubal) / n)
  }

  /* ---- ten minutes ---- */

  predicate HarmonicOut(h: seq<real>, limit: seq<real>)
    requires |h| == |limit|
  {
    exists j :: 0 <= j < |h| && Outside(h[j], 0.0, limit[j])
  }

  predicate ChannelOut(r: Record, l: Limits, k: nat)
    requires RecordOk(r) && LimitsOk(l) && k < CHANNELS
  {
    if k < 3 then Outside(r.avgU[k], l.uLo[0], l.uHi[0])
    else if k < 6 then Outside(r.avgU[k - 3], l.uLo[1], l.uHi[1])
    else if k == 6 then Outside(r.avgUbal, 0.0, 2.0)
    else if k < 10 then Outside(r.avgUthd[k - 7], 0.0, 8.0)
    else if k < 13 then HarmonicOut(r.avgUhd[k - 10], l.harm)
    else false
  }

  /** Each ten-minute channel gains at most one error. */
  function Checked(r: Record, l: Limits): Record
    requires RecordOk(r) && LimitsOk(l) && r.count10m > 0
  {
    r.(ten := seq(CHANNELS, k requires 0 <= k < CHANNELS => Bump(r.ten[k], ChannelOut(r, l, k), r.count10m)))
  }

  function AddToWeek(w: Weekly, r: Record): Weekly
    requires |w.ten| == CHANNELS && |r.ten| == CHANNELS
    requires w.count10s + |r.slots| > 0
  {
    var n10s, n10m := w.count10s + |r.slots|, w.count10m + 1;
    Weekly(n10s, n10m, w.complete || n10m >= 1008,
           AddErrors(w.freq1, r.freq1.err, n10s), AddErrors(w.freq2, r.freq2.err, n10s),
           seq(CHANNELS, k requires 0 <= k < CHANNELS => AddErrors(w.ten[k], r.ten[k].err, n10m)))
  }

  function NewWeek(): Weekly { Weekly(0, 0, false, Clear, Clear, seq(CHANNELS, k => Clear)) }

  function Fresh(tick10m: nat, tick10s: nat, count10s: nat): Record {
    Record(tick10m, tick10s, 0, count10s, 0.0, [0.0, 0.0, 0.0], 0.0, [], [0.0, 0.0, 0.0], 0.0, [0.0, 0.0, 0.0],
           seq(3, k => seq(24, j => 0.0)), Clear, Clear, seq(CHANNELS, k => Clear))
  }

  /* ---- one second ---- */

  /** The running record and week, and the week last reported when it was closed. */
  datatype Log = Log(record: Record, week: Weekly, lastWeek: Weekly)

  /** What the caller supplies for one second: the clock, the measurements, whether the clock was set since the last call,
      whether reports are on, and whether the clock has left the week. */
  datatype Second = Second(now: nat, x: Sample, l: Limits, changed: bool, active: bool, rolled: bool)

  predicate SecondOk(s: Second) { SampleOk(s.x) && LimitsOk(s.l) }

  /** The part before the ten-minute check. */
  function Gather(g: Log, s: Second): Record
    requires RecordOk(g.record) && SecondOk(s)
  {
    var r := g.record.(count10m := g.record.count10m + 1, freqSum := g.record.freqSum + s.x.freq,
                       count10s := g.record.count10s + 1);
    var r' := if r.ts10s != s.now / 10 || s.changed then TenSeconds(r, s.now / 10, s.x, s.l) else r;
    Summed(r', s.x)
  }

  predicate Boundary(g: Log, s: Second) { g.record.ts10m != s.now / 600 || s.changed }

  function Tick(g: Log, s: Second): Log
    requires RecordOk(g.record) && |g.week.ten| == CHANNELS && SecondOk(s)
    requires Boundary(g, s) ==> g.week.count10s + |Gather(g, s).slots| > 0
  {
    var r := Gather(g, s);
    if !Boundary(g, s) then g.(record := r)
    else
      var r' := Checked(r, s.l);
      var w := if s.active then AddToWeek(g.week, r') else g.week;
      Log(Fresh(s.now / 600, r.ts10s, r.count10s),
          if s.active && s.rolled then NewWeek() else w,
          if s.active && s.rolled then w else g.lastWeek)
  }

  /* ---- errors never exceed what they are divided by ---- */

  predicate Fraction(v: Variation, count: nat) {
    v.err <= count && 0.0 <= v.ratio <= 1.0
  }

  predicate WeekOk(w: Weekly) {
    && Fraction(w.freq1, w.count10s) && Fraction(w.freq2, w.count10s)
    && |w.ten| == CHANNELS && forall k :: 0 <= k < CHANNELS ==> Fraction(w.ten[k], w.count10m)
  }

  /** Each slot used up one index of the ten minutes, so the boundary second still finds a free one. */
  predicate WindowOk(r: Record) {
    && RecordOk(r)
    && r.ts10m == r.ts10s / 60
    && |r.slots| <= r.ts10s - 60 * r.ts10m
    && Fraction(r.freq1, |r.slots|) && Fraction(r.freq2, |r.slots|)
    && forall k :: 0 <= k < CHANNELS ==> r.ten[k] == Clear
  }

  predicate Inv(g: Log) { WindowOk(g.record) && WeekOk(g.week) && WeekOk(g.lastWeek) }

  /** Within one ten-minute window the ten-second index never goes back unless the clock was set. */
  predicate NoBackstep(g: Log, s: Second) {
    s.changed || s.now / 600 != g.record.ts10m || s.now / 10 >= g.record.ts10s
  }

  lemma RatioInUnit(err: nat, count: nat)
    requires err <= count && count > 0
    ensures 0.0 <= err as real / count as real <= 1.0
  {
  }

  lemma BumpFraction(v: Variation, out: bool, count: nat, before: nat)
    requires Fraction(v, before) && count > 0 && before + (if out then 1 else 0) <= count
    ensures Fraction(Bump(v, out, count), count)
  {
    if out { RatioInUnit(v.err + 1, count); }
  }

  lemma AddFraction(v: Variation, errors: nat, before: nat, more: nat)
    requires Fraction(v, before) && errors <= more && before + more > 0
    ensures Fraction(AddErrors(v, errors, before + more), before + more)
  {
    RatioInUnit(v.err + errors, before + more);
  }

  lemma TenSecondsFractions(r: Record, tick10s: nat, x: Sample, l: Limits)
    requires RecordOk(r) && SampleOk(x) && LimitsOk(l) && r.count10s > 0
    requires |r.slots| < N_FREQ && Fraction(r.freq1, |r.slots|) && Fraction(r.freq2, |r.slots|)
    ensures var r' := TenSeconds(r, tick10s, x, l);
            RecordOk(r') && |r'.slots| == |r.slots| + 1 && Fraction(r'.freq1, |r'.slots|) && Fraction(r'.freq2, |r'.slots|)
  {
    hide Bump, Outside, Fraction;
    var freq := r.freqSum / r.count10s as real;
    BumpFraction(r.freq1, Outside(freq, l.fLo[0], l.fHi[0]), |r.slots| + 1, |r.slots|);
    BumpFraction(r.freq2, Outside(freq, l.fLo[1], l.fHi[1]), |r.slots| + 1, |r.slots|);
  }

  /** What one second gathers: at most one slot more, and at a boundary at least one slot. */
  lemma GatherKeeps(g: Log, s: Second)
    requires WindowOk(g.record) && SecondOk(s) && NoBackstep(g, s)
    ensures var r := Gather(g, s);
            && RecordOk(r) && r.count10m > 0 && r.ts10s == s.now / 10 && r.ts10m == g.record.ts10m
            && Fraction(r.freq1, |r.slots|) && Fraction(r.freq2, |r.slots|)
            && r.ten == g.record.ten
            && (Boundary(g, s) ==> |r.slots| > 0)
            && (!Boundary(g, s) ==> WindowOk(r))
  {
    hide TenSeconds, Fraction, SampleOk, LimitsOk;
    var r := g.record.(count10m := g.record.count10m + 1, freqSum := g.record.freqSum + s.x.freq,
                       count10s := g.record.count10s + 1);
    if r.ts10s != s.now / 10 || s.changed {
      TenSecondsFractions(r, s.now / 10, s.x, s.l);
      TenSecondsFrame(r, s.now / 10, s.x, s.l);
    }
    assert s.now / 600 == s.now / 10 / 60;
  }

  lemma TenSecondsFrame(r: Record, tick10s: nat, x: Sample, l: Limits)
    requires RecordOk(r) && SampleOk(x) && LimitsOk(l) && r.count10s > 0
    ensures var r' := TenSeconds(r, tick10s, x, l);
            r'.ts10s == tick10s && r'.ts10m == r.ts10m && r'.ten == r.ten && r'.count10m == r.count10m
  {
  }

  lemma CheckedOnce(r: Record, l: Limits)
    requires RecordOk(r) && LimitsOk(l) && r.count10m > 0
    requires forall k :: 0 <= k < CHANNELS ==> r.ten[k] == Clear
    ensures forall k :: 0 <= k < CHANNELS ==> Checked(r, l).ten[k].err <= 1
  {
  }

  lemma AddToWeekKeeps(w: Weekly, r: Record)
    requires WeekOk(w) && |r.ten| == CHANNELS && |r.slots| > 0
    requires r.freq1.err <= |r.slots| && r.freq2.err <= |r.slots|
    requires forall k :: 0 <= k < CHANNELS ==> r.ten[k].err <= 1
    ensures WeekOk(AddToWeek(w, r))
  {
    hide Fraction, AddErrors;
    AddFraction(w.freq1, r.freq1.err, w.count10s, |r.slots|);
    AddFraction(w.freq2, r.freq2.err, w.count10s, |r.slots|);
    forall k | 0 <= k < CHANNELS ensures Fraction(AddErrors(w.ten[k], r.ten[k].err, w.count10m + 1), w.count10m + 1) {
      AddFraction(w.ten[k], r.ten[k].err, w.count10m, 1);
    }
  }

  /** Every reachable report: no divisor is zero at the boundary, no error count exceeds its divisor. */
  lemma TickKeeps(g: Log, s: Second)
    requires Inv(g) && SecondOk(s) && NoBackstep(g, s)
    ensures Boundary(g, s) ==> |Gather(g, s).slots| > 0
    ensures Inv(Tick(g, s))
  {
    hide Gather, Checked, AddToWeek;
    GatherKeeps(g, s);
    var r := Gather(g, s);
    if Boundary(g, s) {
      CheckedOnce(r, s.l);
      CheckedFrame(r, s.l);
      AddToWeekKeeps(g.week, Checked(r, s.l));
    }
  }

  lemma CheckedFrame(r: Record, l: Limits)
    requires RecordOk(r) && LimitsOk(l) && r.count10m > 0
    ensures var c := Checked(r, l); c.slots == r.slots && c.freq1 == r.freq1 && c.freq2 == r.freq2 && |c.ten| == CHANNELS
  {
  }

  /** getVarPercent: the truncated share of time within limits, in hundredths of a percent. */
  function Percent(v: Variation): int { ((1.0 - v.ratio) * 10000.0).Floor }

  lemma PercentInRange(w: Weekly, k: nat)
    requires WeekOk(w) && k < CHANNELS
    ensures 0 <= Percent(w.freq1) <= 10000 && 0 <= Percent(w.freq2) <= 10000 && 0 <= Percent(w.ten[k]) <= 10000
  {
    assert Fraction(w.ten[k], w.count10m);
  }

  /** It is the share of good ones in hundredths of a percent, rounded down. */
  lemma PercentExactly(err: nat, count: nat)
    requires err <= count && count > 0
    ensures Percent(Variation(err, err as real / count as real)) == 10000 * (count - err) / count
  {
    var good, n := 10000 * (count - err), count as real;
    var x := err as real / n;
    assert x * n == err as real;
    assert (1.0 - x) * 10000.0 * n == good as real;
    QuotientIs(good as real, (1.0 - x) * 10000.0, n);
    FloorOfQuotient(good, count);
  }

  lemma QuotientIs(a: real, b: real, n: real)
    requires n != 0.0 && a == b * n
    ensures a / n == b
  {
  }

  lemma FloorOfQuotient(a: nat, n: nat)
    requires n > 0
    ensures (a as real / n as real).Floor == a / n
  {
    var q, r := a / n, a % n;
    assert a == q * n + r;
    assert a as real == q as real * n as real + r as real;
    assert a as real / n as real == q as real + r as real / n as real;
    assert 0.0 <= r as real / n as real < 1.0;
  }

  /* ---- whole runs ---- */

  /** In force after a second at time prev, or after boot at that time. */
  predicate InStep(g: Log, prev: nat) {
    Inv(g) && g.record.ts10s == prev / 10 && g.record.ts10m == prev / 600
  }

  /** Between calls the ten-second index goes back only into another ten minutes or with the clock reported set. */
  predicate Steady(prev: nat, ss: seq<Second>)
    decreases |ss|
  {
    ss == [] ||
    (SecondOk(ss[0]) && (ss[0].changed || ss[0].now / 600 != prev / 600 || ss[0].now / 10 >= prev / 10)
     && Steady(ss[0].now, ss[1..]))
  }

  lemma TickInStep(g: Log, prev: nat, s: Second)
    requires InStep(g, prev) && SecondOk(s)
    requires s.changed || s.now / 600 != prev / 600 || s.now / 10 >= prev / 10
    ensures Boundary(g, s) ==> |Gather(g, s).slots| > 0
    ensures InStep(Tick(g, s), s.now)
  {
    hide Gather, Checked, AddToWeek;
    TickKeeps(g, s);
    GatherKeeps(g, s);
  }

  function After(g: Log, prev: nat, ss: seq<Second>): Log
    requires InStep(g, prev) && Steady(prev, ss)
    decreases |ss|
  {
    if ss == [] then g
    else
      TickInStep(g, prev, ss[0]);
      After(Tick(g, ss[0]), ss[0].now, ss[1..])
  }

  lemma {:induction false} AfterKeeps(g: Log, prev: nat, ss: seq<Second>)
    requires InStep(g, prev) && Steady(prev, ss)
    ensures Inv(After(g, prev, ss))
    decreases |ss|
  {
    hide Gather, Tick, Fraction, SampleOk, LimitsOk;
    if ss != [] {
      TickInStep(g, prev, ss[0]);
      AfterKeeps(Tick(g, ss[0]), ss[0].now, ss[1..]);
    }
  }

  /** At boot: a fresh record, and the weeks as read from their files or newly made. */
  function BootLog(now: nat, week: Weekly, lastWeek: Weekly): Log {
    Log(Fresh(now / 600, now / 10, 0), week, lastWeek)
  }

  lemma BootInStep(now: nat, week: Weekly, lastWeek: Weekly)
    requires WeekOk(week) && WeekOk(lastWeek)
    ensures InStep(BootLog(now, week, lastWeek), now)
  {
    hide WeekOk;
  }

  /** Whatever is measured from boot on, every percentage of the running and of the closed week is in range. */
  lemma ReportsInRange(now: nat, week: Weekly, lastWeek: Weekly, ss: seq<Second>, k: nat)
    requires WeekOk(week) && WeekOk(lastWeek) && Steady(now, ss) && k < CHANNELS
    ensures InStep(BootLog(now, week, lastWeek), now)
    ensures var g := After(BootLog(now, week, lastWeek), now, ss);
            forall w :: w == g.week || w == g.lastWeek ==>
              && w.freq1.err <= w.count10s && w.freq2.err <= w.count10s && |w.ten| == CHANNELS && w.ten[k].err <= w.count10m
              && 0 <= Percent(w.freq1) <= 10000 && 0 <= Percent(w.freq2) <= 10000 && 0 <= Percent(w.ten[k]) <= 10000
  {
    var boot := BootLog(now, week, lastWeek);
    BootInStep(now, week, lastWeek);
    AfterKeeps(boot, now, ss);
    var g := After(boot, now, ss);
    hide After, Percent, Steady;
    PercentInRange(g.week, k);
    PercentInRange(g.lastWeek, k);
  }

  /* ---- the week is a tally of its ten-minute records ---- */

  /** A record as it stood at its boundary, with the limits in force there. */
  datatype Closing = Closing(r: Record, l: Limits)

  predicate ClosingOk(c: Closing) { RecordOk(c.r) && LimitsOk(c.l) }

  predicate AllOk(cs: seq<Closing>) { forall i :: 0 <= i < |cs| ==> ClosingOk(cs[i]) }

  function Slots(cs: seq<Closing>): nat
    decreases |cs|
  {
    if cs == [] then 0 else Slots(cs[..|cs| - 1]) + |cs[|cs| - 1].r.slots|
  }

  function FreqErrors(cs: seq<Closing>): (nat, nat)
    decreases |cs|
  {
    if cs == [] then (0, 0)
    else
      var (a, b) := FreqErrors(cs[..|cs| - 1]);
      (a + cs[|cs| - 1].r.freq1.err, b + cs[|cs| - 1].r.freq2.err)
  }

  /** How many of the records were out of limits on channel k. */
  function Outs(cs: seq<Closing>, k: nat): nat
    requires AllOk(cs) && k < CHANNELS
    decreases |cs|
  {
    if cs == [] then 0
    else Outs(cs[..|cs| - 1], k) + (if ChannelOut(cs[|cs| - 1].r, cs[|cs| - 1].l, k) then 1 else 0)
  }

  /** An error count with its exact share. */
  predicate Share(v: Variation, err: nat, count: nat) {
    v.err == err && if count == 0 then v.ratio == 0.0 else v.ratio == err as real / count as real
  }

  predicate Tallied(w: Weekly, cs: seq<Closing>) {
    && AllOk(cs) && |w.ten| == CHANNELS
    && w.count10m == |cs| && w.count10s == Slots(cs) && (w.complete <==> |cs| >= 1008)
    && Share(w.freq1, FreqErrors(cs).0, Slots(cs)) && Share(w.freq2, FreqErrors(cs).1, Slots(cs))
    && forall k :: 0 <= k < CHANNELS ==> Share(w.ten[k], Outs(cs, k), |cs|)
  }

  lemma TallySnoc(cs: seq<Closing>, c: Closing)
    requires AllOk(cs) && ClosingOk(c)
    ensures AllOk(cs + [c])
    ensures Slots(cs + [c]) == Slots(cs) + |c.r.slots|
    ensures FreqErrors(cs + [c]) == (FreqErrors(cs).0 + c.r.freq1.err, FreqErrors(cs).1 + c.r.freq2.err)
    ensures forall k :: 0 <= k < CHANNELS ==> Outs(cs + [c], k) == Outs(cs, k) + (if ChannelOut(c.r, c.l, k) then 1 else 0)
  {
    hide ChannelOut;
    assert (cs + [c])[..|cs|] == cs;
  }

  lemma AddShare(v: Variation, errors: nat, err: nat, before: nat, more: nat)
    requires Share(v, err, before) && before + more > 0
    ensures Share(AddErrors(v, errors, before + more), err + errors, before + more)
  {
  }

  lemma CheckedErrors(c: Closing, k: nat)
    requires ClosingOk(c) && c.r.count10m > 0 && k < CHANNELS && c.r.ten[k] == Clear
    ensures Checked(c.r, c.l).ten[k].err == if ChannelOut(c.r, c.l, k) then 1 else 0
  {
    hide ChannelOut;
  }

  /** One more record adds to each channel of the week one error if it was out of limits there, and renews every share. */
  lemma WeekTallies(w: Weekly, cs: seq<Closing>, c: Closing)
    requires Tallied(w, cs) && ClosingOk(c) && c.r.count10m > 0 && |c.r.slots| > 0
    requires forall k :: 0 <= k < CHANNELS ==> c.r.ten[k] == Clear
    ensures Tallied(AddToWeek(w, Checked(c.r, c.l)), cs + [c])
  {
    hide Share, ChannelOut, AddErrors, Slots, FreqErrors, Outs, LimitsOk;
    TallySnoc(cs, c);
    CheckedFrame(c.r, c.l);
    AddShare(w.freq1, c.r.freq1.err, FreqErrors(cs).0, Slots(cs), |c.r.slots|);
    AddShare(w.freq2, c.r.freq2.err, FreqErrors(cs).1, Slots(cs), |c.r.slots|);
    forall k | 0 <= k < CHANNELS
      ensures Share(AddErrors(w.ten[k], Checked(c.r, c.l).ten[k].err, |cs| + 1), Outs(cs + [c], k), |cs| + 1)
    {
      CheckedErrors(c, k);
      AddShare(w.ten[k], Checked(c.r, c.l).ten[k].err, Outs(cs, k), |cs|, 1);
    }
  }

  /** The records of the running week after one more second. */
  function Tally(g: Log, s: Second, cs: seq<Closing>): seq<Closing>
    requires RecordOk(g.record) && SecondOk(s)
  {
    if !Boundary(g, s) || !s.active then cs
    else if s.rolled then []
    else cs + [Closing(Gather(g, s), s.l)]
  }

  lemma TickTallies(g: Log, prev: nat, s: Second, cs: seq<Closing>)
    requires InStep(g, prev) && SecondOk(s) && Tallied(g.week, cs)
    requires s.changed || s.now / 600 != prev / 600 || s.now / 10 >= prev / 10
    ensures Boundary(g, s) ==> |Gather(g, s).slots| > 0
    ensures Tallied(Tick(g, s).week, Tally(g, s, cs))
    ensures Boundary(g, s) && s.active && s.rolled ==>
              Tallied(Tick(g, s).lastWeek, cs + [Closing(Gather(g, s), s.l)])
  {
    hide Gather, Checked, AddToWeek, Tallied;
    GatherKeeps(g, s);
    NewWeekTallied();
    if Boundary(g, s) && s.active { WeekTallies(g.week, cs, Closing(Gather(g, s), s.l)); }
  }

  lemma NewWeekTallied()
    ensures Tallied(NewWeek(), [])
  {
  }

  function TallyAll(g: Log, prev: nat, ss: seq<Second>, cs: seq<Closing>): seq<Closing>
    requires InStep(g, prev) && Steady(prev, ss)
    decreases |ss|
  {
    if ss == [] then cs
    else
      TickInStep(g, prev, ss[0]);
      TallyAll(Tick(g, ss[0]), ss[0].now, ss[1..], Tally(g, ss[0], cs))
  }

  /** Over every such run the week's counts and shares are exactly those of the records closed since it began. */
  lemma {:induction false} WeekIsTally(g: Log, prev: nat, ss: seq<Second>, cs: seq<Closing>)
    requires InStep(g, prev) && Steady(prev, ss) && Tallied(g.week, cs)
    ensures Tallied(After(g, prev, ss).week, TallyAll(g, prev, ss, cs))
    decreases |ss|
  {
    hide Gather, Tick, Tally, Tallied, Fraction, SampleOk, LimitsOk;
    if ss != [] {
      TickInStep(g, prev, ss[0]);
      TickTallies(g, prev, ss[0], cs);
      WeekIsTally(Tick(g, ss[0]), ss[0].now, ss[1..], Tally(g, ss[0], cs));
    }
  }

  /** While a record's slots are not full, its frequency errors are its slots out of limits. */
  function CountOutside(slots: seq<real>, lo: real, hi: real): nat
    decreases |slots|
  {
    if slots == [] then 0
    else CountOutside(slots[..|slots| - 1], lo, hi) + (if Outside(slots[|slots| - 1], lo, hi) then 1 else 0)
  }

  lemma FrequencyErrorsAreSlots(r: Record, tick10s: nat, x: Sample, l: Limits)
    requires RecordOk(r) && SampleOk(x) && LimitsOk(l) && r.count10s > 0 && |r.slots| < N_FREQ
    requires r.freq1.err == CountOutside(r.slots, l.fLo[0], l.fHi[0])
    requires r.freq2.err == CountOutside(r.slots, l.fLo[1], l.fHi[1])
    ensures var r' := TenSeconds(r, tick10s, x, l);
            && r'.slots == r.slots + [r.freqSum / r.count10s as real]
            && r'.freq1.err == CountOutside(r'.slots, l.fLo[0], l.fHi[0])
            && r'.freq2.err == CountOutside(r'.slots, l.fLo[1], l.fHi[1])
  {
    var freq := r.freqSum / r.count10s as real;
    hide Outside, SampleOk;
    assert (r.slots + [freq])[..|r.slots|] == r.slots;
  }

  /** The record's frequency errors are its stored means outside the limits. */
  predicate FreqExact(r: Record, l: Limits)
    requires LimitsOk(l)
  {
    && r.freq1.err == CountOutside(r.slots, l.fLo[0], l.fHi[0])
    && r.freq2.err == CountOutside(r.slots, l.fLo[1], l.fHi[1])
  }

  predicate SameFreqLimits(a: Limits, b: Limits) { a.fLo == b.fLo && a.fHi == b.fHi }

  lemma GatherFreqExact(g: Log, prev: nat, s: Second, l: Limits)
    requires InStep(g, prev) && SecondOk(s) && LimitsOk(l) && SameFreqLimits(s.l, l)
    requires s.changed || s.now / 600 != prev / 600 || s.now / 10 >= prev / 10
    requires FreqExact(g.record, l)
    ensures FreqExact(Gather(g, s), l)
  {
    hide TenSeconds, CountOutside, Fraction, SampleOk;
    var r := g.record.(count10m := g.record.count10m + 1, freqSum := g.record.freqSum + s.x.freq,
                       count10s := g.record.count10s + 1);
    if r.ts10s != s.now / 10 || s.changed { FrequencyErrorsAreSlots(r, s.now / 10, s.x, s.l); }
  }

  lemma TickFreqExact(g: Log, prev: nat, s: Second, l: Limits)
    requires InStep(g, prev) && SecondOk(s) && LimitsOk(l) && SameFreqLimits(s.l, l)
    requires s.changed || s.now / 600 != prev / 600 || s.now / 10 >= prev / 10
    requires FreqExact(g.record, l)
    ensures FreqExact(Gather(g, s), l)
    ensures Boundary(g, s) ==> |Gather(g, s).slots| > 0
    ensures FreqExact(Tick(g, s).record, l)
  {
    TickInStep(g, prev, s);
    GatherFreqExact(g, prev, s, l);
    hide Gather, Checked, AddToWeek;
  }

  predicate AllFreqExact(cs: seq<Closing>, l: Limits)
    requires LimitsOk(l)
  {
    forall i :: 0 <= i < |cs| ==> FreqExact(cs[i].r, l)
  }

  /** The stored ten-second means of the records that lie outside. */
  function MeansOutside(cs: seq<Closing>, lo: real, hi: real): nat
    decreases |cs|
  {
    if cs == [] then 0 else MeansOutside(cs[..|cs| - 1], lo, hi) + CountOutside(cs[|cs| - 1].r.slots, lo, hi)
  }

  lemma {:induction false} FreqErrorsAreMeans(cs: seq<Closing>, l: Limits)
    requires LimitsOk(l) && AllFreqExact(cs, l)
    ensures FreqErrors(cs) == (MeansOutside(cs, l.fLo[0], l.fHi[0]), MeansOutside(cs, l.fLo[1], l.fHi[1]))
    decreases |cs|
  {
    hide CountOutside;
    if cs != [] {
      assert FreqExact(cs[|cs| - 1].r, l);
      FreqErrorsAreMeans(cs[..|cs| - 1], l);
    }
  }

  predicate FixedFreqLimits(ss: seq<Second>, l: Limits) { forall i :: 0 <= i < |ss| ==> SameFreqLimits(ss[i].l, l) }

  lemma {:induction false} TallyFreqExact(g: Log, prev: nat, ss: seq<Second>, cs: seq<Closing>, l: Limits)
    requires InStep(g, prev) && Steady(prev, ss) && LimitsOk(l) && FixedFreqLimits(ss, l)
    requires FreqExact(g.record, l) && AllFreqExact(cs, l)
    ensures AllFreqExact(TallyAll(g, prev, ss, cs), l)
    decreases |ss|
  {
    hide Gather, Tick, FreqExact, Fraction, SampleOk;
    if ss != [] {
      TickInStep(g, prev, ss[0]);
      TickFreqExact(g, prev, ss[0], l);
      TallyFreqExact(Tick(g, ss[0]), ss[0].now, ss[1..], Tally(g, ss[0], cs), l);
    }
  }

  /** Over every such run under fixed frequency limits, the week's frequency errors are exactly its stored ten-second
      means outside them, out of all it stored. */
  lemma WeekFrequencyExactly(now: nat, lastWeek: Weekly, ss: seq<Second>, l: Limits)
    requires WeekOk(lastWeek) && Steady(now, ss) && LimitsOk(l) && FixedFreqLimits(ss, l)
    ensures InStep(BootLog(now, NewWeek(), lastWeek), now)
    ensures var boot := BootLog(now, NewWeek(), lastWeek);
            var w, cs := After(boot, now, ss).week, TallyAll(boot, now, ss, []);
            && w.freq1.err == MeansOutside(cs, l.fLo[0], l.fHi[0]) && w.freq2.err == MeansOutside(cs, l.fLo[1], l.fHi[1])
            && w.count10s == Slots(cs)
  {
    var boot := BootLog(now, NewWeek(), lastWeek);
    BootInStep(now, NewWeek(), lastWeek);
    assert FreqExact(boot.record, l);
    NewWeekTallied();
    hide After, TallyAll, Steady, CountOutside, Outs, Slots, BootLog, Inv, FreqExact;
    WeekIsTally(boot, now, ss, []);
    TallyFreqExact(boot, now, ss, [], l);
    FreqErrorsAreMeans(TallyAll(boot, now, ss, []), l);
  }

  /** The two clock indices were taken at the same second. */
  predicate Clocked(g: Log) {
    RecordOk(g.record) && |g.week.ten| == CHANNELS && g.record.ts10m == g.record.ts10s / 60
  }

  /** Whatever the clock does, a ten-minute boundary is also a ten-second one, so no divisor is zero there. */
  lemma BoundaryHasSlot(g: Log, s: Second)
    requires Clocked(g) && SecondOk(s)
    ensures Boundary(g, s) ==> |Gather(g, s).slots| > 0
    ensures Clocked(Tick(g, s))
  {
    assert s.now / 600 == s.now / 10 / 60;
  }

  /* ---- why the index must not go back ---- */

  /** A ten-second step keeps the count within its divisor exactly when the slots are not all full of errors. */
  lemma TenSecondsExactly(r: Record, tick10s: nat, x: Sample, l: Limits)
    requires RecordOk(r) && SampleOk(x) && LimitsOk(l) && r.count10s > 0
    requires r.freq1.err <= |r.slots|
    ensures var r' := TenSeconds(r, tick10s, x, l);
            r'.freq1.err <= |r'.slots| <==>
            !(r.freq1.err == N_FREQ && Outside(r.freqSum / r.count10s as real, l.fLo[0], l.fHi[0]))
  {
  }

  /** The second falls in the ten minutes being recorded. */
  predicate InWindow(g: Log, s: Second) {
    RecordOk(g.record) && |g.week.ten| == CHANNELS && SecondOk(s) && !s.changed && g.record.ts10m == s.now / 600
  }

  /** An index that swings between two values of one window, always off frequency. */
  function Swing(g: Log, s0: Second, s1: Second, n: nat): Log
    requires InWindow(g, s0) && InWindow(g, s1)
    decreases n
  {
    if n == 0 then g
    else
      var s := if n % 2 == 0 then s0 else s1;
      SwingTick(g, s, s0);
      SwingTick(g, s, s1);
      Swing(Tick(g, s), s0, s1, n - 1)
  }

  lemma SwingTick(g: Log, s: Second, t: Second)
    requires InWindow(g, s) && InWindow(g, t)
    ensures InWindow(Tick(g, s), t)
  {
  }

  /** The second starts a new ten-second index off frequency, with nothing summed before it. */
  predicate OffFrequency(g: Log, s: Second)
    requires InWindow(g, s)
  {
    && g.record.ts10s != s.now / 10 && g.record.count10s == 0 && g.record.freqSum == 0.0
    && Outside(s.x.freq, s.l.fLo[0], s.l.fHi[0])
  }

  lemma SwingCounts(g: Log, s: Second)
    requires InWindow(g, s) && OffFrequency(g, s)
    ensures var r, r' := g.record, Tick(g, s).record;
            && r'.ts10s == s.now / 10 && r'.count10s == 0 && r'.freqSum == 0.0
            && r'.freq1.err == r.freq1.err + 1
            && |r.slots| <= N_FREQ
            && |r'.slots| == if |r.slots| < N_FREQ then |r.slots| + 1 else N_FREQ
  {
    hide Outside;
    assert s.x.freq / 1.0 == s.x.freq;
    assert 0.0 + s.x.freq == s.x.freq;
  }

  /** Such a swing counts an error a second but stops counting slots at sixty. */
  lemma {:induction false} SwingOverruns(g: Log, s0: Second, s1: Second, n: nat)
    requires InWindow(g, s0) && InWindow(g, s1) && s0.now / 10 != s1.now / 10
    requires Outside(s0.x.freq, s0.l.fLo[0], s0.l.fHi[0]) && Outside(s1.x.freq, s1.l.fLo[0], s1.l.fHi[0])
    requires g.record.count10s == 0 && g.record.freqSum == 0.0
    requires g.record.ts10s == (if n % 2 == 0 then s1.now else s0.now) / 10
    ensures var r := Swing(g, s0, s1, n).record;
            r.freq1.err == g.record.freq1.err + n &&
            |r.slots| == (if |g.record.slots| + n < N_FREQ then |g.record.slots| + n else N_FREQ)
    decreases n
  {
    hide Tick, Outside, SampleOk, LimitsOk, SecondOk;
    if n == 0 { return; }
    hide RecordOk;
    var s := if n % 2 == 0 then s0 else s1;
    assert OffFrequency(g, s);
    SwingTick(g, s, s0);
    SwingTick(g, s, s1);
    SwingCounts(g, s);
    hide InWindow;
    SwingOverruns(Tick(g, s), s0, s1, n - 1);
  }

  /** From boot: sixty-one seconds that swing between two ten-second indices, off frequency throughout, count
      sixty-one errors over sixty slots. */
  lemma SwingFromBoot(week: Weekly, lastWeek: Weekly, s0: Second, s1: Second)
    requires WeekOk(week) && WeekOk(lastWeek) && SecondOk(s0) && SecondOk(s1) && !s0.changed && !s1.changed
    requires s0.now / 600 == s1.now / 600 && s0.now / 10 != s1.now / 10
    requires Outside(s0.x.freq, s0.l.fLo[0], s0.l.fHi[0]) && Outside(s1.x.freq, s1.l.fLo[0], s1.l.fHi[0])
    ensures var boot := BootLog(s0.now, week, lastWeek);
            && InStep(boot, s0.now) && InWindow(boot, s0) && InWindow(boot, s1)
            && var r := Swing(boot, s0, s1, 61).record; r.freq1.err == 61 && |r.slots| == 60
  {
    var boot := BootLog(s0.now, week, lastWeek);
    BootInStep(s0.now, week, lastWeek);
    BootInWindow(s0.now, week, lastWeek, s0);
    BootInWindow(s0.now, week, lastWeek, s1);
    hide Swing, InWindow, Outside, InStep, SecondOk, WeekOk;
    SwingOverruns(boot, s0, s1, 61);
  }

  lemma BootInWindow(now: nat, week: Weekly, lastWeek: Weekly, s: Second)
    requires WeekOk(week) && SecondOk(s) && !s.changed && now / 600 == s.now / 600
    ensures InWindow(BootLog(now, week, lastWeek), s)
  {
    hide SecondOk;
  }

  /* ---- the accumulation as the code runs it ---- */

  class QualLogData {
    var q10m: Record
    var qw: Weekly
    var lastWeek: Weekly
    var tsChanged: bool

    function State(): Log
      reads this
    {
      Log(q10m, qw, lastWeek)
    }

    method TimeStampChanged()
      modifies `tsChanged
      ensures tsChanged
    {
      tsChanged := true;
    }

    /** Called once a second; 1 at a ten-minute boundary. */
    method UpdateQualData(now: nat, x: Sample, l: Limits, active: bool, rolled: bool) returns (res: int)
      requires Clocked(State()) && SampleOk(x) && LimitsOk(l)
      modifies this
      ensures var s := Second(now, x, l, old(tsChanged), active, rolled);
              && Clocked(old(State())) && SecondOk(s)
              && (Boundary(old(State()), s) ==> |Gather(old(State()), s).slots| > 0)
              && State() == Tick(old(State()), s)
              && (res == 1 <==> Boundary(old(State()), s)) && (res == 0 || res == 1)
              && tsChanged == (old(tsChanged) && res == 0)
      ensures Clocked(State())
    {
      ghost var s := Second(now, x, l, tsChanged, active, rolled);
      BoundaryHasSlot(State(), s);
      hide Gather, Checked, AddToWeek, SampleOk, LimitsOk;
      GatherSecond(s, now, x, l);
      if q10m.ts10m != now / 600 || tsChanged {
        tsChanged := false;
        CloseRecord(now, l, active, rolled);
        return 1;
      }
      return 0;
    }

    /** The counting, the ten-second check and the sums of one second. */
    method GatherSecond(ghost s: Second, now: nat, x: Sample, l: Limits)
      requires RecordOk(q10m) && SecondOk(s) && s.now == now && s.x == x && s.l == l && s.changed == tsChanged
      modifies `q10m
      ensures q10m == Gather(old(State()), s) && RecordOk(q10m) && q10m.ts10m == old(q10m).ts10m && q10m.count10m > 0
    {
      hide TenSeconds, Summed;
      q10m := q10m.(count10m := q10m.count10m + 1, freqSum := q10m.freqSum + x.freq, count10s := q10m.count10s + 1);
      if q10m.ts10s != now / 10 || tsChanged {
        TenSecondsShape(q10m, now / 10, x, l);
        q10m := TenSeconds(q10m, now / 10, x, l);
      }
      SummedShape(q10m, x);
      q10m := Summed(q10m, x);
    }

    /** The ten-minute checks, the weekly sums and the fresh record. */
    method CloseRecord(now: nat, l: Limits, active: bool, rolled: bool)
      requires RecordOk(q10m) && q10m.count10m > 0 && LimitsOk(l) && |qw.ten| == CHANNELS && qw.count10s + |q10m.slots| > 0
      modifies `q10m, `qw, `lastWeek
      ensures var w := if active then AddToWeek(old(qw), Checked(old(q10m), l)) else old(qw);
              && qw == (if active && rolled then NewWeek() else w)
              && lastWeek == (if active && rolled then w else old(lastWeek))
      ensures q10m == Fresh(now / 600, old(q10m).ts10s, old(q10m).count10s)
    {
      var ten := CheckChannels(q10m, l);
      q10m := q10m.(ten := ten);
      if active {
        qw := UpdateQualWeek(qw, q10m);
        if rolled {
          lastWeek := qw;
          qw := NewWeek();
        }
      }
      q10m := Fresh(now / 600, q10m.ts10s, q10m.count10s);
    }
  }

  lemma TenSecondsShape(r: Record, tick10s: nat, x: Sample, l: Limits)
    requires RecordOk(r) && SampleOk(x) && LimitsOk(l) && r.count10s > 0
    ensures var r' := TenSeconds(r, tick10s, x, l);
            RecordOk(r') && r'.ts10m == r.ts10m && r'.count10m == r.count10m
  {
  }

  lemma SummedShape(r: Record, x: Sample)
    requires RecordOk(r) && SampleOk(x) && r.count10m > 0
    ensures var r' := Summed(r, x); RecordOk(r') && r'.ts10m == r.ts10m && r'.count10m == r.count10m
  {
  }

  /** The ten-minute loops: one update for each phase and channel, the harmonics stopping at the first error. */
  method CheckChannels(r: Record, l: Limits) returns (ten: seq<Variation>)
    requires RecordOk(r) && LimitsOk(l) && r.count10m > 0
    ensures ten == Checked(r, l).ten
  {
    ten := r.ten;
    for i := 0 to 3
      invariant |ten| == CHANNELS
      invariant forall k :: 0 <= k < CHANNELS ==> ten[k] == if k < i || 3 <= k < 3 + i then Checked(r, l).ten[k] else r.ten[k]
    {
      ten := ten[i := Bump(ten[i], Outside(r.avgU[i], l.uLo[0], l.uHi[0]), r.count10m)];
      ten := ten[3 + i := Bump(ten[3 + i], Outside(r.avgU[i], l.uLo[1], l.uHi[1]), r.count10m)];
    }
    ten := ten[6 := Bump(ten[6], Outside(r.avgUbal, 0.0, 2.0), r.count10m)];
    for i := 0 to 3
      invariant |ten| == CHANNELS
      invariant forall k :: 0 <= k < CHANNELS ==> ten[k] == if k < 7 + i then Checked(r, l).ten[k] else r.ten[k]
    {
      ten := ten[7 + i := Bump(ten[7 + i], Outside(r.avgUthd[i], 0.0, 8.0), r.count10m)];
    }
    for i := 0 to 3
      invariant |ten| == CHANNELS
      invariant forall k :: 0 <= k < CHANNELS ==> ten[k] == if k < 10 + i then Checked(r, l).ten[k] else r.ten[k]
    {
      var j := 0;
      while j < 24 && !Outside(r.avgUhd[i][j], 0.0, l.harm[j])
        invariant 0 <= j <= 24
        invariant forall m :: 0 <= m < j ==> !Outside(r.avgUhd[i][m], 0.0, l.harm[m])
      {
        j := j + 1;
      }
      ten := ten[10 + i := Bump(ten[10 + i], j < 24, r.count10m)];
    }
  }

  method UpdateQualWeek(w: Weekly, r: Record) returns (w': Weekly)
    requires |w.ten| == CHANNELS && |r.ten| == CHANNELS && w.count10s + |r.slots| > 0
    ensures w' == AddToWeek(w, r)
  {
    var n10m, n10s := w.count10m + 1, w.count10s + |r.slots|;
    var ten := w.ten;
    for k := 0 to CHANNELS
      invariant |ten| == CHANNELS
      invariant forall m :: 0 <= m < CHANNELS ==> ten[m] == if m < k then AddToWeek(w, r).ten[m] else w.ten[m]
    {
      ten := ten[k := AddErrors(ten[k], r.ten[k].err, n10m)];
    }
    w' := Weekly(n10s, n10m, w.complete || n10m >= 1008,
                 AddErrors(w.freq1, r.freq1.err, n10s), AddErrors(w.freq2, r.freq2.err, n10s), ten);
  }
}
