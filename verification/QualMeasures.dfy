/** The weekly counts of src/Quality.c against the measurements themselves: sums and means over the seconds of each
    ten minutes, cut by the clock alone, and the limits as they apply to them. */
module QualMeasures {
  import opened QualCounters

  /* ---- cutting the seconds by the clock ---- */

  /** The second before the next one: the last of these, or else the one given. */
  function LastTime(before: nat, ss: seq<Second>): nat { if ss == [] then before else ss[|ss| - 1].now }

  /** A second that ends ten seconds: the clock is in another ten than one call ago, or was set. */
  predicate EndsTen(before: nat, s: Second) { s.changed || s.now / 10 != before / 10 }

  /** A second that ends ten minutes. */
  predicate EndsTenMinutes(before: nat, s: Second) { s.changed || s.now / 600 != before / 600 }

  /** The seconds since the last that ended ten. */
  function Rest(before: nat, ss: seq<Second>): (r: seq<Second>)
    ensures ss != [] && EndsTen(LastTime(before, ss[..|ss| - 1]), ss[|ss| - 1]) ==> r == []
    decreases |ss|
  {
    if ss == [] || EndsTen(LastTime(before, ss[..|ss| - 1]), ss[|ss| - 1]) then []
    else Rest(before, ss[..|ss| - 1]) + [ss[|ss| - 1]]
  }

  /** The groups of seconds that end so. */
  function Groups(before: nat, ss: seq<Second>): seq<seq<Second>>
    decreases |ss|
  {
    if ss == [] then []
    else
      var init, s := ss[..|ss| - 1], ss[|ss| - 1];
      Groups(before, init) + (if EndsTen(LastTime(before, init), s) then [Rest(before, init) + [s]] else [])
  }

  /* ---- sums and means ---- */

  function SumFreq(ss: seq<Second>): real
    decreases |ss|
  {
    if ss == [] then 0.0 else SumFreq(ss[..|ss| - 1]) + ss[|ss| - 1].x.freq
  }

  function SumU(ss: seq<Second>, p: nat): real
    requires AllSecondsOk(ss) && p < 3
    decreases |ss|
  {
    if ss == [] then 0.0 else SumU(ss[..|ss| - 1], p) + ss[|ss| - 1].x.u[p]
  }

  function SumUbal(ss: seq<Second>): real
    decreases |ss|
  {
    if ss == [] then 0.0 else SumUbal(ss[..|ss| - 1]) + ss[|ss| - 1].x.ubal
  }

  predicate AllSecondsOk(ss: seq<Second>) { forall i :: 0 <= i < |ss| ==> SecondOk(ss[i]) }

  function MeanFreq(ss: seq<Second>): real { if ss == [] then 0.0 else SumFreq(ss) / |ss| as real }

  function Means(groups: seq<seq<Second>>): seq<real> {
    seq(|groups|, i requires 0 <= i < |groups| => MeanFreq(groups[i]))
  }

  /** The group's mean frequency is outside the limits b in force at its last second. */
  predicate GroupOut(group: seq<Second>, b: nat) {
    && group != []
    && var l := group[|group| - 1].l;
       && b < |l.fLo| && b < |l.fHi| && (MeanFreq(group) < l.fLo[b] || MeanFreq(group) > l.fHi[b])
  }

  function GroupsOut(groups: seq<seq<Second>>, b: nat): nat
    decreases |groups|
  {
    if groups == [] then 0
    else GroupsOut(groups[..|groups| - 1], b) + (if GroupOut(groups[|groups| - 1], b) then 1 else 0)
  }

  /* ---- the record under way ---- */

  predicate FreqMeasured(r: Record, groups: seq<seq<Second>>) {
    r.slots == Means(groups) && r.freq1.err == GroupsOut(groups, 0) && r.freq2.err == GroupsOut(groups, 1)
  }

  predicate Averaged(r: Record, ss: seq<Second>)
    requires RecordOk(r) && AllSecondsOk(ss) && ss != []
  {
    && (forall p :: 0 <= p < 3 ==> r.avgU[p] == SumU(ss, p) / |ss| as real)
    && r.avgUbal == SumUbal(ss) / |ss| as real
  }

  lemma RestNext(before: nat, ss: seq<Second>, s: Second)
    ensures var rest := Rest(before, ss) + [s];
            && Rest(before, ss + [s]) == (if EndsTen(LastTime(before, ss), s) then [] else rest)
            && Groups(before, ss + [s]) == Groups(before, ss) + (if EndsTen(LastTime(before, ss), s) then [rest] else [])
  {
    assert (ss + [s])[..|ss|] == ss;
  }

  lemma SumsNext(ss: seq<Second>, s: Second)
    requires AllSecondsOk(ss) && SecondOk(s)
    ensures AllSecondsOk(ss + [s])
    ensures SumFreq(ss + [s]) == SumFreq(ss) + s.x.freq && SumUbal(ss + [s]) == SumUbal(ss) + s.x.ubal
    ensures forall p :: 0 <= p < 3 ==> SumU(ss + [s], p) == SumU(ss, p) + s.x.u[p]
  {
    assert (ss + [s])[..|ss|] == ss;
  }

  lemma GroupsNext(groups: seq<seq<Second>>, group: seq<Second>)
    ensures Means(groups + [group]) == Means(groups) + [MeanFreq(group)]
    ensures forall b: nat :: GroupsOut(groups + [group], b) == GroupsOut(groups, b) + (if GroupOut(group, b) then 1 else 0)
  {
    hide GroupOut, MeanFreq;
    assert (groups + [group])[..|groups|] == groups;
  }

  lemma TenSecondsStores(r: Record, tick10s: nat, x: Sample, l: Limits)
    requires RecordOk(r) && SampleOk(x) && LimitsOk(l) && r.count10s > 0 && |r.slots| < N_FREQ
    ensures var f, r' := r.freqSum / r.count10s as real, TenSeconds(r, tick10s, x, l);
            && r'.slots == r.slots + [f]
            && r'.freq1.err == r.freq1.err + (if f < l.fLo[0] || f > l.fHi[0] then 1 else 0)
            && r'.freq2.err == r.freq2.err + (if f < l.fLo[1] || f > l.fHi[1] then 1 else 0)
  {
  }

  lemma GroupOutIs(group: seq<Second>, f: real)
    requires group != [] && f == MeanFreq(group) && LimitsOk(group[|group| - 1].l)
    ensures var l := group[|group| - 1].l;
            && (GroupOut(group, 0) <==> f < l.fLo[0] || f > l.fHi[0])
            && (GroupOut(group, 1) <==> f < l.fLo[1] || f > l.fHi[1])
  {
    hide MeanFreq;
  }

  lemma MeanIs(group: seq<Second>, sum: real, n: nat)
    requires group != [] && sum == SumFreq(group) && n == |group|
    ensures sum / n as real == MeanFreq(group)
  {
    hide SumFreq;
  }

  /** The ten-second step stores the mean of its group and counts it if it is out. */
  lemma TenSecondsMeasures(r: Record, groups: seq<seq<Second>>, group: seq<Second>, s: Second)
    requires RecordOk(r) && SecondOk(s) && FreqMeasured(r, groups) && |r.slots| < N_FREQ
    requires group != [] && group[|group| - 1] == s && r.count10s == |group| && r.freqSum == SumFreq(group)
    ensures FreqMeasured(TenSeconds(r, s.now / 10, s.x, s.l), groups + [group])
  {
    MeanIs(group, r.freqSum, r.count10s);
    hide MeanFreq;
    TenSecondsStores(r, s.now / 10, s.x, s.l);
    hide TenSeconds, SumFreq;
    GroupOutIs(group, r.freqSum / r.count10s as real);
    hide GroupOut, LimitsOk, SampleOk, RecordOk;
    GroupsNext(groups, group);
    hide Means, GroupsOut;
  }

  lemma SummedSets(r: Record, x: Sample)
    requires RecordOk(r) && SampleOk(x) && r.count10m > 0
    ensures var r', n := Summed(r, x), r.count10m as real;
            && RecordOk(r') && r'.ubalSum == r.ubalSum + x.ubal && r'.avgUbal == r'.ubalSum / n
            && (forall p :: 0 <= p < 3 ==> r'.uSum[p] == r.uSum[p] + x.u[p] && r'.avgU[p] == r'.uSum[p] / n)
            && r' == r.(uSum := r'.uSum, ubalSum := r'.ubalSum, avgU := r'.avgU, avgUbal := r'.avgUbal)
  {
    assert Summed(r, x).uSum == [r.uSum[0] + x.u[0], r.uSum[1] + x.u[1], r.uSum[2] + x.u[2]];
  }

  lemma SummedMeasures(r: Record, ss: seq<Second>, s: Second)
    requires RecordOk(r) && AllSecondsOk(ss) && SecondOk(s) && r.count10m == |ss| + 1
    requires r.ubalSum == SumUbal(ss) && forall p :: 0 <= p < 3 ==> r.uSum[p] == SumU(ss, p)
    ensures AllSecondsOk(ss + [s])
    ensures var r' := Summed(r, s.x);
            && RecordOk(r') && r'.ubalSum == SumUbal(ss + [s]) && (forall p :: 0 <= p < 3 ==> r'.uSum[p] == SumU(ss + [s], p))
            && Averaged(r', ss + [s])
            && r' == r.(uSum := r'.uSum, ubalSum := r'.ubalSum, avgU := r'.avgU, avgUbal := r'.avgUbal)
  {
    hide SumU, SumUbal, LimitsOk, Summed, RecordOk, SampleOk;
    SumsNext(ss, s);
    SummedSets(r, s.x);
    assert |ss + [s]| == r.count10m;
  }

  lemma RestOk(before: nat, ss: seq<Second>)
    requires AllSecondsOk(ss)
    ensures AllSecondsOk(Rest(before, ss))
    decreases |ss|
  {
    hide SecondOk, EndsTen;
    if ss != [] { RestOk(before, ss[..|ss| - 1]); }
  }

  lemma TenSecondsSets(r: Record, tick10s: nat, x: Sample, l: Limits)
    requires RecordOk(r) && SampleOk(x) && LimitsOk(l) && r.count10s > 0
    ensures var r' := TenSeconds(r, tick10s, x, l);
            && RecordOk(r') && r'.count10m == r.count10m && r'.uSum == r.uSum && r'.ubalSum == r.ubalSum
            && r'.count10s == 0 && r'.freqSum == 0.0 && r'.avgUthd == x.uthd && r'.avgUhd == x.uhd
  {
  }

  lemma FreqKept(r: Record, r': Record, groups: seq<seq<Second>>)
    requires r'.slots == r.slots && r'.freq1 == r.freq1 && r'.freq2 == r.freq2
    ensures FreqMeasured(r', groups) <==> FreqMeasured(r, groups)
  {
  }

  lemma NoSum()
    ensures SumFreq([]) == 0.0
  {
  }

  /** The sums and means of a record, without its ten-second part. */
  predicate SumsMeasured(r: Record, ss: seq<Second>)
    requires AllSecondsOk(ss)
  {
    && RecordOk(r)
    && r.count10m == |ss| && r.ubalSum == SumUbal(ss) && (forall p :: 0 <= p < 3 ==> r.uSum[p] == SumU(ss, p))
    && (ss != [] ==> Averaged(r, ss))
  }

  /** Its ten-second part. */
  predicate TensMeasured(r: Record, before: nat, ss: seq<Second>) {
    && r.count10s == |Rest(before, ss)| && r.freqSum == SumFreq(Rest(before, ss))
    && FreqMeasured(r, Groups(before, ss))
    && (ss != [] && EndsTen(LastTime(before, ss[..|ss| - 1]), ss[|ss| - 1]) ==>
          r.avgUthd == ss[|ss| - 1].x.uthd && r.avgUhd == ss[|ss| - 1].x.uhd)
  }

  /** The counting that opens a second. */
  function Counted(r: Record, s: Second): Record {
    r.(count10m := r.count10m + 1, freqSum := r.freqSum + s.x.freq, count10s := r.count10s + 1)
  }

  lemma TensStep(r: Record, before: nat, ss: seq<Second>, s: Second)
    requires RecordOk(r) && SecondOk(s) && TensMeasured(r, before, ss) && |r.slots| < N_FREQ
    requires EndsTen(LastTime(before, ss), s)
    ensures TensMeasured(TenSeconds(Counted(r, s), s.now / 10, s.x, s.l), before, ss + [s])
  {
    var rest := Rest(before, ss);
    RestNext(before, ss, s);
    SumFreqNext(rest, s);
    NoSum();
    TenSecondsSets(Counted(r, s), s.now / 10, s.x, s.l);
    assert (ss + [s])[..|ss|] == ss;
    hide Rest, Groups, SumFreq, TenSeconds, SampleOk, LimitsOk;
    FreqKept(r, Counted(r, s), Groups(before, ss));
    TenSecondsMeasures(Counted(r, s), Groups(before, ss), rest + [s], s);
    hide FreqMeasured;
  }

  lemma TensWait(r: Record, before: nat, ss: seq<Second>, s: Second)
    requires TensMeasured(r, before, ss) && !EndsTen(LastTime(before, ss), s)
    ensures TensMeasured(Counted(r, s), before, ss + [s])
  {
    hide Rest, Groups, SumFreq, Means, GroupsOut;
    RestNext(before, ss, s);
    SumFreqNext(Rest(before, ss), s);
    assert (ss + [s])[..|ss|] == ss && (ss + [s])[|ss|] == s;
    assert Groups(before, ss) + [] == Groups(before, ss);
    FreqKept(r, Counted(r, s), Groups(before, ss));
    hide FreqMeasured;
  }

  lemma SumFreqNext(ss: seq<Second>, s: Second)
    ensures SumFreq(ss + [s]) == SumFreq(ss) + s.x.freq
  {
    assert (ss + [s])[..|ss|] == ss;
  }

  lemma TensKept(r: Record, r': Record, before: nat, ss: seq<Second>)
    requires TensMeasured(r, before, ss)
    requires r' == r.(uSum := r'.uSum, ubalSum := r'.ubalSum, avgU := r'.avgU, avgUbal := r'.avgUbal)
    ensures TensMeasured(r', before, ss)
  {
    hide Rest, Groups, Means, GroupsOut, SumFreq;
  }

  lemma SumsStep(r: Record, ss: seq<Second>, s: Second)
    requires RecordOk(r) && AllSecondsOk(ss) && SecondOk(s) && r.count10m == |ss| + 1
    requires r.ubalSum == SumUbal(ss) && forall p :: 0 <= p < 3 ==> r.uSum[p] == SumU(ss, p)
    ensures AllSecondsOk(ss + [s]) && SumsMeasured(Summed(r, s.x), ss + [s])
  {
    SummedMeasures(r, ss, s);
    hide Summed, SumU, SumUbal, Averaged, RecordOk;
    assert |ss + [s]| == |ss| + 1;
  }

  /** One second more. */
  lemma GatherMeasures(g: Log, prev: nat, s: Second, before: nat, ss: seq<Second>)
    requires InStep(g, prev) && SecondOk(s) && AllSecondsOk(ss) && LastTime(before, ss) == prev
    requires s.changed || s.now / 600 != prev / 600 || s.now / 10 >= prev / 10
    requires SumsMeasured(g.record, ss) && TensMeasured(g.record, before, ss)
    ensures AllSecondsOk(ss + [s]) && SumsMeasured(Gather(g, s), ss + [s]) && TensMeasured(Gather(g, s), before, ss + [s])
  {
    var r := Counted(g.record, s);
    hide TensMeasured, SumsMeasured, TenSeconds, Summed, Fraction, SampleOk, LimitsOk;
    var mid := if EndsTen(prev, s) then TenSeconds(r, s.now / 10, s.x, s.l) else r;
    if EndsTen(prev, s) {
      TensStep(g.record, before, ss, s);
      TenSecondsSets(r, s.now / 10, s.x, s.l);
    } else {
      TensWait(g.record, before, ss, s);
    }
    assert Gather(g, s) == Summed(mid, s.x);
    SumsOf(g.record, ss);
    hide Gather;
    SumsStep(mid, ss, s);
    SummedSets(mid, s.x);
    TensKept(mid, Summed(mid, s.x), before, ss + [s]);
  }

  lemma SumsOf(r: Record, ss: seq<Second>)
    requires AllSecondsOk(ss) && SumsMeasured(r, ss)
    ensures RecordOk(r) && r.count10m == |ss| && r.ubalSum == SumUbal(ss) && forall p :: 0 <= p < 3 ==> r.uSum[p] == SumU(ss, p)
  {
    hide SumU, SumUbal, Averaged;
  }

  /* ---- the ten minutes of a week ---- */

  /** Ten minutes that were closed: the time before them and their seconds. */
  datatype Window = Window(before: nat, ss: seq<Second>)

  predicate WindowOk(w: Window) { w.ss != [] && AllSecondsOk(w.ss) }

  /** The measurements of channel k are out of limits over these ten minutes: voltages and unbalance by their means over
      all seconds, distortion and harmonics by their values at the last one. */
  predicate WindowOut(w: Window, k: nat)
    requires WindowOk(w)
  {
    var n, s := |w.ss| as real, w.ss[|w.ss| - 1];
    if k < 3 then SumU(w.ss, k) / n < s.l.uLo[0] || SumU(w.ss, k) / n > s.l.uHi[0]
    else if k < 6 then SumU(w.ss, k - 3) / n < s.l.uLo[1] || SumU(w.ss, k - 3) / n > s.l.uHi[1]
    else if k == 6 then SumUbal(w.ss) / n < 0.0 || SumUbal(w.ss) / n > 2.0
    else if k < 10 then s.x.uthd[k - 7] < 0.0 || s.x.uthd[k - 7] > 8.0
    else if k < 13 then exists j :: 0 <= j < 24 && (s.x.uhd[k - 10][j] < 0.0 || s.x.uhd[k - 10][j] > s.l.harm[j])
    else false
  }

  predicate WindowsOk(ws: seq<Window>) { forall i :: 0 <= i < |ws| ==> WindowOk(ws[i]) }

  function WindowsOut(ws: seq<Window>, k: nat): nat
    requires WindowsOk(ws)
    decreases |ws|
  {
    if ws == [] then 0 else WindowsOut(ws[..|ws| - 1], k) + (if WindowOut(ws[|ws| - 1], k) then 1 else 0)
  }

  /** The ten-second groups of all the ten minutes, and those out of the frequency limits b. */
  function AllGroups(ws: seq<Window>): nat
    decreases |ws|
  {
    if ws == [] then 0 else AllGroups(ws[..|ws| - 1]) + |Groups(ws[|ws| - 1].before, ws[|ws| - 1].ss)|
  }

  function AllGroupsOut(ws: seq<Window>, b: nat): nat
    decreases |ws|
  {
    if ws == [] then 0 else AllGroupsOut(ws[..|ws| - 1], b) + GroupsOut(Groups(ws[|ws| - 1].before, ws[|ws| - 1].ss), b)
  }

  /** The record of a closing is that of the ten minutes, which its last second ended. */
  predicate ClosingOf(c: Closing, w: Window) {
    && WindowOk(w) && ClosingOk(c) && c.l == w.ss[|w.ss| - 1].l
    && SumsMeasured(c.r, w.ss) && TensMeasured(c.r, w.before, w.ss)
    && EndsTen(LastTime(w.before, w.ss[..|w.ss| - 1]), w.ss[|w.ss| - 1])
  }

  lemma ClosingOut(c: Closing, w: Window, k: nat)
    requires ClosingOf(c, w) && k < CHANNELS
    ensures ChannelOut(c.r, c.l, k) <==> WindowOut(w, k)
  {
    hide SumU, SumUbal, Rest, Groups, FreqMeasured, SumFreq;
  }

  lemma ClosingGroups(c: Closing, w: Window)
    requires ClosingOf(c, w)
    ensures var gs := Groups(w.before, w.ss);
            |c.r.slots| == |gs| && c.r.freq1.err == GroupsOut(gs, 0) && c.r.freq2.err == GroupsOut(gs, 1)
  {
    hide SumsMeasured, Rest, Groups, GroupsOut, SumFreq, MeanFreq;
  }

  predicate Matching(cs: seq<Closing>, ws: seq<Window>) {
    |cs| == |ws| && forall i :: 0 <= i < |cs| ==> ClosingOf(cs[i], ws[i])
  }

  lemma MatchingOk(cs: seq<Closing>, ws: seq<Window>)
    requires Matching(cs, ws)
    ensures AllOk(cs) && WindowsOk(ws)
  {
    hide SumsMeasured, TensMeasured;
  }

  lemma {:induction false} MatchingOuts(cs: seq<Closing>, ws: seq<Window>, k: nat)
    requires Matching(cs, ws) && AllOk(cs) && WindowsOk(ws) && k < CHANNELS
    ensures Outs(cs, k) == WindowsOut(ws, k)
    decreases |cs|
  {
    hide ClosingOf, WindowOut, ChannelOut, ClosingOk, WindowOk;
    if cs != [] {
      MatchingOuts(cs[..|cs| - 1], ws[..|ws| - 1], k);
      ClosingOut(cs[|cs| - 1], ws[|ws| - 1], k);
    }
  }

  lemma {:induction false} MatchingGroups(cs: seq<Closing>, ws: seq<Window>)
    requires Matching(cs, ws)
    ensures Slots(cs) == AllGroups(ws) && FreqErrors(cs) == (AllGroupsOut(ws, 0), AllGroupsOut(ws, 1))
    decreases |cs|
  {
    hide ClosingOf, Groups, GroupsOut;
    if cs != [] {
      MatchingGroups(cs[..|cs| - 1], ws[..|ws| - 1]);
      ClosingGroups(cs[|cs| - 1], ws[|ws| - 1]);
    }
  }

  /** The week's counts are those of some closings whose measurements are these. */
  ghost predicate WeekMeasured(w: Weekly, ws: seq<Window>) {
    exists cs :: Tallied(w, cs) && Matching(cs, ws)
  }

  /* ---- following the clock ---- */

  /** The ten minutes under way, and those of the running week and of the last week closed, if one was. */
  datatype Track = Track(open: Window, week: seq<Window>, closed: bool, last: seq<Window>)

  function Follow(t: Track, prev: nat, s: Second): Track {
    var ss := t.open.ss + [s];
    if !EndsTenMinutes(prev, s) then t.(open := Window(t.open.before, ss))
    else
      var next := Window(s.now, []);
      var week := t.week + [Window(t.open.before, ss)];
      if !s.active then t.(open := next)
      else if s.rolled then Track(next, [], true, week)
      else t.(open := next, week := week)
  }

  function FollowAll(t: Track, prev: nat, ss: seq<Second>): Track
    decreases |ss|
  {
    if ss == [] then t else FollowAll(Follow(t, prev, ss[0]), ss[0].now, ss[1..])
  }

  ghost predicate Follows(g: Log, prev: nat, t: Track) {
    && AllSecondsOk(t.open.ss) && LastTime(t.open.before, t.open.ss) == prev
    && SumsMeasured(g.record, t.open.ss) && TensMeasured(g.record, t.open.before, t.open.ss)
    && WeekMeasured(g.week, t.week) && (t.closed ==> WeekMeasured(g.lastWeek, t.last))
  }

  lemma LastTimeNext(before: nat, ss: seq<Second>, s: Second)
    ensures LastTime(before, ss + [s]) == s.now && (ss + [s])[..|ss|] == ss
  {
  }

  /** A ten-minute end is a ten-second one. */
  lemma EndsBoth(prev: nat, s: Second)
    ensures EndsTenMinutes(prev, s) ==> EndsTen(prev, s)
  {
    assert s.now / 600 == s.now / 10 / 60 && prev / 600 == prev / 10 / 60;
  }

  /** The closing of the ten minutes that this second ends. */
  lemma ClosingHere(g: Log, prev: nat, s: Second, w: Window)
    requires InStep(g, prev) && SecondOk(s) && AllSecondsOk(w.ss) && LastTime(w.before, w.ss) == prev
    requires SumsMeasured(g.record, w.ss) && TensMeasured(g.record, w.before, w.ss) && EndsTenMinutes(prev, s)
    ensures ClosingOf(Closing(Gather(g, s), s.l), Window(w.before, w.ss + [s]))
  {
    GatherMeasures(g, prev, s, w.before, w.ss);
    EndsBoth(prev, s);
    LastTimeNext(w.before, w.ss, s);
    SumsOf(Gather(g, s), w.ss + [s]);
    hide Gather, SumsMeasured, TensMeasured, InStep, EndsTen, EndsTenMinutes, RecordOk, SampleOk;
  }

  lemma FreshMeasured(tick10m: nat, tick10s: nat, now: nat)
    ensures SumsMeasured(Fresh(tick10m, tick10s, 0), []) && TensMeasured(Fresh(tick10m, tick10s, 0), now, [])
  {
    assert Means([]) == [];
  }

  lemma WeekMeasuredNext(w: Weekly, ws: seq<Window>, c: Closing, wd: Window)
    requires WeekMeasured(w, ws) && ClosingOf(c, wd) && c.r.count10m > 0 && |c.r.slots| > 0
    requires forall k :: 0 <= k < CHANNELS ==> c.r.ten[k] == Clear
    ensures WeekMeasured(AddToWeek(w, Checked(c.r, c.l)), ws + [wd])
  {
    hide Tallied, ClosingOf, AddToWeek, Checked, Matching;
    var cs :| Tallied(w, cs) && Matching(cs, ws);
    ClosingIsOk(c, wd);
    WeekTallies(w, cs, c);
    MatchingNext(cs, ws, c, wd);
  }

  lemma ClosingIsOk(c: Closing, wd: Window)
    requires ClosingOf(c, wd)
    ensures ClosingOk(c)
  {
    hide SumsMeasured, TensMeasured;
  }

  lemma MatchingNext(cs: seq<Closing>, ws: seq<Window>, c: Closing, wd: Window)
    requires Matching(cs, ws) && ClosingOf(c, wd)
    ensures Matching(cs + [c], ws + [wd])
  {
    hide ClosingOf;
  }

  lemma NewWeekMeasured()
    ensures WeekMeasured(NewWeek(), [])
  {
    NewWeekTallied();
    hide Tallied;
    assert Matching([], []);
  }

  /** Where the ten minutes go on, nothing else changes. */
  lemma FollowOpen(g: Log, prev: nat, s: Second, t: Track)
    requires InStep(g, prev) && SecondOk(s) && Follows(g, prev, t) && !EndsTenMinutes(prev, s)
    requires s.changed || s.now / 600 != prev / 600 || s.now / 10 >= prev / 10
    ensures !Boundary(g, s) && Follows(Tick(g, s), s.now, Follow(t, prev, s))
  {
    GatherMeasures(g, prev, s, t.open.before, t.open.ss);
    LastTimeNext(t.open.before, t.open.ss, s);
    hide Gather, SumsMeasured, TensMeasured, WeekMeasured, Fraction, SampleOk, LimitsOk;
  }

  lemma FollowClose(g: Log, prev: nat, s: Second, t: Track)
    requires InStep(g, prev) && SecondOk(s) && Follows(g, prev, t) && EndsTenMinutes(prev, s)
    ensures Boundary(g, s) && |Gather(g, s).slots| > 0 && Follows(Tick(g, s), s.now, Follow(t, prev, s))
  {
    var c, wd := Closing(Gather(g, s), s.l), Window(t.open.before, t.open.ss + [s]);
    ClosingHere(g, prev, s, t.open);
    GatherKeeps(g, s);
    GatherDone(g, prev, s);
    FreshMeasured(s.now / 600, s.now / 10, s.now);
    NewWeekMeasured();
    hide Gather, SumsMeasured, TensMeasured, WeekMeasured, Checked, AddToWeek, ClosingOf, Fresh, Fraction, SampleOk, LimitsOk;
    WeekMeasuredNext(g.week, t.week, c, wd);
  }

  /** A boundary second leaves no sum behind. */
  lemma GatherDone(g: Log, prev: nat, s: Second)
    requires InStep(g, prev) && SecondOk(s) && EndsTenMinutes(prev, s)
    ensures Gather(g, s).count10s == 0 && Gather(g, s).ts10s == s.now / 10
  {
    EndsBoth(prev, s);
  }

  lemma FollowStep(g: Log, prev: nat, s: Second, t: Track)
    requires InStep(g, prev) && SecondOk(s) && Follows(g, prev, t)
    requires s.changed || s.now / 600 != prev / 600 || s.now / 10 >= prev / 10
    ensures Boundary(g, s) ==> |Gather(g, s).slots| > 0
    ensures Follows(Tick(g, s), s.now, Follow(t, prev, s))
  {
    hide Follows, Follow, Tick, Gather;
    if EndsTenMinutes(prev, s) { FollowClose(g, prev, s, t); } else { FollowOpen(g, prev, s, t); }
  }

  lemma {:induction false} RunFollows(g: Log, prev: nat, ss: seq<Second>, t: Track)
    requires InStep(g, prev) && Steady(prev, ss) && Follows(g, prev, t)
    ensures Follows(After(g, prev, ss), LastTime(prev, ss), FollowAll(t, prev, ss))
    decreases |ss|
  {
    hide Gather, Tick, Follow, Follows, Fraction, SampleOk, LimitsOk;
    if ss != [] {
      TickInStep(g, prev, ss[0]);
      FollowStep(g, prev, ss[0], t);
      RunFollows(Tick(g, ss[0]), ss[0].now, ss[1..], Follow(t, prev, ss[0]));
    }
  }

  /* ---- main result ---- */

  /** What a week must report, by its measurements alone. */
  predicate Reports(w: Weekly, ws: seq<Window>)
    requires WindowsOk(ws)
  {
    && w.count10m == |ws| && w.count10s == AllGroups(ws) && (w.complete <==> |ws| >= 1008)
    && w.freq1.err == AllGroupsOut(ws, 0) && w.freq2.err == AllGroupsOut(ws, 1)
    && |w.ten| == 22 && forall k :: 0 <= k < 22 ==> w.ten[k].err == WindowsOut(ws, k)
  }

  lemma MeasuredReports(w: Weekly, ws: seq<Window>)
    requires WeekMeasured(w, ws)
    ensures WindowsOk(ws) && Reports(w, ws)
  {
    var cs :| Tallied(w, cs) && Matching(cs, ws);
    MatchingOk(cs, ws);
    MatchingGroups(cs, ws);
    hide Matching, WindowsOut, Outs, Slots, FreqErrors, AllGroups, AllGroupsOut;
    forall k | 0 <= k < 22 ensures w.ten[k].err == WindowsOut(ws, k) { MatchingOuts(cs, ws, k); }
  }

  /** The good ones among count in hundredths of a percent, rounded down. */
  function GoodShare(err: int, count: nat): int
    requires count > 0
  {
    10000 * (count - err) / count
  }

  predicate Percents(w: Weekly, ws: seq<Window>)
    requires WindowsOk(ws) && |w.ten| == 22
  {
    && (ws != [] ==> forall k :: 0 <= k < 22 ==> Percent(w.ten[k]) == GoodShare(WindowsOut(ws, k), |ws|))
    && (AllGroups(ws) > 0 ==>
          && Percent(w.freq1) == GoodShare(AllGroupsOut(ws, 0), AllGroups(ws))
          && Percent(w.freq2) == GoodShare(AllGroupsOut(ws, 1), AllGroups(ws)))
  }

  lemma SharePercent(v: Variation, err: nat, count: nat)
    requires Share(v, err, count) && Fraction(v, count) && count > 0
    ensures Percent(v) == GoodShare(err, count)
  {
    hide Percent;
    PercentExactly(err, count);
    assert v == Variation(err, err as real / count as real);
  }

  lemma TallyShare(w: Weekly, cs: seq<Closing>, k: nat)
    requires Tallied(w, cs) && WeekOk(w) && k < 22
    ensures Share(w.ten[k], Outs(cs, k), |cs|) && Fraction(w.ten[k], |cs|)
  {
    hide Share, Fraction, Outs, Slots, FreqErrors;
  }

  lemma TenPercents(w: Weekly, cs: seq<Closing>, ws: seq<Window>, k: nat)
    requires Tallied(w, cs) && Matching(cs, ws) && WeekOk(w) && WindowsOk(ws) && ws != [] && k < 22
    ensures |w.ten| == 22 && Percent(w.ten[k]) == GoodShare(WindowsOut(ws, k), |ws|)
  {
    hide Outs, WindowsOut, Percent, ClosingOf, Slots, FreqErrors, Share, Fraction, GoodShare, ClosingOk, WindowOk;
    MatchingOuts(cs, ws, k);
    TallyShare(w, cs, k);
    SharePercent(w.ten[k], Outs(cs, k), |cs|);
  }

  lemma FreqPercents(w: Weekly, cs: seq<Closing>, ws: seq<Window>)
    requires Tallied(w, cs) && Matching(cs, ws) && WeekOk(w)
    ensures AllGroups(ws) > 0 ==>
              && Percent(w.freq1) == GoodShare(AllGroupsOut(ws, 0), AllGroups(ws))
              && Percent(w.freq2) == GoodShare(AllGroupsOut(ws, 1), AllGroups(ws))
  {
    hide Outs, Percent, Matching, Slots, FreqErrors, Share, Fraction, AllGroups, AllGroupsOut, GoodShare, ClosingOk;
    MatchingGroups(cs, ws);
    if AllGroups(ws) > 0 {
      SharePercent(w.freq1, AllGroupsOut(ws, 0), AllGroups(ws));
      SharePercent(w.freq2, AllGroupsOut(ws, 1), AllGroups(ws));
    }
  }

  lemma MeasuredPercents(w: Weekly, ws: seq<Window>)
    requires WeekMeasured(w, ws) && WeekOk(w)
    ensures WindowsOk(ws) && |w.ten| == 22 && Percents(w, ws)
  {
    hide Tallied, Matching, WindowsOut, Percent, AllGroups, AllGroupsOut, Fraction, GoodShare, WindowOk;
    var cs :| Tallied(w, cs) && Matching(cs, ws);
    MatchingOk(cs, ws);
    FreqPercents(w, cs, ws);
    if ws != [] {
      forall k | 0 <= k < 22 ensures Percent(w.ten[k]) == GoodShare(WindowsOut(ws, k), |ws|) {
        TenPercents(w, cs, ws, k);
      }
    }
  }

  /** From boot on, whatever is measured: the running week, and the last one closed, report for each channel how many
      of their ten minutes were out of limits, and for the frequency how many of their ten-second means were. */
  lemma WeeksReportMeasurements(now: nat, lastWeek: Weekly, ss: seq<Second>)
    requires WeekOk(lastWeek) && Steady(now, ss)
    ensures InStep(BootLog(now, NewWeek(), lastWeek), now)
    ensures var g := After(BootLog(now, NewWeek(), lastWeek), now, ss);
            var t := FollowAll(Track(Window(now, []), [], false, []), now, ss);
            && WindowsOk(t.week) && Reports(g.week, t.week) && Percents(g.week, t.week)
            && (t.closed ==> WindowsOk(t.last) && Reports(g.lastWeek, t.last) && Percents(g.lastWeek, t.last))
  {
    var boot, t0 := BootLog(now, NewWeek(), lastWeek), Track(Window(now, []), [], false, []);
    BootInStep(now, NewWeek(), lastWeek);
    FreshMeasured(now / 600, now / 10, now);
    NewWeekMeasured();
    hide SumsMeasured, TensMeasured, WeekMeasured, After, FollowAll, Reports, Percents, Steady, Fresh, InStep, WeekOk;
    RunFollows(boot, now, ss, t0);
    AfterKeeps(boot, now, ss);
    var g, t := After(boot, now, ss), FollowAll(t0, now, ss);
    MeasuredReports(g.week, t.week);
    MeasuredPercents(g.week, t.week);
    if t.closed {
      MeasuredReports(g.lastWeek, t.last);
      MeasuredPercents(g.lastWeek, t.last);
    }
  }
}
