/** The per-slot alarm status machine of alarmProc (src/alarm.c). */
module AlarmStatus {
  import opened Words

  /** cond 0 alarms below the level, cond 1 above it; dband is a percentage of the level. */
  datatype Setting = Setting(above: bool, level: real, dband: nat)

  /** The timer is eight bits wide. */
  datatype Slot = Slot(alarm: bool, timer: nat, count: nat, log: seq<bool>)

  predicate Raises(g: Setting, src: real) {
    if g.above then src > g.level else src < g.level
  }

  predicate Clears(g: Setting, src: real) {
    if g.above then src <= g.level - g.level * g.dband as real / 100.0
    else src >= g.level + g.level * g.dband as real / 100.0
  }

  /** Whether the input speaks for the other status. */
  predicate Turns(g: Setting, s: Slot, src: real) {
    if s.alarm then Clears(g, src) else Raises(g, src)
  }

  /** One second: the status flips, and is logged, once the input has lasted past the delay. */
  function Second(g: Setting, delay: nat, s: Slot, src: real): Slot {
    if !Turns(g, s, src) then s.(timer := 0)
    else if s.timer < delay then s.(timer := Wrap8(s.timer + 1))
    else Slot(!s.alarm, Wrap8(s.timer + 1), if s.alarm then s.count else Wrap16(s.count + 1), s.log + [!s.alarm])
  }

  function Run(g: Setting, delay: nat, s: Slot, srcs: seq<real>): Slot
    decreases |srcs|
  {
    if srcs == [] then s else Second(g, delay, Run(g, delay, s, srcs[..|srcs| - 1]), srcs[|srcs| - 1])
  }

  /** Statuses are logged in turn, starting with an alarm; the count is that of the alarms logged. */
  predicate Alternating(log: seq<bool>) {
    forall k :: 0 <= k < |log| ==> log[k] == (k % 2 == 0)
  }

  function Alarms(log: seq<bool>): nat { (|log| + 1) / 2 }

  lemma {:induction false} LogAlternates(g: Setting, delay: nat, srcs: seq<real>)
    ensures var s := Run(g, delay, Slot(false, 0, 0, []), srcs);
            Alternating(s.log) && s.alarm == (|s.log| % 2 == 1) && s.count == Wrap16(Alarms(s.log))
    decreases |srcs|
  {
    hide Turns, Wrap16;
    if srcs == [] {
      AlarmWrap(0);
    } else {
      LogAlternates(g, delay, srcs[..|srcs| - 1]);
      AlarmWrap(Alarms(Run(g, delay, Slot(false, 0, 0, []), srcs[..|srcs| - 1]).log));
    }
  }

  lemma AlarmWrap(x: nat)
    ensures Wrap16(Wrap16(x) + 1) == Wrap16(x + 1) && Wrap16(0) == 0
  {
  }

  /* ---- a constant input ---- */

  /** No input can both raise and clear an alarm exactly when the dead band does not reach past the level. */
  lemma NoChatterExactly(g: Setting)
    ensures (forall src: real :: !(Raises(g, src) && Clears(g, src))) <==> g.level >= 0.0 || g.dband == 0
  {
    var band := g.level * g.dband as real / 100.0;
    if g.level >= 0.0 || g.dband == 0 {
      assert band >= 0.0;
    } else {
      BandNegative(g.level, g.dband);
      var src := if g.above then g.level - band / 2.0 else g.level + band / 2.0;
      assert Raises(g, src) && Clears(g, src);
    }
  }

  lemma BandNegative(level: real, dband: nat)
    requires level < 0.0 && dband > 0
    ensures level * dband as real / 100.0 < 0.0
  {
  }

  /** The band, in percent of the level: an alarm above the level clears when the input has fallen by it, one below when
      the input has risen by it; neither is raised at the level itself. */
  lemma BandExactly(g: Setting, src: real)
    ensures g.above ==> (Raises(g, src) <==> src > g.level)
    ensures g.above ==> (Clears(g, src) <==> 100.0 * (g.level - src) >= g.level * g.dband as real)
    ensures !g.above ==> (Raises(g, src) <==> src < g.level)
    ensures !g.above ==> (Clears(g, src) <==> 100.0 * (src - g.level) >= g.level * g.dband as real)
  {
    var band := g.level * g.dband as real;
    assert 100.0 * (band / 100.0) == band;
  }

  /** Then an input that no longer changes flips the status at most once. */
  lemma {:induction false} ConstantFlipsOnce(g: Setting, delay: nat, s: Slot, src: real, srcs: seq<real>)
    requires g.level >= 0.0 || g.dband == 0
    requires forall k :: 0 <= k < |srcs| ==> srcs[k] == src
    ensures var e := Run(g, delay, s, srcs);
            |s.log| <= |e.log| <= |s.log| + 1 && (|e.log| == |s.log| + 1 ==> !Turns(g, e, src))
            && (e.alarm == s.alarm <==> |e.log| == |s.log|)
    decreases |srcs|
  {
    NoChatterExactly(g);
    if srcs != [] {
      hide Raises, Clears;
      ConstantFlipsOnce(g, delay, s, src, srcs[..|srcs| - 1]);
    }
  }

  /* ---- the delay against the eight-bit timer ---- */

  /** A lasting input flips a rested slot at second delay + 1 exactly; a delay of 256 or more is never reached. */
  lemma {:induction false} TimerCounts(g: Setting, delay: nat, s: Slot, src: real, srcs: seq<real>)
    requires s.timer == 0 && Turns(g, s, src)
    requires forall k :: 0 <= k < |srcs| ==> srcs[k] == src
    requires delay < 0x100 ==> |srcs| <= delay
    ensures Run(g, delay, s, srcs) == s.(timer := Wrap8(|srcs|))
    decreases |srcs|
  {
    hide Raises, Clears;
    if srcs != [] {
      TimerCounts(g, delay, s, src, srcs[..|srcs| - 1]);
      WrapStep(|srcs| - 1);
    }
  }

  lemma WrapStep(x: nat)
    ensures Wrap8(Wrap8(x) + 1) == Wrap8(x + 1) && Wrap8(x) < 0x100
  {
  }

  lemma DelayExactly(g: Setting, delay: nat, s: Slot, src: real, n: nat)
    requires s.timer == 0 && Turns(g, s, src)
    requires delay < 0x100 ==> n <= delay + 1
    ensures Run(g, delay, s, seq(n, k => src)).log != s.log <==> delay < 0x100 && n == delay + 1
  {
    hide Raises, Clears, Turns, Run;
    var srcs := seq(n, k => src);
    if delay < 0x100 && n == delay + 1 {
      TimerCounts(g, delay, s, src, srcs[..n - 1]);
      RunLast(g, delay, s, srcs);
      FlipsAtDelay(g, delay, s, src);
    } else {
      TimerCounts(g, delay, s, src, srcs);
    }
  }

  lemma RunLast(g: Setting, delay: nat, s: Slot, srcs: seq<real>)
    requires srcs != []
    ensures Run(g, delay, s, srcs) == Second(g, delay, Run(g, delay, s, srcs[..|srcs| - 1]), srcs[|srcs| - 1])
  {
  }

  lemma FlipsAtDelay(g: Setting, delay: nat, s: Slot, src: real)
    requires Turns(g, s, src) && delay < 0x100
    ensures Second(g, delay, s.(timer := Wrap8(delay)), src).log == s.log + [!s.alarm]
  {
  }

  /* ---- an input that comes and goes ---- */

  /** How many inputs at the end, without a break, speak for the other status than that of slot s. */
  function Lasting(g: Setting, s: Slot, srcs: seq<real>): nat
    decreases |srcs|
  {
    if srcs == [] || !Turns(g, s, srcs[|srcs| - 1]) then 0 else Lasting(g, s, srcs[..|srcs| - 1]) + 1
  }

  /** A rested slot keeps its status, and counts, while no such stretch is longer than the delay. */
  lemma {:induction false} BriefInputsKept(g: Setting, delay: nat, s: Slot, srcs: seq<real>)
    requires s.timer == 0 && delay < 0x100 && forall n :: 0 <= n <= |srcs| ==> Lasting(g, s, srcs[..n]) <= delay
    ensures Run(g, delay, s, srcs) == s.(timer := Lasting(g, s, srcs))
    decreases |srcs|
  {
    hide Raises, Clears;
    assert srcs[..|srcs|] == srcs;
    if srcs != [] {
      var init := srcs[..|srcs| - 1];
      assert forall n :: 0 <= n <= |init| ==> init[..n] == srcs[..n];
      BriefInputsKept(g, delay, s, init);
      TurnsAlike(g, s, Lasting(g, s, init), srcs[|srcs| - 1]);
    }
  }

  lemma TurnsAlike(g: Setting, s: Slot, timer: nat, src: real)
    ensures Turns(g, s.(timer := timer), src) == Turns(g, s, src)
  {
  }

  /** So it flips exactly when an input has lasted one second longer than the delay, and a break starts it anew. */
  lemma FlipsExactly(g: Setting, delay: nat, s: Slot, srcs: seq<real>)
    requires s.timer == 0 && delay < 0x100 && srcs != []
    requires forall n :: 0 <= n < |srcs| ==> Lasting(g, s, srcs[..n]) <= delay
    ensures Run(g, delay, s, srcs).log != s.log <==> Lasting(g, s, srcs) == delay + 1
  {
    var init, src := srcs[..|srcs| - 1], srcs[|srcs| - 1];
    assert forall n :: 0 <= n <= |init| ==> init[..n] == srcs[..n];
    BriefInputsKept(g, delay, s, init);
    TurnsAlike(g, s, Lasting(g, s, init), src);
    hide Raises, Clears, Turns;
  }

  /* ---- the loop body on its own fields ---- */

  class AlarmSlot {
    var status: bool
    var almTimer: nat
    var count: nat
    var log: seq<bool>

    function State(): Slot
      reads this
    {
      Slot(status, almTimer, count, log)
    }

    method AlarmProc(g: Setting, delay: nat, src: real) returns (change: bool)
      modifies this
      ensures State() == Second(g, delay, old(State()), src)
      ensures change == (status != old(status))
    {
      var result;
      if !status {
        result := if g.above then src > g.level else src < g.level;
      } else if g.above {
        var level := g.level - g.level * g.dband as real / 100.0;
        result := src <= level;
      } else {
        var level := g.level + g.level * g.dband as real / 100.0;
        result := src >= level;
      }
      assert result == Turns(g, State(), src);
      change := false;
      if result {
        var t := almTimer;
        almTimer := Wrap8(almTimer + 1);
        if t >= delay {
          if !status { count := Wrap16(count + 1); }
          status := !status;
          log := log + [status];
          change := true;
        }
      } else {
        almTimer := 0;
      }
    }
  }
}
