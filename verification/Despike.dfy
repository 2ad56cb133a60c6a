/** Spike repair in readWFB_Data (src/ade9000.c): samples far from the median of their neighbourhood are marked and
    interpolated from unmarked ones. */
module Despike {

  const SAMPLES := 128

  /** C division: the quotient is truncated toward zero. */
  function TruncDiv(a: int, b: int): int
    requires b > 0
  {
    if a >= 0 then a / b else -((-a) / b)
  }

  function Median(a: int, b: int, d: int): int {
    var lo, hi := if a < d then a else d, if a < d then d else a;
    if b < lo then lo else if b > hi then hi else b
  }

  function Abs(x: int): nat { if x < 0 then -x else x }

  /** Sample k is marked when it is further than the threshold from the median of itself and its neighbours. */
  predicate Spike(s: seq<int>, thr: int, k: int) {
    0 < k < |s| - 1 && Abs(s[k] - Median(s[k - 1], s[k], s[k + 1])) > thr
  }

  /** The nearest unmarked sample before k, and after k. */
  function Left(s: seq<int>, thr: int, k: int): (l: int)
    requires 0 < k < |s|
    ensures 0 <= l < k && !Spike(s, thr, l)
    ensures forall j :: l < j < k ==> Spike(s, thr, j)
    decreases k
  {
    if Spike(s, thr, k - 1) then Left(s, thr, k - 1) else k - 1
  }

  function Right(s: seq<int>, thr: int, k: int): (r: int)
    requires 0 <= k < |s| - 1
    ensures k < r < |s| && !Spike(s, thr, r)
    ensures forall j :: k < j < r ==> Spike(s, thr, j)
    decreases |s| - k
  {
    if Spike(s, thr, k + 1) then Right(s, thr, k + 1) else k + 1
  }

  /** A single spike with two unmarked samples on each side. */
  predicate Isolated(s: seq<int>, thr: int, k: int) {
    2 <= k < |s| - 2 && !Spike(s, thr, k - 1) && !Spike(s, thr, k + 1) && !Spike(s, thr, k - 2) && !Spike(s, thr, k + 2)
  }

  function Repair(s: seq<int>, thr: int, k: int): int
    requires 0 < k < |s| - 1
  {
    var l, r := Left(s, thr, k), Right(s, thr, k);
    if r - l == 2 && l >= 1 && r <= |s| - 2 && !Spike(s, thr, l - 1) && !Spike(s, thr, r + 1) then
      TruncDiv(4 * (s[l] + s[r]) - (s[l - 1] + s[r + 1]), 6)
    else
      s[l] + TruncDiv((s[r] - s[l]) * (k - l), r - l)
  }

  function Repaired(s: seq<int>, thr: int): (t: seq<int>)
    ensures |t| == |s|
  {
    seq(|s|, k requires 0 <= k < |s| => if Spike(s, thr, k) then Repair(s, thr, k) else s[k])
  }

  /* ---- what repair does ---- */

  /** Only spikes change. */
  lemma OnlySpikesChange(s: seq<int>, thr: int, k: int)
    requires 0 <= k < |s| && !Spike(s, thr, k)
    ensures Repaired(s, thr)[k] == s[k]
  {
  }

  lemma ScaledBetween(d: int, i: int, n: int)
    requires 0 < i < n
    ensures d >= 0 ==> 0 <= TruncDiv(d * i, n) <= d
    ensures d <= 0 ==> d <= TruncDiv(d * i, n) <= 0
  {
    if d >= 0 { QuotientBound(d, i, n); } else { QuotientBound(-d, i, n); assert (-d) * i == -(d * i); }
  }

  lemma MulStrict(n: nat, a: nat, b: nat)
    requires n > 0 && a < b
    ensures n * a < n * b
  {
  }

  lemma QuotientBound(d: nat, i: nat, n: nat)
    requires 0 < i < n
    ensures 0 <= d * i && 0 <= d * i / n <= d
  {
    var p := d * i;
    assert 0 <= p <= n * d;
    QuotientAtMost(p, n, d);
  }

  lemma QuotientAtMost(p: nat, n: nat, d: nat)
    requires n > 0 && p <= n * d
    ensures 0 <= p / n <= d
  {
    var q := p / n;
    assert n * q <= p;
    if q > d {
      MulStrict(n, d, q);
      assert false;
    }
  }

  /** The test for an isolated spike, made on the distance between the anchors. */
  lemma IsolatedExactly(s: seq<int>, thr: int, k: int)
    requires Spike(s, thr, k)
    ensures var l, r := Left(s, thr, k), Right(s, thr, k);
            (r - l == 2 && l >= 1 && r <= |s| - 2 && !Spike(s, thr, l - 1) && !Spike(s, thr, r + 1)) <==> Isolated(s, thr, k)
  {
    hide Spike;
    assert 0 < k < |s| - 1 by { SpikeInside(s, thr, k); }
  }

  lemma SpikeInside(s: seq<int>, thr: int, k: int)
    requires Spike(s, thr, k)
    ensures 0 < k < |s| - 1
  {
  }

  /** A repair that is not an isolated one lies between its unmarked anchors. */
  lemma LinearBetweenAnchors(s: seq<int>, thr: int, k: int)
    requires Spike(s, thr, k) && !Isolated(s, thr, k)
    ensures var l, r := Left(s, thr, k), Right(s, thr, k);
            && !Spike(s, thr, l) && !Spike(s, thr, r) && l < k < r
            && (s[l] <= Repaired(s, thr)[k] <= s[r] || s[r] <= Repaired(s, thr)[k] <= s[l])
  {
    hide Spike, TruncDiv, Left, Right, Isolated;
    SpikeInside(s, thr, k);
    var l, r := Left(s, thr, k), Right(s, thr, k);
    IsolatedExactly(s, thr, k);
    ScaledBetween(s[r] - s[l], k - l, r - l);
  }

  /* ---- the value, without naming the repair ---- */

  /** l and r are the nearest unmarked samples on both sides of k. */
  predicate Anchors(s: seq<int>, thr: int, l: int, k: int, r: int) {
    && 0 <= l < k < r < |s| && !Spike(s, thr, l) && !Spike(s, thr, r)
    && (forall j :: l < j < r ==> Spike(s, thr, j))
  }

  lemma AnchorsFound(s: seq<int>, thr: int, l: int, k: int, r: int)
    requires Anchors(s, thr, l, k, r) && k < |s| - 1
    ensures Left(s, thr, k) == l && Right(s, thr, k) == r
  {
    hide Spike;
  }

  /** The quotient rounded toward zero. */
  predicate RoundsTo(q: int, a: int, n: int) {
    if a >= 0 then 0 <= n * q <= a < n * q + n else n * q - n < a <= n * q <= 0
  }

  lemma TruncRounds(a: int, n: int)
    requires n > 0
    ensures RoundsTo(TruncDiv(a, n), a, n)
  {
    if a >= 0 { DivRounds(a, n); } else { DivRounds(-a, n); NegateProduct(n, (-a) / n); }
  }

  lemma DivRounds(a: nat, n: nat)
    requires n > 0
    ensures 0 <= n * (a / n) <= a < n * (a / n) + n
  {
  }

  lemma NegateProduct(n: int, q: int)
    ensures n * -q == -(n * q)
  {
  }

  /** A spike that is not isolated goes to the straight line through its anchors, rounded toward the left one: the
      distance to it, scaled by the number of steps between the anchors, is the scaled rise rounded toward zero. */
  lemma LinearExactly(s: seq<int>, thr: int, l: int, k: int, r: int)
    requires Spike(s, thr, k) && !Isolated(s, thr, k) && Anchors(s, thr, l, k, r)
    ensures RoundsTo(Repaired(s, thr)[k] - s[l], (s[r] - s[l]) * (k - l), r - l)
  {
    hide Spike, TruncDiv, Left, Right, Isolated, RoundsTo, Anchors;
    SpikeInside(s, thr, k);
    AnchorsFound(s, thr, l, k, r);
    AnchorsInside(s, thr, l, k, r);
    IsolatedExactly(s, thr, k);
    TruncRounds((s[r] - s[l]) * (k - l), r - l);
  }

  lemma AnchorsInside(s: seq<int>, thr: int, l: int, k: int, r: int)
    requires Anchors(s, thr, l, k, r)
    ensures 0 <= l < k < r < |s|
  {
  }

  /** So it is on that line whenever the line is at an integer there. */
  lemma LineRestored(s: seq<int>, thr: int, l: int, k: int, r: int, v: int)
    requires Spike(s, thr, k) && !Isolated(s, thr, k) && Anchors(s, thr, l, k, r)
    requires (r - l) * (v - s[l]) == (s[r] - s[l]) * (k - l)
    ensures Repaired(s, thr)[k] == v
  {
    hide Spike, Isolated, Anchors, Repaired, RoundsTo;
    LinearExactly(s, thr, l, k, r);
    AnchorsInside(s, thr, l, k, r);
    RoundsOnce(Repaired(s, thr)[k] - s[l], v - s[l], r - l);
  }

  lemma RoundsOnce(q: int, v: int, n: int)
    requires n > 0 && RoundsTo(q, n * v, n)
    ensures q == v
  {
    MulApart(n, q, v);
    MulApart(n, v, q);
  }

  lemma MulApart(n: int, a: int, b: int)
    requires n > 0
    ensures a < b ==> n * a + n <= n * b
  {
    if a < b { MulMonotone(n, a + 1, b); assert n * (a + 1) == n * a + n; }
  }

  lemma MulMonotone(n: int, a: int, b: int)
    requires n > 0 && a <= b
    ensures n * a <= n * b
  {
    assert n * (b - a) >= 0;
    assert n * (b - a) == n * b - n * a;
  }

  /** An isolated spike goes to the value a cubic through its four neighbours has there, rounded toward zero. */
  lemma IsolatedValue(s: seq<int>, thr: int, k: int)
    requires Spike(s, thr, k) && Isolated(s, thr, k)
    ensures RoundsTo(Repaired(s, thr)[k], 4 * (s[k - 1] + s[k + 1]) - (s[k - 2] + s[k + 2]), 6)
  {
    IsolatedAnchors(s, thr, k);
    hide RoundsTo, Spike, TruncDiv, Isolated, Repair, Left, Right;
    SpikeInside(s, thr, k);
    TruncRounds(4 * (s[k - 1] + s[k + 1]) - (s[k - 2] + s[k + 2]), 6);
  }

  /** A sample is marked exactly when it lies further than the threshold above or below both its neighbours. */
  lemma SpikeExactly(s: seq<int>, thr: nat, k: int)
    requires 0 < k < |s| - 1
    ensures Spike(s, thr, k) <==>
            || (s[k] > s[k - 1] + thr && s[k] > s[k + 1] + thr)
            || (s[k] < s[k - 1] - thr && s[k] < s[k + 1] - thr)
  {
  }

  /** Value at j of a cubic centred on the repaired sample. */
  function Cubic(a: real, b: real, c: real, d: real, j: real): real {
    a + b * j + c * j * j + d * j * j * j
  }

  /** An isolated spike whose four neighbours lie on a cubic that is an integer there goes back to the cubic. */
  lemma CubicRestored(s: seq<int>, thr: int, k: int, v: int, a: real, b: real, c: real, d: real)
    requires Spike(s, thr, k) && Isolated(s, thr, k)
    requires s[k - 2] as real == Cubic(a, b, c, d, -2.0) && s[k - 1] as real == Cubic(a, b, c, d, -1.0)
    requires s[k + 1] as real == Cubic(a, b, c, d, 1.0) && s[k + 2] as real == Cubic(a, b, c, d, 2.0)
    requires v as real == Cubic(a, b, c, d, 0.0)
    ensures Repaired(s, thr)[k] == v
  {
    IsolatedAnchors(s, thr, k);
    assert 6 * v == 4 * (s[k - 1] + s[k + 1]) - (s[k - 2] + s[k + 2]) by {
      assert 6.0 * (v as real) == 4.0 * (s[k - 1] as real + s[k + 1] as real) - (s[k - 2] as real + s[k + 2] as real);
    }
    assert TruncDiv(6 * v, 6) == v;
  }

  lemma IsolatedAnchors(s: seq<int>, thr: int, k: int)
    requires Spike(s, thr, k) && Isolated(s, thr, k)
    ensures Left(s, thr, k) == k - 1 && Right(s, thr, k) == k + 1
    ensures Repair(s, thr, k) == TruncDiv(4 * (s[k - 1] + s[k + 1]) - (s[k - 2] + s[k + 2]), 6)
  {
  }
}
