/** The circular alarm and event logs of src/alarm.c and their pages, newest record first. */
module LogRing {
  import opened Rings

  /** The write position is count slots past the oldest record, which stays in slot 0 until the ring is full. */
  predicate WellFormed<T>(r: Ring<T>) {
    && |r.slots| > 0 && r.fr < |r.slots| && r.re < |r.slots| && r.count <= |r.slots|
    && r.fr == Ahead(|r.slots|, r.re, r.count)
    && (r.count < |r.slots| ==> r.re == 0)
  }

  /** The records, oldest first. */
  function Contents<T>(r: Ring<T>): (c: seq<T>)
    requires WellFormed(r)
    ensures |c| == r.count
  {
    seq(r.count, k requires 0 <= k < r.count => r.slots[Ahead(|r.slots|, r.re, k)])
  }

  function Push<T>(r: Ring<T>, x: T): Ring<T>
    requires WellFormed(r)
  {
    var n := |r.slots|;
    var fr := if r.fr + 1 >= n then 0 else r.fr + 1;
    if r.count < n then Ring(r.slots[r.fr := x], fr, r.re, r.count + 1)
    else Ring(r.slots[r.fr := x], fr, if r.re + 1 >= n then 0 else r.re + 1, r.count)
  }

  /** The last n records of a log. */
  function Latest<T>(log: seq<T>, n: nat): seq<T> {
    if |log| <= n then log else log[|log| - n..]
  }

  /** A push appends, dropping the oldest record once the ring is full. */
  lemma PushAppends<T>(r: Ring<T>, x: T)
    requires WellFormed(r)
    ensures WellFormed(Push(r, x))
    ensures Contents(Push(r, x)) == Latest(Contents(r) + [x], |r.slots|)
  {
    if r.count < |r.slots| { PushGrows(r, x); } else { PushDrops(r, x); }
  }

  lemma PushGrows<T>(r: Ring<T>, x: T)
    requires WellFormed(r) && r.count < |r.slots|
    ensures WellFormed(Push(r, x)) && Contents(Push(r, x)) == Contents(r) + [x]
  {
  }

  lemma PushDrops<T>(r: Ring<T>, x: T)
    requires WellFormed(r) && r.count == |r.slots|
    ensures WellFormed(Push(r, x)) && Contents(Push(r, x)) == Contents(r)[1..] + [x]
  {
    var n, r' := |r.slots|, Push(r, x);
    forall k | 0 <= k < n ensures Contents(r')[k] == (Contents(r)[1..] + [x])[k] {
      if k < n - 1 { assert Ahead(n, r'.re, k) == Ahead(n, r.re, k + 1); }
    }
  }

  function PushAll<T>(r: Ring<T>, xs: seq<T>): (r': Ring<T>)
    requires WellFormed(r)
    ensures WellFormed(r') && |r'.slots| == |r.slots|
    decreases |xs|
  {
    if xs == [] then r
    else
      var before := PushAll(r, xs[..|xs| - 1]);
      PushAppends(before, xs[|xs| - 1]);
      Push(before, xs[|xs| - 1])
  }

  /** After any number of pushes the ring holds exactly the latest records, in order. */
  lemma {:induction false} RingHoldsLatest<T>(slots: seq<T>, xs: seq<T>)
    requires |slots| > 0
    ensures Contents(PushAll(Ring(slots, 0, 0, 0), xs)) == Latest(xs, |slots|)
    decreases |xs|
  {
    if xs != [] {
      var init, x := xs[..|xs| - 1], xs[|xs| - 1];
      assert xs == init + [x];
      RingHoldsLatest(slots, init);
      PushAppends(PushAll(Ring(slots, 0, 0, 0), init), x);
    }
  }

  /* ---- pages ---- */

  function NewestFirst<T>(c: seq<T>): (s: seq<T>)
    ensures |s| == |c|
  {
    seq(|c|, k requires 0 <= k < |c| => c[|c| - 1 - k])
  }

  /** The record pushed last comes first, before what was shown until then as far as the ring still has it. */
  lemma PushedComesFirst<T>(r: Ring<T>, x: T)
    requires WellFormed(r)
    ensures WellFormed(Push(r, x))
    ensures var shown := NewestFirst(Contents(r));
            NewestFirst(Contents(Push(r, x))) == [x] + (if r.count < |r.slots| then shown else shown[..|shown| - 1])
  {
    PushAppends(r, x);
    var c := Contents(r);
    hide Contents, Push, WellFormed;
    if r.count < |r.slots| {
      assert NewestFirst(c + [x]) == [x] + NewestFirst(c);
    } else {
      assert Latest(c + [x], |r.slots|) == c[1..] + [x];
      assert NewestFirst(c[1..] + [x]) == [x] + NewestFirst(c)[..|c| - 1];
    }
  }

  /** One page of a list from position at on, filled up with zero records. */
  function Page<T>(list: seq<T>, at: nat, size: nat, zero: T): (p: seq<T>)
    ensures |p| == size
  {
    seq(size, k requires 0 <= k < size => if at + k < |list| then list[at + k] else zero)
  }

  datatype Command = Update | PageDown | PageUp | Top | Bottom | Other

  /** The cursor of the alarm list after a command. */
  function AlarmCursor(at: nat, total: nat, size: nat, cmd: Command): nat
    requires size > 0
  {
    match cmd
    case PageDown => if at + size < total then at + size else at
    case PageUp => if at >= size then at - size else at
    case Top => 0
    case Bottom => if total > 0 then (total - 1) / size * size else 0
    case _ => at
  }

  /** The event list differs only in paging up from less than a page down. */
  function EventCursor(at: nat, total: nat, size: nat, cmd: Command): nat
    requires size > 0
  {
    if cmd == PageUp && at < size then 0 else AlarmCursor(at, total, size, cmd)
  }

  predicate OnPage(at: int, size: nat)
    requires size > 0
  {
    at % size == 0
  }

  /** A cursor on a page start stays on one, and no command moves it past the last record. */
  lemma CursorOnPage(at: nat, total: nat, size: nat, cmd: Command)
    requires size > 0 && OnPage(at, size)
    ensures AlarmCursor(at, total, size, cmd) == EventCursor(at, total, size, cmd)
    ensures OnPage(AlarmCursor(at, total, size, cmd), size)
    ensures at < total || at == 0 ==> AlarmCursor(at, total, size, cmd) < total || AlarmCursor(at, total, size, cmd) == 0
  {
    Neighbours(at, size);
    if total > 0 { LastPage(total, size); }
    Multiple(0, size);
    hide OnPage;
  }

  lemma LastPage(total: nat, size: nat)
    requires size > 0 && total > 0
    ensures OnPage((total - 1) / size * size, size)
    ensures (total - 1) / size * size < total <= (total - 1) / size * size + size
  {
    Multiple((total - 1) / size, size);
  }

  lemma Neighbours(at: nat, size: nat)
    requires size > 0 && OnPage(at, size)
    ensures OnPage(at + size, size) && (at >= size ==> OnPage(at - size, size)) && (at < size ==> at == 0)
  {
    var q := at / size;
    Multiple(q + 1, size);
    Multiple(q - 1, size);
    assert at == q * size;
    Distribute(q, size);
    if at < size { SmallMultiple(at, size); }
  }

  lemma Distribute(q: int, n: nat)
    ensures (q + 1) * n == q * n + n && (q - 1) * n == q * n - n
  {
  }

  lemma Multiple(q: int, n: nat)
    requires n > 0
    ensures OnPage(q * n, n)
  {
    var z := q - q * n / n;
    assert q * n % n == n * z;
    SmallProduct(n, z);
  }

  lemma SmallProduct(n: int, z: int)
    requires n > 0 && 0 <= n * z < n
    ensures n * z == 0
  {
    if z != 0 { NoProduct(n, z); }
  }

  lemma NoProduct(n: int, z: int)
    requires n > 0
    ensures z >= 1 ==> n * z >= n
    ensures z <= -1 ==> n * z <= -n
  {
  }

  lemma SmallMultiple(at: nat, n: nat)
    requires at < n && at % n == 0
    ensures at == 0
  {
  }

  /** Paging up undoes paging down, and "bottom" is the page on which paging down stops, the one with the last record. */
  lemma PagingInverse(at: nat, total: nat, size: nat)
    requires size > 0
    ensures at + size < total ==> AlarmCursor(AlarmCursor(at, total, size, PageDown), total, size, PageUp) == at
    ensures total > 0 ==> var bottom := AlarmCursor(at, total, size, Bottom);
                          bottom < total <= bottom + size && AlarmCursor(bottom, total, size, PageDown) == bottom
  {
  }

  function Filter<T>(c: seq<T>, keep: T -> bool): (f: seq<T>)
    ensures |f| <= |c|
    decreases |c|
  {
    if c == [] then []
    else Filter(c[..|c| - 1], keep) + (if keep(c[|c| - 1]) then [c[|c| - 1]] else [])
  }

  /** A filtered list is the records that match, each once and in order: the one at i stands behind as many as match
      before it. */
  lemma {:induction false} FilterMeans<T>(c: seq<T>, keep: T -> bool)
    ensures forall i :: 0 <= i < |c| && keep(c[i]) ==>
              var n := |Filter(c[..i], keep)|; n < |Filter(c, keep)| && Filter(c, keep)[n] == c[i]
    ensures forall n :: 0 <= n < |Filter(c, keep)| ==>
              keep(Filter(c, keep)[n]) && exists i :: 0 <= i < |c| && keep(c[i]) && |Filter(c[..i], keep)| == n
    decreases |c|
  {
    if c != [] {
      var init := c[..|c| - 1];
      FilterMeans(init, keep);
      assert forall i :: 0 <= i <= |init| ==> init[..i] == c[..i];
    }
  }

  /** Everything on the pages seen from a cursor on, when paging down until the cursor no longer moves. */
  function Shown<T>(list: seq<T>, at: nat, size: nat, zero: T): seq<T>
    requires size > 0
    decreases |list| - at
  {
    if at >= |list| then []
    else
      var next := AlarmCursor(at, |list|, size, PageDown);
      var records := if at + size <= |list| then size else |list| - at;
      Page(list, at, size, zero)[..records] + (if next == at then [] else Shown(list, next, size, zero))
  }

  lemma PageIsSlice<T>(list: seq<T>, at: nat, size: nat, zero: T, records: nat)
    requires records <= size && at + records <= |list|
    ensures Page(list, at, size, zero)[..records] == list[at..at + records]
  {
  }

  lemma {:induction false} ShownFrom<T>(list: seq<T>, at: nat, size: nat, zero: T)
    requires size > 0 && at <= |list|
    ensures Shown(list, at, size, zero) == list[at..]
    decreases |list| - at
  {
    hide Page;
    if at + size < |list| {
      ShownFrom(list, at + size, size, zero);
      PageIsSlice(list, at, size, zero, size);
      assert list[at..] == list[at..at + size] + list[at + size..];
    } else if at < |list| {
      PageIsSlice(list, at, size, zero, |list| - at);
    }
  }

  /** From any cursor, going to the top and paging down shows every record once, in order. */
  lemma PagingShowsAll<T>(list: seq<T>, at: nat, size: nat, zero: T)
    requires size > 0
    ensures Shown(list, AlarmCursor(at, |list|, size, Top), size, zero) == list
    ensures Shown(list, EventCursor(at, |list|, size, Top), size, zero) == list
  {
    ShownFrom(list, 0, size, zero);
    assert list[0..] == list;
  }

  /** The cursor after n times paging up. */
  function Upped(at: nat, total: nat, size: nat, n: nat): nat
    requires size > 0
  {
    if n == 0 then at else AlarmCursor(Upped(at, total, size, n - 1), total, size, PageUp)
  }

  lemma {:induction false} UppedByPages(q: nat, total: nat, size: nat, n: nat)
    requires size > 0 && n <= q
    ensures Upped(q * size, total, size, n) == (q - n) * size
    decreases n
  {
    if n > 0 {
      UppedByPages(q, total, size, n - 1);
      var up := q - (n - 1);
      Distribute(up, size);
      AtLeastOnePage(up, size);
    }
  }

  lemma AtLeastOnePage(q: nat, size: nat)
    requires q > 0
    ensures q * size >= size
  {
  }

  /** From any cursor, going to the bottom and paging up, once for every page before the last, ends at the top. */
  lemma BottomThenUp(at: nat, total: nat, size: nat)
    requires size > 0 && total > 0
    ensures Upped(AlarmCursor(at, total, size, Bottom), total, size, (total - 1) / size) == AlarmCursor(at, total, size, Top) == 0
  {
    hide Upped;
    UppedByPages((total - 1) / size, total, size, (total - 1) / size);
  }
}
