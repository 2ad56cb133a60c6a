/** The page ring of src/ade9000.c: the producer fills N slots in turn and, each half turn, points the consumer at the
    half it has just completed. */
module WaveRing {
  import opened Rings

  /** Pages a consumer copies: half the ring. */
  function Half<T>(r: Ring<T>): nat { |r.slots| / 2 }

  predicate Shape<T>(r: Ring<T>) {
    |r.slots| > 0 && |r.slots| % 2 == 0 && r.fr < |r.slots| && r.re < |r.slots| && r.count < Half(r)
  }

  /** Whether the next page completes a half and wakes the consumer. */
  predicate Notifies<T>(r: Ring<T>) { r.count + 1 >= Half(r) }

  /** One page: the slot is taken and filled, and at the end of a half the read position moves to its start. */
  function Put<T>(r: Ring<T>, page: T): (r': Ring<T>)
    requires Shape(r)
    ensures Shape(r') && |r'.slots| == |r.slots|
  {
    var n := |r.slots|;
    var fr := if r.fr + 1 >= n then 0 else r.fr + 1;
    Ring(r.slots[r.fr := page], fr,
         if Notifies(r) then (fr + n / 2) % n else r.re,
         if Notifies(r) then 0 else r.count + 1)
  }

  /** The slot k places before position p. */
  function Behind(n: nat, p: nat, k: nat): int { if k <= p then p - k else p + n - k }

  /** What the consumer copies, slot by slot from re, wrapping at the end. */
  function Window<T>(r: Ring<T>): (w: seq<T>)
    requires Shape(r)
    ensures |w| == Half(r)
  {
    seq(Half(r), k requires 0 <= k < Half(r) => r.slots[Ahead(|r.slots|, r.re, k)])
  }

  /** The ring after the given pages: the last of them sit behind the write position, newest first. */
  predicate Holds<T(==)>(r: Ring<T>, pages: seq<T>) {
    && Shape(r)
    && r.count <= |pages| && (r.fr == r.count || r.fr == r.count + Half(r))
    && forall k :: 1 <= k <= |r.slots| && k <= |pages| ==> r.slots[Behind(|r.slots|, r.fr, k)] == pages[|pages| - k]
  }

  lemma ModOnce(x: nat, n: nat)
    requires n > 0 && x < 2 * n
    ensures x % n == if x < n then x else x - n
  {
    if x >= n { assert x == n + (x - n); }
  }

  lemma PutHolds<T>(r: Ring<T>, pages: seq<T>, page: T)
    requires Holds(r, pages)
    ensures Holds(Put(r, page), pages + [page])
  {
    var r', n := Put(r, page), |r.slots|;
    forall k | 1 <= k <= n && k <= |pages| + 1
      ensures r'.slots[Behind(n, r'.fr, k)] == (pages + [page])[|pages| + 1 - k]
    {
      if k > 1 { assert Behind(n, r'.fr, k) == Behind(n, r.fr, k - 1); }
    }
  }

  /** At a notification the consumer's window is exactly the pages of the half just completed, in order. */
  lemma NotifiedWindow<T>(r: Ring<T>, pages: seq<T>, page: T)
    requires Holds(r, pages) && Notifies(r)
    ensures var all := pages + [page]; Half(r) <= |all| && Window(Put(r, page)) == all[|all| - Half(r)..]
  {
    PutHolds(r, pages, page);
    var r', n, h := Put(r, page), |r.slots|, Half(r);
    var all := pages + [page];
    ModOnce(r'.fr + h, n);
    forall k | 0 <= k < h ensures Window(r')[k] == all[|all| - h + k] {
      assert Ahead(n, r'.re, k) == Behind(n, r'.fr, h - k);
    }
  }

  /** Until the next half is complete no slot of the window is rewritten, not even by the page that completes it. */
  lemma WindowUntouched<T>(r: Ring<T>, page: T)
    requires Shape(r) && (r.fr == r.count || r.fr == r.count + Half(r))
    requires r.re == if r.fr == r.count then Half(r) else 0
    ensures forall k :: 0 <= k < Half(r) ==>
              Put(r, page).slots[Ahead(|r.slots|, r.re, k)] == r.slots[Ahead(|r.slots|, r.re, k)]
    ensures !Notifies(r) ==> Window(Put(r, page)) == Window(r)
  {
  }

  /** The read position is the start of the half not being written, from the first notification on. */
  lemma ReadPosition<T>(r: Ring<T>, page: T)
    requires Shape(r) && (r.fr == r.count || r.fr == r.count + Half(r))
    requires Notifies(r) || r.re == if r.fr == r.count then Half(r) else 0
    ensures var r' := Put(r, page); r'.re == if r'.fr == r'.count then Half(r') else 0
  {
    ModOnce((if r.fr + 1 >= |r.slots| then 0 else r.fr + 1) + Half(r), |r.slots|);
  }

  /* ---- whole runs ---- */

  function PutAll<T>(r: Ring<T>, pages: seq<T>): (r': Ring<T>)
    requires Shape(r)
    ensures Shape(r') && |r'.slots| == |r.slots|
    decreases |pages|
  {
    if pages == [] then r else Put(PutAll(r, pages[..|pages| - 1]), pages[|pages| - 1])
  }

  /** The windows handed over while the pages come in. */
  function Windows<T>(r: Ring<T>, pages: seq<T>): seq<seq<T>>
    requires Shape(r)
    decreases |pages|
  {
    if pages == [] then []
    else
      var before := PutAll(r, pages[..|pages| - 1]);
      Windows(r, pages[..|pages| - 1]) + (if Notifies(before) then [Window(PutAll(r, pages))] else [])
  }

  function Flatten<T>(ws: seq<seq<T>>): seq<T>
    decreases |ws|
  {
    if ws == [] then [] else Flatten(ws[..|ws| - 1]) + ws[|ws| - 1]
  }

  function Empty<T>(slots: seq<T>): Ring<T> { Ring(slots, 0, 0, 0) }

  lemma {:induction false} RunHolds<T>(slots: seq<T>, pages: seq<T>)
    requires |slots| > 0 && |slots| % 2 == 0
    ensures Holds(PutAll(Empty(slots), pages), pages)
    decreases |pages|
  {
    if pages != [] {
      var init := pages[..|pages| - 1];
      assert pages == init + [pages[|pages| - 1]];
      RunHolds(slots, init);
      PutHolds(PutAll(Empty(slots), init), init, pages[|pages| - 1]);
    }
  }

  /** From the first notification on, the read position starts the half that is not being written and the window is
      the half completed last, whatever part of the next is in. */
  predicate WindowCurrent<T(==)>(r: Ring<T>, pages: seq<T>)
    requires Shape(r)
  {
    if |pages| < Half(r) then r.count == |pages| && r.fr == |pages|
    else && r.count + Half(r) <= |pages|
         && r.re == (if r.fr == r.count then Half(r) else 0)
         && Window(r) == pages[|pages| - r.count - Half(r)..|pages| - r.count]
  }

  lemma {:induction false} WindowAlways<T>(slots: seq<T>, pages: seq<T>)
    requires |slots| > 0 && |slots| % 2 == 0
    ensures WindowCurrent(PutAll(Empty(slots), pages), pages)
    decreases |pages|
  {
    hide WindowCurrent, Put, Holds;
    if pages != [] {
      var init, page := pages[..|pages| - 1], pages[|pages| - 1];
      assert pages == init + [page];
      WindowAlways(slots, init);
      RunHolds(slots, init);
      WindowAfter(PutAll(Empty(slots), init), init, page);
    } else {
      WindowAtStart(slots);
    }
  }

  lemma WindowAtStart<T>(slots: seq<T>)
    requires |slots| > 0 && |slots| % 2 == 0
    ensures WindowCurrent(PutAll(Empty(slots), []), [])
  {
  }

  lemma WindowAfter<T>(r: Ring<T>, pages: seq<T>, page: T)
    requires Holds(r, pages) && WindowCurrent(r, pages)
    ensures WindowCurrent(Put(r, page), pages + [page])
  {
    if Notifies(r) {
      NotifiedWindow(r, pages, page);
      WindowRenewed(r, pages, page);
    } else {
      WindowWaits(r, pages, page);
    }
  }

  lemma WindowRenewed<T>(r: Ring<T>, pages: seq<T>, page: T)
    requires Shape(r) && (r.fr == r.count || r.fr == r.count + Half(r)) && Notifies(r)
    requires Half(r) <= |pages| + 1 && Window(Put(r, page)) == (pages + [page])[|pages| + 1 - Half(r)..]
    ensures WindowCurrent(Put(r, page), pages + [page])
  {
    hide Window;
    PutCount(r, page);
    ReadPosition(r, page);
    var all := pages + [page];
    assert all[|all| - Half(r)..] == all[|all| - Half(r)..|all|];
  }

  lemma WindowWaits<T>(r: Ring<T>, pages: seq<T>, page: T)
    requires Shape(r) && (r.fr == r.count || r.fr == r.count + Half(r)) && !Notifies(r)
    requires WindowCurrent(r, pages)
    ensures WindowCurrent(Put(r, page), pages + [page])
  {
    if |pages| >= Half(r) {
      WindowUntouched(r, page);
      ReadPosition(r, page);
      hide Window;
      var from, to := |pages| - r.count - Half(r), |pages| - r.count;
      assert (pages + [page])[from..to] == pages[from..to];
    }
  }

  /** Laid end to end the windows are the stream of pages: none lost, none repeated, none out of order;
      what is still missing is the half under way. */
  lemma {:induction false} WindowsTile<T>(slots: seq<T>, pages: seq<T>)
    requires |slots| > 0 && |slots| % 2 == 0
    ensures var r := PutAll(Empty(slots), pages);
            r.count <= |pages| && Flatten(Windows(Empty(slots), pages)) == pages[..|pages| - r.count]
    decreases |pages|
  {
    RunHolds(slots, pages);
    if pages == [] {
      assert pages[..0] == [];
    } else {
      var init, page := pages[..|pages| - 1], pages[|pages| - 1];
      assert pages == init + [page];
      WindowsTile(slots, init);
      RunHolds(slots, init);
      WindowsStep(PutAll(Empty(slots), init), Windows(Empty(slots), init), init, page);
    }
  }

  lemma WindowsStep<T>(before: Ring<T>, ws: seq<seq<T>>, init: seq<T>, page: T)
    requires Holds(before, init) && Flatten(ws) == init[..|init| - before.count]
    ensures var r, all := Put(before, page), init + [page];
            && r.count <= |all|
            && Flatten(ws + (if Notifies(before) then [Window(r)] else [])) == all[..|all| - r.count]
  {
    var pages := init + [page];
    hide Window, Put, Flatten;
    PutCount(before, page);
    if Notifies(before) {
      NotifiedWindow(before, init, page);
      hide Holds;
      var w := Window(Put(before, page));
      FlattenSnoc(ws, w);
      assert init[..|init| - before.count] == pages[..|pages| - Half(before)];
      assert pages == pages[..|pages| - Half(before)] + w;
    } else {
      hide Holds;
      assert ws + [] == ws;
      assert init[..|init| - before.count] == pages[..|init| - before.count];
    }
  }

  lemma PutCount<T>(r: Ring<T>, page: T)
    requires Shape(r)
    ensures Put(r, page).count == if Notifies(r) then 0 else r.count + 1
    ensures Notifies(r) ==> r.count + 1 == Half(r)
  {
  }

  lemma FlattenSnoc<T>(ws: seq<seq<T>>, w: seq<T>)
    ensures Flatten(ws + [w]) == Flatten(ws) + w
  {
    assert (ws + [w])[..|ws|] == ws;
  }

  /* ---- the reset on an offline timeout ---- */

  /** meter_scan puts the positions back to zero but not the page count. */
  function Reset<T>(r: Ring<T>): Ring<T> { r.(fr := 0, re := 0) }

  lemma {:induction false} AfterReset<T>(r: Ring<T>, ps: seq<T>)
    requires Shape(r) && |ps| <= Half(r) - r.count
    ensures var r' := PutAll(Reset(r), ps);
            && r'.slots == ps + r.slots[|ps|..] && r'.fr == |ps|
            && (|ps| < Half(r) - r.count ==> r'.count == r.count + |ps|)
            && (|ps| == Half(r) - r.count ==> r'.count == 0 && r'.re == if r.count == 0 then 0 else |r.slots| - r.count)
    decreases |ps|
  {
    if ps != [] {
      var init := ps[..|ps| - 1];
      AfterReset(r, init);
      assert ps == init + [ps[|ps| - 1]];
      ModOnce(|ps| + Half(r), |r.slots|);
    }
  }

  /** The first window after a reset is the latest half of the pages exactly when the reset fell between two halves. */
  lemma ResetWindowExactly<T>(r: Ring<T>, pages: seq<T>, ps: seq<T>)
    requires Holds(r, pages) && |ps| == Half(r) - r.count
    requires forall i, j :: 0 <= i < j < |r.slots| ==> r.slots[i] != r.slots[j]
    ensures Half(r) <= |pages + ps|
    ensures Window(PutAll(Reset(r), ps)) == (pages + ps)[|pages + ps| - Half(r)..] <==> r.count == 0
  {
    AfterReset(r, ps);
    var w, latest := Window(PutAll(Reset(r), ps)), (pages + ps)[|pages + ps| - Half(r)..];
    hide PutAll, Reset;
    if r.count == 0 {
      assert w == ps == latest;
    } else {
      var c, n := r.count, |r.slots|;
      LatestBefore(r, pages, ps);
      assert w[c - 1] == r.slots[n - 1];
    }
  }

  lemma LatestBefore<T>(r: Ring<T>, pages: seq<T>, ps: seq<T>)
    requires Holds(r, pages) && |ps| == Half(r) - r.count && r.count > 0
    ensures (pages + ps)[|pages + ps| - Half(r)..][r.count - 1] == r.slots[r.fr - 1]
    ensures 0 <= r.fr - 1 < |r.slots| - 1
  {
    assert Behind(|r.slots|, r.fr, 1) == r.fr - 1;
  }
}
