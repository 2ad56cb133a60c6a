/** Whole runs of readWFB_Data (src/ade9000.c): each call transfers eight pages, handing a window over whenever a half
    is complete, and then repairs the eight. Pages are taken by their 96 used words, which is all the consumer copies. */
module WaveRuns {
  import opened Rings
  import opened WaveRing
  import opened Despike
  import opened WaveCapture

  predicate BurstOk(ds: seq<Words>) { |ds| == BURST && Transfers(ds) }

  /* ---- one burst, before and after its repair ---- */

  /** The samples of channel c in eight pages. */
  function BurstChannel(ds: seq<Words>, c: nat): (s: seq<int>)
    requires BurstOk(ds) && c < CHANNELS
    ensures |s| == SAMPLES
  {
    seq(SAMPLES, k requires 0 <= k < SAMPLES => ds[k / 16][6 * (k % 16) + c])
  }

  function FixedWord(ds: seq<Words>, i: nat, j: nat): int
    requires BurstOk(ds) && i < BURST && j < USED_WORDS
  {
    Repaired(BurstChannel(ds, j % 6), Threshold(j % 6))[16 * i + j / 6]
  }

  /** The eight pages after spike repair. */
  function Fixed(ds: seq<Words>): (fs: seq<Words>)
    requires BurstOk(ds)
    ensures BurstOk(fs)
  {
    seq(BURST, i requires 0 <= i < BURST => seq(USED_WORDS, j requires 0 <= j < USED_WORDS => FixedWord(ds, i, j)))
  }

  /** A word is changed by the repair of its burst exactly when it is a spike of its channel whose replacement differs. */
  lemma FixedWordExactly(ds: seq<Words>, i: nat, j: nat)
    requires BurstOk(ds) && i < BURST && j < USED_WORDS
    ensures var s, thr, k := BurstChannel(ds, j % 6), Threshold(j % 6), 16 * i + j / 6;
            && s[k] == ds[i][j]
            && (Fixed(ds)[i][j] != ds[i][j] <==> Spike(s, thr, k) && Repair(s, thr, k) != ds[i][j])
  {
    hide Repair, Threshold;
    var k := 16 * i + j / 6;
    assert k / 16 == i && k % 16 == j / 6;
    var s, thr := BurstChannel(ds, j % 6), Threshold(j % 6);
    if Spike(s, thr, k) { SpikeInside(s, thr, k); } else { OnlySpikesChange(s, thr, k); }
    hide Spike;
    assert Fixed(ds)[i][j] == Repaired(s, thr)[k];
  }

  /** Sample x of channel c in eight pages: sixteen samples a page, six channels a sample. */
  function SampleAt(ds: seq<Words>, c: nat, x: nat): int
    requires BurstOk(ds) && c < 6 && x < 128
  {
    ds[x / 16][6 * (x % 16) + c]
  }

  /** Which words of a burst are spikes: more than 50000 (voltages, the odd channels) or 80000 (currents) above or below
      the samples before and after, the ends of the burst excepted. */
  lemma BurstSpikeExactly(ds: seq<Words>, c: nat, x: nat)
    requires BurstOk(ds) && c < 6 && x < 128
    ensures Spike(BurstChannel(ds, c), Threshold(c), x) <==>
            && 0 < x < 127
            && var t, a, b, d := if c == 1 || c == 3 || c == 5 then 50000 else 80000,
                                 SampleAt(ds, c, x - 1), SampleAt(ds, c, x), SampleAt(ds, c, x + 1);
               (b > a + t && b > d + t) || (b < a - t && b < d - t)
  {
    var s := BurstChannel(ds, c);
    if 0 < x < 127 {
      assert s[x - 1] == SampleAt(ds, c, x - 1) && s[x] == SampleAt(ds, c, x) && s[x + 1] == SampleAt(ds, c, x + 1);
      SpikeExactly(s, Threshold(c), x);
      hide Spike, BurstChannel;
    }
  }

  /* ---- the repair of the last eight pages ---- */

  /** The slots of the last eight pages replaced. */
  function Mend(r: Ring<Words>, fs: seq<Words>): (r': Ring<Words>)
    requires Shape(r) && |r.slots| >= BURST && |fs| == BURST
    ensures Shape(r') && |r'.slots| == |r.slots|
  {
    var n := |r.slots|;
    var base := BurstStart(n, r.fr);
    r.(slots := seq(n, i requires 0 <= i < n => if Place(n, base, i) < BURST then fs[Place(n, base, i)] else r.slots[i]))
  }

  /** The last eight pages a ring took. */
  function LastBurst(r: Ring<Words>): (ds: seq<Words>)
    requires Shape(r) && |r.slots| >= BURST
    ensures |ds| == BURST
  {
    var base := BurstStart(|r.slots|, r.fr);
    seq(BURST, i requires 0 <= i < BURST => r.slots[Ahead(|r.slots|, base, i)])
  }

  lemma PatchedChannelIs(r: Ring<Page>, c: nat)
    requires Shape(r) && |r.slots| >= BURST && Pages(r.slots) && c < CHANNELS
    ensures BurstOk(LastBurst(Used(r)))
    ensures Channel(r.slots, BurstStart(|r.slots|, r.fr), c) == BurstChannel(LastBurst(Used(r)), c)
  {
    var n, base := |r.slots|, BurstStart(|r.slots|, r.fr);
    var ds := LastBurst(Used(r));
    forall k | 0 <= k < SAMPLES
      ensures Channel(r.slots, base, c)[k] == BurstChannel(ds, c)[k]
    {
      assert ds[k / 16] == r.slots[Ahead(n, base, k / 16)][..USED_WORDS];
    }
  }

  /** The code's repair mends the last eight pages with their own repair. */
  lemma UsedPatched(r: Ring<Page>)
    requires Shape(r) && |r.slots| >= BURST && Pages(r.slots)
    ensures BurstOk(LastBurst(Used(r)))
    ensures Used(r.(slots := Patched(r.slots, BurstStart(|r.slots|, r.fr), CHANNELS))) == Mend(Used(r), Fixed(LastBurst(Used(r))))
  {
    PatchedChannelIs(r, 0);
    var n, base, ds := |r.slots|, BurstStart(|r.slots|, r.fr), LastBurst(Used(r));
    var a := Used(r.(slots := Patched(r.slots, base, CHANNELS)));
    var b := Mend(Used(r), Fixed(ds));
    forall i | 0 <= i < n ensures a.slots[i] == b.slots[i] { PatchedSlot(r, i); }
    assert a.slots == b.slots;
  }

  lemma PatchedSlot(r: Ring<Page>, i: nat)
    requires Shape(r) && |r.slots| >= BURST && Pages(r.slots) && i < |r.slots|
    ensures BurstOk(LastBurst(Used(r)))
    ensures var base := BurstStart(|r.slots|, r.fr);
            var p := Place(|r.slots|, base, i);
            Patched(r.slots, base, CHANNELS)[i][..USED_WORDS] ==
              if p < BURST then Fixed(LastBurst(Used(r)))[p] else r.slots[i][..USED_WORDS]
  {
    PatchedChannelIs(r, 0);
    hide Repaired, Channel, BurstChannel, Threshold, LastBurst, Used;
    var base, ds := BurstStart(|r.slots|, r.fr), LastBurst(Used(r));
    var p := Place(|r.slots|, base, i);
    var got := Patched(r.slots, base, CHANNELS)[i][..USED_WORDS];
    forall j | 0 <= j < USED_WORDS
      ensures got[j] == if p < BURST then Fixed(ds)[p][j] else r.slots[i][j]
    {
      PatchedChannelIs(r, j % 6);
    }
  }

  /** The slots behind the write position hold these pages, the last one nearest. */
  predicate EndsIn(r: Ring<Words>, ds: seq<Words>)
    requires Shape(r)
  {
    && |ds| <= |r.slots|
    && forall k :: 1 <= k <= |ds| ==> r.slots[Behind(|r.slots|, r.fr, k)] == ds[|ds| - k]
  }

  lemma PutEndsIn(r: Ring<Words>, page: Words, ds: seq<Words>)
    requires Shape(r) && |ds| < |r.slots| && EndsIn(r, ds)
    ensures EndsIn(Put(r, page), ds + [page])
  {
    var r', n := Put(r, page), |r.slots|;
    forall k | 1 <= k <= |ds| + 1 ensures r'.slots[Behind(n, r'.fr, k)] == (ds + [page])[|ds| + 1 - k] {
      if k > 1 { assert Behind(n, r'.fr, k) == Behind(n, r.fr, k - 1); }
    }
  }

  lemma {:induction false} PutAllEndsIn(r: Ring<Words>, ds: seq<Words>)
    requires Shape(r) && |ds| <= |r.slots|
    ensures EndsIn(PutAll(r, ds), ds)
    decreases |ds|
  {
    hide EndsIn, Put;
    if ds == [] {
      NoneEndsIn(r);
    } else {
      PutAllEndsIn(r, ds[..|ds| - 1]);
      PutEndsIn(PutAll(r, ds[..|ds| - 1]), ds[|ds| - 1], ds[..|ds| - 1]);
      assert ds[..|ds| - 1] + [ds[|ds| - 1]] == ds;
    }
  }

  lemma NoneEndsIn(r: Ring<Words>)
    requires Shape(r)
    ensures EndsIn(r, [])
  {
  }

  lemma EndsInLastBurst(r: Ring<Words>, ds: seq<Words>)
    requires Shape(r) && |r.slots| >= BURST && |ds| == BURST && EndsIn(r, ds)
    ensures LastBurst(r) == ds
  {
    var n := |r.slots|;
    forall i | 0 <= i < BURST ensures LastBurst(r)[i] == ds[i] {
      assert r.slots[Behind(n, r.fr, BURST - i)] == ds[BURST - (BURST - i)];
      assert Ahead(n, BurstStart(n, r.fr), i) == Behind(n, r.fr, BURST - i);
    }
  }

  lemma LastBurstIs(r: Ring<Words>, ds: seq<Words>)
    requires Shape(r) && |r.slots| >= BURST && |ds| == BURST
    ensures LastBurst(PutAll(r, ds)) == ds
  {
    PutAllEndsIn(r, ds);
    EndsInLastBurst(PutAll(r, ds), ds);
  }

  /* ---- one call, and runs of calls ---- */

  /** readWFB_Data: the eight transfers, then their repair. */
  function Call(r: Ring<Words>, ds: seq<Words>): (r': Ring<Words>)
    requires Shape(r) && |r.slots| >= BURST && BurstOk(ds)
    ensures Shape(r') && |r'.slots| == |r.slots|
  {
    Mend(PutAll(r, ds), Fixed(ds))
  }

  predicate BurstsOk(bursts: seq<seq<Words>>) { forall m :: 0 <= m < |bursts| ==> BurstOk(bursts[m]) }

  function Calls(slots: seq<Words>, bursts: seq<seq<Words>>): (r: Ring<Words>)
    requires |slots| >= BURST && |slots| % 2 == 0 && BurstsOk(bursts)
    ensures Shape(r) && |r.slots| == |slots|
    decreases |bursts|
  {
    if bursts == [] then Empty(slots) else Call(Calls(slots, bursts[..|bursts| - 1]), bursts[|bursts| - 1])
  }

  /** All pages of the calls so far, as they stand after repair. */
  function Stream(bursts: seq<seq<Words>>): (s: seq<Words>)
    requires BurstsOk(bursts)
    ensures |s| == BURST * |bursts|
    decreases |bursts|
  {
    if bursts == [] then [] else Stream(bursts[..|bursts| - 1]) + Fixed(bursts[|bursts| - 1])
  }

  lemma {:induction false} PutAllKeeps(r: Ring<Words>, pages: seq<Words>, ds: seq<Words>)
    requires Holds(r, pages) && WindowCurrent(r, pages)
    ensures Holds(PutAll(r, ds), pages + ds) && WindowCurrent(PutAll(r, ds), pages + ds)
    decreases |ds|
  {
    HoldsShape(r, pages);
    hide Holds, WindowCurrent, Put;
    if ds == [] {
      assert pages + ds == pages;
    } else {
      var init, page := ds[..|ds| - 1], ds[|ds| - 1];
      PutAllKeeps(r, pages, init);
      assert pages + init + [page] == pages + ds;
      PutHolds(PutAll(r, init), pages + init, page);
      WindowAfter(PutAll(r, init), pages + init, page);
    }
  }

  lemma HoldsShape(r: Ring<Words>, pages: seq<Words>)
    requires Holds(r, pages)
    ensures Shape(r)
  {
  }

  /** Repair changes the last eight pages of what the ring holds and nothing else. */
  lemma MendHolds(r: Ring<Words>, pages: seq<Words>, ds: seq<Words>, fs: seq<Words>)
    requires Holds(r, pages + ds) && |r.slots| >= BURST && |ds| == |fs| == BURST
    ensures Holds(Mend(r, fs), pages + fs)
  {
    var n, r' := |r.slots|, Mend(r, fs);
    var base := BurstStart(n, r.fr);
    var was, all := pages + ds, pages + fs;
    forall k | 1 <= k <= n && k <= |all| ensures r'.slots[Behind(n, r'.fr, k)] == all[|all| - k] {
      var i := Behind(n, r.fr, k);
      if k <= BURST {
        assert i == Ahead(n, base, BURST - k);
        assert Place(n, base, i) == BURST - k;
      } else {
        assert Place(n, base, i) >= BURST;
        assert r.slots[i] == was[|was| - k] == pages[|was| - k];
      }
    }
  }

  /** What the ring holds and where it reads fix its window. */
  lemma WindowFromHolds(r: Ring<Words>, pages: seq<Words>)
    requires Holds(r, pages)
    requires if |pages| < Half(r) then r.count == |pages| && r.fr == |pages|
             else r.count + Half(r) <= |pages| && r.re == (if r.fr == r.count then Half(r) else 0)
    ensures WindowCurrent(r, pages)
  {
    var n, h, c := |r.slots|, Half(r), r.count;
    if |pages| >= h {
      var w := pages[|pages| - c - h..|pages| - c];
      forall q | 0 <= q < h ensures Window(r)[q] == w[q] {
        var k := c + h - q;
        assert Ahead(n, r.re, q) == Behind(n, r.fr, k);
        assert r.slots[Behind(n, r.fr, k)] == pages[|pages| - k];
      }
    }
  }

  lemma MendKeeps(r: Ring<Words>, pages: seq<Words>, ds: seq<Words>, fs: seq<Words>)
    requires Holds(r, pages + ds) && WindowCurrent(r, pages + ds) && |r.slots| >= BURST && |ds| == |fs| == BURST
    ensures Holds(Mend(r, fs), pages + fs) && WindowCurrent(Mend(r, fs), pages + fs)
  {
    MendHolds(r, pages, ds, fs);
    hide Window;
    MendPositions(r, fs);
    hide Mend;
    WindowFromHolds(Mend(r, fs), pages + fs);
  }

  lemma MendPositions(r: Ring<Words>, fs: seq<Words>)
    requires Shape(r) && |r.slots| >= BURST && |fs| == BURST
    ensures var r' := Mend(r, fs); r'.fr == r.fr && r'.re == r.re && r'.count == r.count && |r'.slots| == |r.slots|
  {
  }

  /** At the end of every call the ring holds the latest repaired pages, and its window is the half completed last. */
  lemma {:induction false} CallsKeep(slots: seq<Words>, bursts: seq<seq<Words>>)
    requires |slots| >= BURST && |slots| % 2 == 0 && BurstsOk(bursts)
    ensures Holds(Calls(slots, bursts), Stream(bursts)) && WindowCurrent(Calls(slots, bursts), Stream(bursts))
    decreases |bursts|
  {
    hide Holds, WindowCurrent, Mend, PutAll, Fixed;
    if bursts == [] {
      EmptyKeeps(slots);
    } else {
      var init, ds := bursts[..|bursts| - 1], bursts[|bursts| - 1];
      CallsKeep(slots, init);
      PutAllKeeps(Calls(slots, init), Stream(init), ds);
      MendKeeps(PutAll(Calls(slots, init), ds), Stream(init), ds, Fixed(ds));
    }
  }

  lemma EmptyKeeps(slots: seq<Words>)
    requires |slots| >= BURST && |slots| % 2 == 0
    ensures Holds(Empty(slots), []) && WindowCurrent(Empty(slots), [])
  {
  }

  /** And so it is at every moment between the transfers of a call, the pages of that call being still unrepaired. */
  lemma WindowAtEveryMoment(slots: seq<Words>, bursts: seq<seq<Words>>, part: seq<Words>)
    requires |slots| >= BURST && |slots| % 2 == 0 && BurstsOk(bursts)
    ensures var r := PutAll(Calls(slots, bursts), part);
            Holds(r, Stream(bursts) + part) && WindowCurrent(r, Stream(bursts) + part)
  {
    CallsKeep(slots, bursts);
    PutAllKeeps(Calls(slots, bursts), Stream(bursts), part);
  }

  /* ---- what the windows contain when they are handed over ---- */

  /** The windows handed over in all the calls. */
  function Handed(slots: seq<Words>, bursts: seq<seq<Words>>): seq<seq<Words>>
    requires |slots| >= BURST && |slots| % 2 == 0 && BurstsOk(bursts)
    decreases |bursts|
  {
    if bursts == [] then []
    else
      var init := bursts[..|bursts| - 1];
      Handed(slots, init) + Windows(Calls(slots, init), bursts[|bursts| - 1])
  }

  predicate EndsAt(w: seq<Words>, all: seq<Words>, end: int, h: nat) {
    h <= end <= |all| && w == all[end - h..end]
  }

  /** Where window k begins and window k - 1 ends. */
  function Cut(h: nat, k: nat): nat { h * k }

  lemma CutNext(h: nat, k: nat)
    ensures Cut(h, k + 1) == Cut(h, k) + h
  {
  }

  /** Window v of these, counted from k on, ends at its cut and after the pages there were before. */
  predicate Tile(w: seq<Words>, before: nat, all: seq<Words>, k: nat, h: nat) {
    before < Cut(h, k + 1) && EndsAt(w, all, Cut(h, k + 1), h)
  }

  /** Every window handed over among these pages ends at the next multiple of half the ring. */
  lemma {:induction false} WindowsEnd(r: Ring<Words>, pages: seq<Words>, ds: seq<Words>, k: nat)
    requires Holds(r, pages) && WindowCurrent(r, pages) && |pages| == Cut(Half(r), k) + r.count
    ensures var ws, e, h := Windows(r, ds), PutAll(r, ds), Half(r);
            && |pages| + |ds| == Cut(h, k + |ws|) + e.count
            && forall v :: 0 <= v < |ws| ==> Tile(ws[v], |pages|, pages + ds, k + v, h)
    decreases |ds|
  {
    hide Cut, Holds, WindowCurrent, Window, Tile, Put, PutAll, Windows;
    HoldsShape(r, pages);
    if ds == [] {
      NoWindows(r);
      assert pages + ds == pages;
    } else {
      var init, page := ds[..|ds| - 1], ds[|ds| - 1];
      WindowsEnd(r, pages, init, k);
      assert pages + init + [page] == pages + ds && init + [page] == ds;
      PutAllKeeps(r, pages, ds);
      MoreWindows(r, ds);
      PutAllLast(r, init, page);
      WindowsEndStep(PutAll(r, init), |pages|, pages + init, page, k, Windows(r, init));
    }
  }

  lemma PutAllLast(r: Ring<Words>, init: seq<Words>, page: Words)
    requires Shape(r)
    ensures PutAll(r, init + [page]) == Put(PutAll(r, init), page)
  {
    assert (init + [page])[..|init|] == init;
  }

  lemma WindowsEndStep(before: Ring<Words>, n: nat, all: seq<Words>, page: Words, k: nat, ws: seq<seq<Words>>)
    requires Shape(before) && n <= |all| == Cut(Half(before), k + |ws|) + before.count
    requires forall v :: 0 <= v < |ws| ==> Tile(ws[v], n, all, k + v, Half(before))
    requires WindowCurrent(Put(before, page), all + [page])
    ensures var e, h := Put(before, page), Half(before);
            var ws' := ws + (if Notifies(before) then [Window(e)] else []);
            && |all| + 1 == Cut(h, k + |ws'|) + e.count
            && forall v :: 0 <= v < |ws'| ==> Tile(ws'[v], n, all + [page], k + v, h)
  {
    var h, e := Half(before), Put(before, page);
    PutCount(before, page);
    hide Window, Put, Cut;
    CutNext(h, k + |ws|);
    forall v | 0 <= v < |ws| ensures Tile(ws[v], n, all + [page], k + v, h) {
      EndsLater(ws[v], all, page, Cut(h, k + v + 1), h);
    }
    if Notifies(before) {
      var whole := all + [page];
      assert whole[|whole| - h..|whole|] == whole[|whole| - 0 - h..|whole| - 0];
      assert Tile(Window(e), n, whole, k + |ws|, h);
    }
  }

  lemma EndsLater(w: seq<Words>, all: seq<Words>, page: Words, end: int, h: nat)
    requires EndsAt(w, all, end, h)
    ensures EndsAt(w, all + [page], end, h)
  {
  }

  lemma {:induction false} StreamPage(bursts: seq<seq<Words>>, p: nat)
    requires BurstsOk(bursts) && p < BURST * |bursts|
    ensures p / BURST < |bursts| && Stream(bursts)[p] == Fixed(bursts[p / BURST])[p % BURST]
    decreases |bursts|
  {
    hide Fixed;
    var init := bursts[..|bursts| - 1];
    if p < BURST * |init| { StreamPage(init, p); }
  }

  /** Page p of the stream in the window that ends before page end: repaired unless its burst is the one that
      completes the window. */
  function HandedPage(bursts: seq<seq<Words>>, p: nat, end: int): Words
    requires BurstsOk(bursts) && p < BURST * |bursts|
  {
    if p / BURST == (end - 1) / BURST then bursts[p / BURST][p % BURST] else Fixed(bursts[p / BURST])[p % BURST]
  }

  /** One window of the last burst, page by page. */
  lemma WindowPages(bursts: seq<seq<Words>>, w: seq<Words>, end: nat, h: nat, q: nat)
    requires BurstsOk(bursts) && bursts != [] && q < h
    requires var init := bursts[..|bursts| - 1];
             BURST * |init| < end && EndsAt(w, Stream(init) + bursts[|bursts| - 1], end, h)
    ensures |w| == h && end - h + q < BURST * |bursts| && w[q] == HandedPage(bursts, end - h + q, end)
  {
    hide Fixed, Stream;
    var init, p := bursts[..|bursts| - 1], end - h + q;
    if p < BURST * |init| { StreamPage(init, p); }
  }

  predicate PageOk(bursts: seq<seq<Words>>, w: seq<Words>, k: nat, q: nat, h: nat)
    requires BurstsOk(bursts)
  {
    && |w| == h && q < h && Cut(h, k) + q < BURST * |bursts|
    && w[q] == HandedPage(bursts, Cut(h, k) + q, Cut(h, k + 1))
  }

  lemma PageOkLater(bursts: seq<seq<Words>>, w: seq<Words>, k: nat, q: nat, h: nat)
    requires BurstsOk(bursts) && bursts != [] && PageOk(bursts[..|bursts| - 1], w, k, q, h)
    ensures PageOk(bursts, w, k, q, h)
  {
    hide Fixed, Cut;
  }

  lemma PageOkNow(bursts: seq<seq<Words>>, w: seq<Words>, k: nat, q: nat, h: nat)
    requires BurstsOk(bursts) && bursts != [] && q < h
    requires var init := bursts[..|bursts| - 1];
             Tile(w, BURST * |init|, Stream(init) + bursts[|bursts| - 1], k, h)
    ensures PageOk(bursts, w, k, q, h)
  {
    hide Fixed, Stream, HandedPage, Cut;
    CutNext(h, k);
    WindowPages(bursts, w, Cut(h, k + 1), h, q);
  }

  predicate AllPagesOk(bursts: seq<seq<Words>>, ws: seq<seq<Words>>, h: nat)
    requires BurstsOk(bursts)
  {
    forall k, q :: 0 <= k < |ws| && 0 <= q < h ==> PageOk(bursts, ws[k], k, q, h)
  }

  lemma {:induction false} HandedAll(slots: seq<Words>, bursts: seq<seq<Words>>)
    requires |slots| >= BURST && |slots| % 2 == 0 && BurstsOk(bursts)
    ensures var ws, h := Handed(slots, bursts), |slots| / 2;
            BURST * |bursts| == Cut(h, |ws|) + Calls(slots, bursts).count && AllPagesOk(bursts, ws, h)
    decreases |bursts|
  {
    hide AllPagesOk, Cut, Tile, Holds, WindowCurrent, Windows, PutAll, Mend, Fixed, Window;
    var h := |slots| / 2;
    if bursts == [] {
      NothingHanded(h);
    } else {
      var init, ds := bursts[..|bursts| - 1], bursts[|bursts| - 1];
      HandedAll(slots, init);
      CallsKeep(slots, init);
      var r := Calls(slots, init);
      WindowsEnd(r, Stream(init), ds, |Handed(slots, init)|);
      MendPositions(PutAll(r, ds), Fixed(ds));
      hide Stream, Calls;
      TilesOk(bursts, Handed(slots, init), Windows(r, ds), h);
    }
  }

  lemma NothingHanded(h: nat)
    ensures Cut(h, 0) == 0 && AllPagesOk([], [], h)
  {
  }

  lemma TilesOk(bursts: seq<seq<Words>>, was: seq<seq<Words>>, ws: seq<seq<Words>>, h: nat)
    requires BurstsOk(bursts) && bursts != []
    requires var init := bursts[..|bursts| - 1];
             && AllPagesOk(init, was, h)
             && forall v :: 0 <= v < |ws| ==> Tile(ws[v], BURST * |init|, Stream(init) + bursts[|bursts| - 1], |was| + v, h)
    ensures AllPagesOk(bursts, was + ws, h)
  {
    hide Stream, PageOk, Tile;
    forall k, q | 0 <= k < |was + ws| && 0 <= q < h ensures PageOk(bursts, (was + ws)[k], k, q, h) {
      if k < |was| {
        PageOkLater(bursts, was[k], k, q, h);
      } else {
        PageOkNow(bursts, ws[k - |was|], k, q, h);
      }
    }
  }

  /** Over all runs: the windows handed over are the stream of pages cut into halves, none lost, repeated or out of
      order, each page repaired unless its own call is the one that completed its window. */
  lemma HandedExactly(slots: seq<Words>, bursts: seq<seq<Words>>, k: nat, q: nat)
    requires |slots| >= BURST && |slots| % 2 == 0 && BurstsOk(bursts) && k < |Handed(slots, bursts)| && q < |slots| / 2
    ensures BURST * |bursts| == Cut(|slots| / 2, |Handed(slots, bursts)|) + Calls(slots, bursts).count
    ensures PageOk(bursts, Handed(slots, bursts)[k], k, q, |slots| / 2)
  {
    HandedAll(slots, bursts);
    hide Handed, Calls, PageOk, Cut;
  }

  /* ---- what repair then changes in a window already handed over ---- */

  /** The window as it stands is the pages of the stream between cuts k and k + 1, all repaired. */
  predicate Settles(w: seq<Words>, bursts: seq<seq<Words>>, k: nat, h: nat)
    requires BurstsOk(bursts)
  {
    Cut(h, k) + h == Cut(h, k + 1) <= |Stream(bursts)| && w == Stream(bursts)[Cut(h, k)..Cut(h, k) + h]
  }

  /** So the window last handed over stands at the end of every call, until the next half is complete. */
  lemma LastWindowSettles(slots: seq<Words>, bursts: seq<seq<Words>>)
    requires |slots| >= BURST && |slots| % 2 == 0 && BurstsOk(bursts) && Handed(slots, bursts) != []
    ensures Settles(Window(Calls(slots, bursts)), bursts, |Handed(slots, bursts)| - 1, |slots| / 2)
  {
    hide Handed, Calls, AllPagesOk, Holds, PageOk, Settles, WindowCurrent, Window, Stream, Cut;
    HandedAll(slots, bursts);
    CallsKeep(slots, bursts);
    WindowSettles(Calls(slots, bursts), bursts, |Handed(slots, bursts)| - 1, |slots| / 2);
  }

  lemma WindowSettles(r: Ring<Words>, bursts: seq<seq<Words>>, k: nat, h: nat)
    requires Shape(r) && BurstsOk(bursts) && h == Half(r) && WindowCurrent(r, Stream(bursts))
    requires BURST * |bursts| == Cut(h, k + 1) + r.count
    ensures Settles(Window(r), bursts, k, h)
  {
    hide Window, Stream, Cut, WindowCurrent;
    CutNext(h, k);
    WindowBetween(r, Stream(bursts), Cut(h, k));
  }

  lemma WindowBetween(r: Ring<Words>, pages: seq<Words>, from: nat)
    requires Shape(r) && WindowCurrent(r, pages) && |pages| == from + Half(r) + r.count
    ensures Window(r) == pages[from..from + Half(r)]
  {
    hide Window;
  }

  /** Word j of page i is a spike of its channel in the burst and its replacement differs. */
  predicate Replaced(ds: seq<Words>, i: nat, j: nat)
    requires BurstOk(ds) && i < BURST && j < USED_WORDS
  {
    var s, thr, x := BurstChannel(ds, j % 6), Threshold(j % 6), 16 * i + j / 6;
    Spike(s, thr, x) && (SpikeInside(s, thr, x); Repair(s, thr, x) != ds[i][j])
  }

  /** Word j of page q of window k: how it was handed over and how it stands. */
  predicate ChangesExactly(bursts: seq<seq<Words>>, handed: Words, stands: Words, k: nat, q: nat, j: nat, h: nat)
    requires BurstsOk(bursts) && j < USED_WORDS && Cut(h, k) + q < BURST * |bursts|
  {
    var p := Cut(h, k) + q;
    && |handed| == |stands| == USED_WORDS
    && (stands[j] != handed[j] <==>
          p / BURST == (Cut(h, k + 1) - 1) / BURST && Replaced(bursts[p / BURST], p % BURST, j))
  }

  lemma PageChanges(bursts: seq<seq<Words>>, handed: seq<Words>, stands: seq<Words>, k: nat, q: nat, j: nat, h: nat)
    requires BurstsOk(bursts) && j < USED_WORDS && PageOk(bursts, handed, k, q, h) && Settles(stands, bursts, k, h)
    ensures |handed| == |stands| == h && ChangesExactly(bursts, handed[q], stands[q], k, q, j, h)
  {
    hide Cut, Stream, Settles, HandedPage, Fixed, Replaced, BurstsOk;
    StandsPage(bursts, stands, k, q, h);
    var p, end := Cut(h, k) + q, Cut(h, k + 1);
    WordChanges(bursts, p, end, handed[q], stands[q], j);
  }

  lemma StandsPage(bursts: seq<seq<Words>>, stands: seq<Words>, k: nat, q: nat, h: nat)
    requires BurstsOk(bursts) && q < h && Settles(stands, bursts, k, h) && Cut(h, k) + q < BURST * |bursts|
    ensures var p := Cut(h, k) + q;
            p / BURST < |bursts| && |stands| == h && stands[q] == Fixed(bursts[p / BURST])[p % BURST]
  {
    hide Cut, Stream, Fixed;
    StreamPage(bursts, Cut(h, k) + q);
  }

  lemma WordChanges(bursts: seq<seq<Words>>, p: nat, end: int, handed: Words, stands: Words, j: nat)
    requires BurstsOk(bursts) && p < BURST * |bursts| && j < USED_WORDS
    requires handed == HandedPage(bursts, p, end) && stands == Fixed(bursts[p / BURST])[p % BURST]
    ensures |handed| == |stands| == USED_WORDS
    ensures stands[j] != handed[j] <==> p / BURST == (end - 1) / BURST && Replaced(bursts[p / BURST], p % BURST, j)
  {
    var ds, i := bursts[p / BURST], p % BURST;
    FixedWordExactly(ds, i, j);
    hide Spike, Repair, BurstChannel, Threshold, Fixed;
  }

  /** Repair changes a word of a window after handing it over exactly when the call that completed the window also
      transferred the word's page, and the word is a spike whose replacement differs. */
  lemma HandedWordChanges(slots: seq<Words>, bursts: seq<seq<Words>>, q: nat, j: nat)
    requires |slots| >= BURST && |slots| % 2 == 0 && BurstsOk(bursts) && Handed(slots, bursts) != []
    requires q < |slots| / 2 && j < USED_WORDS
    ensures var k, h := |Handed(slots, bursts)| - 1, |slots| / 2;
            var handed, stands := Handed(slots, bursts)[k], Window(Calls(slots, bursts));
            && |handed| == |stands| == h && Cut(h, k) + q < BURST * |bursts|
            && ChangesExactly(bursts, handed[q], stands[q], k, q, j, h)
  {
    var k := |Handed(slots, bursts)| - 1;
    HandedExactly(slots, bursts, k, q);
    LastWindowSettles(slots, bursts);
    hide Settles, Calls, Handed, Window, Cut, ChangesExactly;
    PageChanges(bursts, Handed(slots, bursts)[k], Window(Calls(slots, bursts)), k, q, j, |slots| / 2);
  }

  /* ---- an instance at the meter's own size ---- */

  const PG_BUF_CNT := 200

  /** A burst that is quiet but for one word of its second page. */
  function Spiky(): seq<Words> {
    seq(BURST, i => seq(USED_WORDS, j => if i == 1 && j == 0 then 100000 else 0))
  }

  lemma SpikyIsReplaced()
    ensures BurstOk(Spiky()) && Spiky()[1][0] == 100000 && Replaced(Spiky(), 1, 0)
  {
    var s := BurstChannel(Spiky(), 0);
    assert s[16] == 100000 && s[14] == s[15] == s[17] == s[18] == 0;
    var thr := Threshold(0);
    assert Spike(s, thr, 16) && !Spike(s, thr, 15) && !Spike(s, thr, 17);
    SpikeInside(s, thr, 16);
    assert Left(s, thr, 16) == 15 && Right(s, thr, 16) == 17;
    assert -1000000 <= Repair(s, thr, 16) <= 0;
  }

  /** Thirteen such calls: the first window, completed in the middle of the thirteenth, is handed over with the spike
      of page 97 in it, which that call's own repair then takes out. */
  lemma HandedThenRepaired(slots: seq<Words>)
    requires |slots| == PG_BUF_CNT
    ensures var bursts := seq(13, _ => Spiky());
            && BurstsOk(bursts) && |Handed(slots, bursts)| == 1 && |Handed(slots, bursts)[0]| == 100
            && |Handed(slots, bursts)[0][97]| == |Window(Calls(slots, bursts))[97]| == USED_WORDS
            && Handed(slots, bursts)[0][97][0] == 100000 && Window(Calls(slots, bursts))[97][0] != 100000
  {
    SpikyIsReplaced();
    var bursts := seq(13, _ => Spiky());
    hide Handed, Calls, Window, Spiky, Replaced, Fixed, AllPagesOk, Cut, PageOk, ChangesExactly;
    assert BurstsOk(bursts);
    HandedAll(slots, bursts);
    OneWindow(|Handed(slots, bursts)|, Calls(slots, bursts).count);
    HandedExactly(slots, bursts, 0, 97);
    HandedWordChanges(slots, bursts, 97, 0);
    SpikyPage(bursts, Handed(slots, bursts)[0], Window(Calls(slots, bursts)));
  }

  lemma SpikyPage(bursts: seq<seq<Words>>, w: seq<Words>, stands: seq<Words>)
    requires BurstsOk(bursts) && bursts == seq(13, _ => Spiky())
    requires PageOk(bursts, w, 0, 97, 100) && |stands| == 100
    requires Cut(100, 0) + 97 < BURST * 13 && ChangesExactly(bursts, w[97], stands[97], 0, 97, 0, 100)
    ensures |w| == 100 && |w[97]| == |stands[97]| == USED_WORDS && w[97][0] == 100000 && stands[97][0] != 100000
  {
    SpikyIsReplaced();
    hide Spiky, Replaced, Fixed;
    assert Cut(100, 0) == 0 && Cut(100, 1) == 100;
    assert bursts[12] == Spiky();
  }

  lemma OneWindow(n: nat, count: nat)
    requires Cut(100, n) + count == 104 && count < 100
    ensures n == 1
  {
  }

  /* ---- the call as the code makes it ---- */

  /** Transfers a burst and repairs it; the windows handed over meanwhile. */
  method ReadWfbData(q: WaveQueue, ds: seq<Words>) returns (ghost handed: seq<seq<Words>>)
    requires q.Valid() && BurstOk(ds)
    modifies q, q.wb
    ensures q.Valid() && Used(q.State()) == Call(Used(old(q.State())), ds)
    ensures handed == Windows(Used(old(q.State())), ds)
  {
    hide Used, Windows, Mend, LastBurst, Fixed, Patched;
    ghost var r := q.State();
    handed := q.ReadBurst(ds);
    UsedReceive(r, ds);
    LastBurstIs(Used(r), ds);
    UsedPatched(q.State());
    q.RepairBurst();
  }
}
