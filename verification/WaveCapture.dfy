/** readWFB_Data of src/ade9000.c on its buffers: eight pages into the ring, then spike repair over those eight slots. */
module WaveCapture {
  import opened Rings
  import opened WaveRing
  import opened Despike

  const BURST := 8
  const PAGE_WORDS := 128
  const USED_WORDS := 96
  const CHANNELS := 6

  type Page = seq<int>

  /** The used words of a page, which is all the consumer copies. */
  type Words = seq<int>

  /** The first of the two eight-page halves of the chip's buffer that is not being written. */
  function StableHalf(page: nat): (first: nat)
    requires page < 16
    ensures first == 0 || first == 8
    ensures var writing := (page + 1) % 16; !(first <= writing < first + 8)
  {
    if (page + 1) % 16 < 8 then 8 else 0
  }

  /** What the transfer of the used words leaves in a slot. */
  function Landed(slot: Page, words: seq<int>): Page
    requires |slot| == PAGE_WORDS && |words| == USED_WORDS
  {
    words + slot[USED_WORDS..]
  }

  predicate Pages(slots: seq<Page>) { forall i :: 0 <= i < |slots| ==> |slots[i]| == PAGE_WORDS }

  predicate Transfers(ds: seq<seq<int>>) { forall i :: 0 <= i < |ds| ==> |ds[i]| == USED_WORDS }

  /** The ring after the transfers of one burst. */
  function Receive(r: Ring<Page>, ds: seq<seq<int>>): (r': Ring<Page>)
    requires Shape(r) && Pages(r.slots) && Transfers(ds)
    ensures Shape(r') && Pages(r'.slots) && |r'.slots| == |r.slots|
    decreases |ds|
  {
    if ds == [] then r
    else
      var before := Receive(r, ds[..|ds| - 1]);
      Put(before, Landed(before.slots[before.fr], ds[|ds| - 1]))
  }

  /* ---- the ring of used words ---- */

  /** What the consumer can see of a ring of pages. */
  function Used(r: Ring<Page>): (u: Ring<Words>)
    requires Pages(r.slots)
    ensures |u.slots| == |r.slots| && u.fr == r.fr && u.re == r.re && u.count == r.count
  {
    r.(slots := seq(|r.slots|, i requires 0 <= i < |r.slots| => r.slots[i][..USED_WORDS]))
  }

  lemma UsedPut(r: Ring<Page>, words: Words)
    requires Shape(r) && Pages(r.slots) && |words| == USED_WORDS
    ensures var page := Landed(r.slots[r.fr], words);
            Pages(Put(r, page).slots) && Used(Put(r, page)) == Put(Used(r), words)
  {
    var page := Landed(r.slots[r.fr], words);
    assert page[..USED_WORDS] == words;
    var a, b := Used(Put(r, page)), Put(Used(r), words);
    assert forall i :: 0 <= i < |r.slots| ==> a.slots[i] == b.slots[i];
    assert a.slots == b.slots;
  }

  /** The transfers of the code are the ring's own puts. */
  lemma {:induction false} UsedReceive(r: Ring<Page>, ds: seq<Words>)
    requires Shape(r) && Pages(r.slots) && Transfers(ds)
    ensures Used(Receive(r, ds)) == PutAll(Used(r), ds)
    decreases |ds|
  {
    hide Used, Landed, Put;
    if ds != [] {
      var before := Receive(r, ds[..|ds| - 1]);
      UsedReceive(r, ds[..|ds| - 1]);
      UsedPut(before, ds[|ds| - 1]);
    }
  }

  /* ---- the eight slots of a burst as sample sequences ---- */

  /** The slot of the oldest of the eight pages behind the write position. */
  function BurstStart(n: nat, fr: nat): (base: nat)
    requires BURST <= n && fr < n
    ensures base < n
    ensures forall i :: 0 <= i < BURST ==> Ahead(n, base, i) == Behind(n, fr, BURST - i)
  {
    if fr >= BURST then fr - BURST else fr + n - BURST
  }

  function Slot(n: nat, base: nat, k: nat): nat { Ahead(n, base, k / 16) }

  /** The samples of channel c in the eight slots from base. */
  function Channel(slots: seq<Page>, base: nat, c: nat): (s: seq<int>)
    requires |slots| >= BURST && base < |slots| && c < CHANNELS && Pages(slots)
    ensures |s| == SAMPLES
  {
    seq(SAMPLES, k requires 0 <= k < SAMPLES => slots[Slot(|slots|, base, k)][6 * (k % 16) + c])
  }

  function Threshold(c: nat): int { if c % 2 == 1 then 50000 else 80000 }

  /** Place of a slot in the burst that starts at base. */
  function Place(n: nat, base: nat, slot: nat): nat
    requires base < n && slot < n
  {
    if slot >= base then slot - base else slot + n - base
  }

  /** The burst's slots with channels below m repaired: every other word stays. */
  function Patched(slots: seq<Page>, base: nat, m: nat): (p: seq<Page>)
    requires |slots| >= BURST && base < |slots| && m <= CHANNELS && Pages(slots)
    ensures |p| == |slots| && Pages(p)
  {
    seq(|slots|, i requires 0 <= i < |slots| =>
      seq(PAGE_WORDS, j requires 0 <= j < PAGE_WORDS =>
        PatchedWord(slots, base, m, i, j)))
  }

  function PatchedWord(slots: seq<Page>, base: nat, m: nat, i: nat, j: nat): int
    requires |slots| >= BURST && base < |slots| && m <= CHANNELS && Pages(slots) && i < |slots| && j < PAGE_WORDS
  {
    var p := Place(|slots|, base, i);
    if p < BURST && j < USED_WORDS && j % 6 < m then Repaired(Channel(slots, base, j % 6), Threshold(j % 6))[16 * p + j / 6]
    else slots[i][j]
  }

  /** The slots with the samples of channel c replaced by t. */
  function WithChannel(slots: seq<Page>, base: nat, c: nat, t: seq<int>): (p: seq<Page>)
    requires |slots| >= BURST && base < |slots| && c < CHANNELS && Pages(slots) && |t| == SAMPLES
    ensures |p| == |slots| && Pages(p)
  {
    seq(|slots|, i requires 0 <= i < |slots| =>
      seq(PAGE_WORDS, j requires 0 <= j < PAGE_WORDS => Word(slots, base, c, t, i, j)))
  }

  function Word(slots: seq<Page>, base: nat, c: nat, t: seq<int>, i: nat, j: nat): int
    requires |slots| >= BURST && base < |slots| && c < CHANNELS && Pages(slots) && |t| == SAMPLES
    requires i < |slots| && j < PAGE_WORDS
  {
    var p := Place(|slots|, base, i);
    if p < BURST && j < USED_WORDS && j % 6 == c then t[16 * p + j / 6] else slots[i][j]
  }

  /** A sample's slot and word, and back. */
  lemma SampleCell(n: nat, base: nat, c: nat, k: nat)
    requires n >= BURST && base < n && c < CHANNELS && k < SAMPLES
    ensures var i, w := Slot(n, base, k), 6 * (k % 16) + c;
            i < n && w < USED_WORDS && Place(n, base, i) == k / 16 && w % 6 == c && w / 6 == k % 16
  {
  }

  lemma CellSample(n: nat, base: nat, c: nat, k: nat, i: nat, j: nat)
    requires n >= BURST && base < n && c < CHANNELS && k < SAMPLES && i < n && j < USED_WORDS
    requires Place(n, base, i) < BURST && j % 6 == c && 16 * Place(n, base, i) + j / 6 == k
    ensures i == Slot(n, base, k) && j == 6 * (k % 16) + c
  {
  }

  lemma SetSample(slots: seq<Page>, base: nat, c: nat, t: seq<int>, k: nat, v: int)
    requires |slots| >= BURST && base < |slots| && c < CHANNELS && Pages(slots) && |t| == SAMPLES && k < SAMPLES
    ensures var i, w := Slot(|slots|, base, k), 6 * (k % 16) + c;
            && i < |slots| && w < PAGE_WORDS
            && var p := WithChannel(slots, base, c, t);
            p[i := p[i][w := v]] == WithChannel(slots, base, c, t[k := v])
  {
    var n := |slots|;
    var i, w := Slot(n, base, k), 6 * (k % 16) + c;
    SampleCell(n, base, c, k);
    var p, q := WithChannel(slots, base, c, t), WithChannel(slots, base, c, t[k := v]);
    hide Slot;
    forall i', j' | 0 <= i' < n && 0 <= j' < PAGE_WORDS
      ensures Word(slots, base, c, t[k := v], i', j') ==
              if i' == i && j' == w then v else Word(slots, base, c, t, i', j')
    {
      var o := Place(n, base, i');
      if o < BURST && j' < USED_WORDS && j' % 6 == c && 16 * o + j' / 6 == k { CellSample(n, base, c, k, i', j'); }
    }
    assert forall i' :: 0 <= i' < n ==> q[i'] == p[i := p[i][w := v]][i'];
  }

  lemma ChannelRead(slots: seq<Page>, base: nat, c: nat)
    requires |slots| >= BURST && base < |slots| && c < CHANNELS && Pages(slots)
    ensures WithChannel(slots, base, c, Channel(slots, base, c)) == slots
  {
    var n, t := |slots|, Channel(slots, base, c);
    forall i, j | 0 <= i < n && 0 <= j < PAGE_WORDS ensures Word(slots, base, c, t, i, j) == slots[i][j] {
      var o := Place(n, base, i);
      if o < BURST && j < USED_WORDS && j % 6 == c { CellSample(n, base, c, 16 * o + j / 6, i, j); }
    }
    assert forall i :: 0 <= i < n ==> WithChannel(slots, base, c, t)[i] == slots[i];
  }

  lemma PatchedNone(slots: seq<Page>, base: nat)
    requires |slots| >= BURST && base < |slots| && Pages(slots)
    ensures Patched(slots, base, 0) == slots
  {
    assert forall i :: 0 <= i < |slots| ==> Patched(slots, base, 0)[i] == slots[i];
  }

  lemma PatchedChannel(slots: seq<Page>, base: nat, c: nat)
    requires |slots| >= BURST && base < |slots| && c < CHANNELS && Pages(slots)
    ensures Channel(Patched(slots, base, c), base, c) == Channel(slots, base, c)
  {
    hide Repaired;
    forall k | 0 <= k < SAMPLES ensures Channel(Patched(slots, base, c), base, c)[k] == Channel(slots, base, c)[k] {
      SampleCell(|slots|, base, c, k);
    }
  }

  lemma PatchNext(slots: seq<Page>, base: nat, c: nat)
    requires |slots| >= BURST && base < |slots| && c < CHANNELS && Pages(slots)
    ensures WithChannel(Patched(slots, base, c), base, c, Repaired(Channel(slots, base, c), Threshold(c))) ==
            Patched(slots, base, c + 1)
  {
    hide Repaired, Channel, Threshold;
    var p, q := Patched(slots, base, c), Patched(slots, base, c + 1);
    var t := Repaired(Channel(slots, base, c), Threshold(c));
    forall i | 0 <= i < |slots| ensures WithChannel(p, base, c, t)[i] == q[i] {
      assert forall j :: 0 <= j < PAGE_WORDS ==> Word(p, base, c, t, i, j) == PatchedWord(slots, base, c + 1, i, j);
    }
  }

  lemma NoWindows(r: Ring<Words>)
    requires Shape(r)
    ensures Windows(r, []) == [] && PutAll(r, []) == r
  {
  }

  lemma MoreWindows(r: Ring<Words>, ds: seq<Words>)
    requires Shape(r) && ds != []
    ensures var before := PutAll(r, ds[..|ds| - 1]);
            Windows(r, ds) ==
            Windows(r, ds[..|ds| - 1]) + (if Notifies(before) then [Window(PutAll(r, ds))] else [])
  {
  }

  class WaveQueue {
    const wb: array<Page>
    var fr: nat
    var re: nat
    var count: nat

    constructor (n: nat)
      requires n >= BURST && n % 2 == 0
      ensures Valid() && fresh(wb) && wb.Length == n && fr == 0 && re == 0 && count == 0
    {
      wb := new Page[n](_ => seq(PAGE_WORDS, _ => 0));
      fr, re, count := 0, 0, 0;
    }

    ghost function State(): Ring<Page>
      reads this, wb
    {
      Ring(wb[..], fr, re, count)
    }

    ghost predicate Valid()
      reads this, wb
    {
      Shape(State()) && Pages(wb[..]) && wb.Length >= BURST
    }

    /** The slot to fill next. */
    method GetWave32kBuf() returns (slot: nat)
      requires Valid()
      modifies `fr, `count
      ensures slot == old(fr) && count == old(count) + 1
      ensures fr == if old(fr) + 1 >= wb.Length then 0 else old(fr) + 1
    {
      slot := fr;
      fr := fr + 1;
      if fr >= wb.Length { fr := 0; }
      count := count + 1;
    }

    /** Transfers one page and, at the end of a half, notifies the consumer. */
    method ReadPage(words: seq<int>) returns (notified: bool)
      requires Valid() && |words| == USED_WORDS
      modifies this, wb
      ensures Valid()
      ensures State() == Put(old(State()), Landed(old(wb[fr]), words))
      ensures notified == Notifies(old(State()))
    {
      ghost var was := wb[..];
      var slot := GetWave32kBuf();
      wb[slot] := Landed(wb[slot], words);
      assert wb[..] == was[slot := wb[slot]];
      notified := count >= wb.Length / 2;
      if notified {
        count := 0;
        re := (fr + wb.Length / 2) % wb.Length;
      }
    }

    /** Eight transfers; the windows handed over meanwhile. */
    method ReadBurst(ds: seq<seq<int>>) returns (ghost handed: seq<seq<Words>>)
      requires Valid() && |ds| == BURST && Transfers(ds)
      modifies this, wb
      ensures Valid() && State() == Receive(old(State()), ds)
      ensures handed == Windows(Used(old(State())), ds)
    {
      hide Used, Windows, Window;
      ghost var r := State();
      handed := [];
      NoWindows(Used(r));
      for i := 0 to BURST
        invariant Valid() && State() == Receive(r, ds[..i])
        invariant handed == Windows(Used(r), ds[..i])
      {
        assert ds[..i + 1][..i] == ds[..i];
        UsedReceive(r, ds[..i]);
        UsedReceive(r, ds[..i + 1]);
        var notified := ReadPage(ds[i]);
        if notified { handed := handed + [Window(Used(State()))]; }
        MoreWindows(Used(r), ds[..i + 1]);
      }
      assert ds[..BURST] == ds;
    }

    /** copyToWaveWindow: the pages the consumer takes. */
    method CopyWindow() returns (pages: seq<Page>)
      requires Valid()
      ensures pages == Window(State())
    {
      pages := [];
      var wr := re;
      for i := 0 to wb.Length / 2
        invariant wr == re + i || wr == re + i - wb.Length
        invariant 0 <= wr <= wb.Length && (wr < wb.Length ==> wr == Ahead(wb.Length, re, i))
        invariant wr == wb.Length ==> Ahead(wb.Length, re, i) == 0
        invariant |pages| == i && forall k :: 0 <= k < i ==> pages[k] == Window(State())[k]
      {
        if wr >= wb.Length { wr := 0; }
        pages := pages + [wb[wr]];
        wr := wr + 1;
      }
    }

    method ReadChannel(base: nat, c: nat) returns (s: seq<int>)
      requires Valid() && base < wb.Length && c < CHANNELS
      ensures s == Channel(wb[..], base, c)
    {
      s := [];
      for k := 0 to SAMPLES
        invariant |s| == k && forall j :: 0 <= j < k ==> s[j] == Channel(wb[..], base, c)[j]
      {
        var ring := base + k / 16;
        if ring >= wb.Length { ring := ring - wb.Length; }
        s := s + [wb[ring][6 * (k % 16) + c]];
      }
    }

    /** Spike repair over the eight slots just read, channel by channel. */
    method RepairBurst()
      requires Valid()
      modifies wb
      ensures Valid()
      ensures wb[..] == Patched(old(wb[..]), BurstStart(wb.Length, fr), CHANNELS)
    {
      hide Patched, Channel, Repaired, WithChannel, Threshold, Slot;
      ghost var slots := wb[..];
      var base := if fr >= BURST then fr - BURST else fr + wb.Length - BURST;
      PatchedNone(slots, base);
      for c := 0 to CHANNELS
        invariant Valid() && wb[..] == Patched(slots, base, c)
      {
        PatchedChannel(slots, base, c);
        PatchNext(slots, base, c);
        RepairChannel(base, c);
      }
    }

    method RepairChannel(base: nat, c: nat)
      requires Valid() && base < wb.Length && c < CHANNELS
      modifies wb
      ensures Valid()
      ensures wb[..] == WithChannel(old(wb[..]), base, c, Repaired(Channel(old(wb[..]), base, c), Threshold(c)))
    {
      hide Channel, Repaired, WithChannel, Repair, Spike;
      ghost var slots := wb[..];
      var s := ReadChannel(base, c);
      var thr := if c % 2 == 1 then 50000 else 80000;
      var mk := MarkSpikes(s, thr);
      ChannelRead(slots, base, c);
      ghost var t := s;
      var k := 1;
      RepairedEnds(s, thr);
      while k < SAMPLES - 1
        invariant 1 <= k <= SAMPLES - 1 && |t| == SAMPLES
        invariant forall j :: 0 <= j < SAMPLES ==> t[j] == if j < k then Repaired(s, thr)[j] else s[j]
        invariant wb[..] == WithChannel(slots, base, c, t)
      {
        RepairedAt(s, thr, k);
        if mk[k] {
          var v := RepairAt(s, mk, thr, k);
          var ring := base + k / 16;
          if ring >= wb.Length { ring := ring - wb.Length; }
          SetSample(slots, base, c, t, k, v);
          ghost var was := wb[..];
          wb[ring] := wb[ring][6 * (k % 16) + c := v];
          assert wb[..] == was[ring := was[ring][6 * (k % 16) + c := v]];
          t := t[k := v];
        }
        k := k + 1;
      }
      assert t == Repaired(s, thr);
    }
  }

  lemma RepairedEnds(s: seq<int>, thr: int)
    requires |s| == SAMPLES
    ensures Repaired(s, thr)[0] == s[0] && Repaired(s, thr)[SAMPLES - 1] == s[SAMPLES - 1]
  {
  }

  lemma RepairedAt(s: seq<int>, thr: int, k: nat)
    requires 0 < k < |s| - 1
    ensures Repaired(s, thr)[k] == if Spike(s, thr, k) then Repair(s, thr, k) else s[k]
  {
    hide Repair, Spike;
  }

  /** Marks by the median of three; the two ends are never marked. */
  method MarkSpikes(s: seq<int>, thr: int) returns (mk: seq<bool>)
    requires |s| == SAMPLES
    ensures |mk| == SAMPLES && forall k :: 0 <= k < SAMPLES ==> mk[k] == Spike(s, thr, k)
  {
    mk := [false];
    for k := 1 to SAMPLES - 1
      invariant |mk| == k && forall j :: 0 <= j < k ==> mk[j] == Spike(s, thr, j)
    {
      var a, b, d := s[k - 1], s[k], s[k + 1];
      var lo, hi := if a < d then a else d, if a < d then d else a;
      var med := if b < lo then lo else if b > hi then hi else b;
      var dev := b - med;
      if dev < 0 { dev := -dev; }
      mk := mk + [dev > thr];
    }
    mk := mk + [false];
  }

  method FindLeft(s: seq<int>, mk: seq<bool>, ghost thr: int, k: nat) returns (kl: int)
    requires |s| == SAMPLES && 0 < k < SAMPLES - 1
    requires |mk| == SAMPLES && forall j :: 0 <= j < SAMPLES ==> mk[j] == Spike(s, thr, j)
    ensures kl == Left(s, thr, k)
  {
    EndsUnmarked(s, thr);
    hide Spike;
    kl := k - 1;
    while kl > 0 && mk[kl]
      invariant 0 <= kl < k && Left(s, thr, k) == (if mk[kl] then Left(s, thr, kl) else kl)
      invariant mk[kl] ==> kl > 0
    {
      kl := kl - 1;
    }
  }

  method FindRight(s: seq<int>, mk: seq<bool>, ghost thr: int, k: nat) returns (kr: int)
    requires |s| == SAMPLES && 0 < k < SAMPLES - 1
    requires |mk| == SAMPLES && forall j :: 0 <= j < SAMPLES ==> mk[j] == Spike(s, thr, j)
    ensures kr == Right(s, thr, k)
  {
    EndsUnmarked(s, thr);
    hide Spike;
    kr := k + 1;
    while kr < SAMPLES - 1 && mk[kr]
      invariant k < kr < SAMPLES && Right(s, thr, k) == (if mk[kr] then Right(s, thr, kr) else kr)
      invariant mk[kr] ==> kr < SAMPLES - 1
    {
      kr := kr + 1;
    }
  }

  /** Searches the anchors both ways and interpolates. */
  method RepairAt(s: seq<int>, mk: seq<bool>, ghost thr: int, k: nat) returns (v: int)
    requires |s| == SAMPLES && 0 < k < SAMPLES - 1
    requires |mk| == SAMPLES && forall j :: 0 <= j < SAMPLES ==> mk[j] == Spike(s, thr, j)
    ensures v == Repair(s, thr, k)
  {
    hide TruncDiv, Spike, Left, Right;
    var kl := FindLeft(s, mk, thr, k);
    var kr := FindRight(s, mk, thr, k);
    if kr - kl == 2 && kl >= 1 && kr <= SAMPLES - 2 && !mk[kl - 1] && !mk[kr + 1] {
      v := TruncDiv(4 * (s[kl] + s[kr]) - (s[kl - 1] + s[kr + 1]), 6);
    } else {
      v := s[kl] + TruncDiv((s[kr] - s[kl]) * (k - kl), kr - kl);
    }
  }

  lemma EndsUnmarked(s: seq<int>, thr: int)
    requires |s| == SAMPLES
    ensures !Spike(s, thr, 0) && !Spike(s, thr, SAMPLES - 1)
  {
  }
}
