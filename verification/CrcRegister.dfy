/** The shift register behind the table-driven CRC-32 (section 8 of RFC 1952) and Modbus CRC-16
    (section 6.2.2 of the MODBUS over Serial Line Specification V1.02): linear, and clocked once per message bit. */
module CrcRegister {

  datatype Reg = Reg(bits: bv32)

  const Zero := Reg(0)

  function Xor(a: Reg, b: Reg): Reg { Reg(a.bits ^ b.bits) }

  function Half(r: Reg): Reg { Reg(r.bits >> 1) }

  function LowBit(r: Reg): Reg { Reg(r.bits & 1) }

  function Double(r: Reg): Reg { Reg(r.bits << 1) }

  function WithoutLowBit(r: Reg): Reg { Double(Half(r)) }

  function LowByte(r: Reg): Reg { Reg(r.bits & 0xFF) }

  function HighBytes(r: Reg): Reg { Reg(r.bits & 0xFFFF_FF00) }

  function DropByte(r: Reg): Reg { Reg(r.bits >> 8) }

  function MakeRoom(r: Reg): Reg { Reg(r.bits << 8) }

  function OfByte(b: bv8): Reg { Reg(b as bv32) }

  predicate Odd(r: Reg) { r.bits & 1 == 1 }

  function Tap(poly: bv32, r: Reg, on: bool): Reg { if on then Xor(r, Reg(poly)) else r }

  /** One clock of the reflected register with generator poly. */
  function Clock(poly: bv32, r: Reg): Reg { Tap(poly, Half(r), Odd(r)) }

  function Clocks(poly: bv32, r: Reg, n: nat): Reg
    decreases n
  {
    if n == 0 then r else Clocks(poly, Clock(poly, r), n - 1)
  }

  /** Feeds the n low bits of b, least significant first. */
  function FeedBits(poly: bv32, r: Reg, b: Reg, n: nat): Reg
    decreases n
  {
    if n == 0 then r else FeedBits(poly, Clock(poly, Xor(r, LowBit(b))), Half(b), n - 1)
  }

  /** The definition both fast forms must meet: a message is fed bit by bit. */
  function Feed(poly: bv32, r: Reg, msg: seq<bv8>): Reg
    decreases |msg|
  {
    if msg == [] then r else Feed(poly, FeedBits(poly, r, OfByte(msg[0]), 8), msg[1..])
  }

  /* ---- bit identities ---- */

  lemma XorCommutes(a: Reg, b: Reg)
    ensures Xor(a, b) == Xor(b, a)
  {
  }

  lemma XorZero(a: Reg)
    ensures Xor(a, Zero) == a
  {
  }

  lemma XorSelf(a: Reg)
    ensures Xor(a, a) == Zero
  {
  }

  lemma XorAssociates(a: Reg, b: Reg, c: Reg)
    ensures Xor(Xor(a, b), c) == Xor(a, Xor(b, c))
  {
  }

  lemma HalfLinear(x: Reg, y: Reg)
    ensures Half(Xor(x, y)) == Xor(Half(x), Half(y))
  {
  }

  lemma OddLinear(x: Reg, y: Reg)
    ensures Odd(Xor(x, y)) == (Odd(x) != Odd(y))
  {
  }

  lemma TapLinear(poly: bv32, a: Reg, b: Reg, i: bool, j: bool)
    ensures Tap(poly, Xor(a, b), i != j) == Xor(Tap(poly, a, i), Tap(poly, b, j))
  {
    hide Xor;
    var p := Reg(poly);
    XorAssociates(a, b, p);
    XorAssociates(a, p, b);
    XorCommutes(p, b);
    if i && j {
      XorAssociates(a, p, Xor(b, p));
      XorCommutes(b, p);
      XorAssociates(p, p, b);
      XorSelf(p);
      XorCommutes(Zero, b);
      XorZero(b);
    }
  }

  lemma ClockLinear(poly: bv32, x: Reg, y: Reg)
    ensures Clock(poly, Xor(x, y)) == Xor(Clock(poly, x), Clock(poly, y))
  {
    hide Tap, Odd, Half, Xor;
    HalfLinear(x, y);
    OddLinear(x, y);
    TapLinear(poly, Half(x), Half(y), Odd(x), Odd(y));
  }

  lemma SplitLowBit(b: Reg)
    ensures b == Xor(LowBit(b), WithoutLowBit(b))
  {
  }

  lemma ClockEven(poly: bv32, b: Reg)
    ensures Clock(poly, WithoutLowBit(b)) == Half(b)
  {
    hide Xor, Half, Odd, WithoutLowBit;
    EvenIsNotOdd(b);
    EvenHalf(b);
  }

  lemma EvenIsNotOdd(b: Reg)
    ensures !Odd(WithoutLowBit(b))
  {
    assert ((b.bits >> 1) << 1) & 1 == 0;
  }

  lemma EvenHalf(b: Reg)
    ensures Half(WithoutLowBit(b)) == Half(b)
  {
  }

  lemma SplitLowByte(r: Reg)
    ensures r == Xor(LowByte(r), HighBytes(r))
  {
  }

  lemma XorByte(r: Reg, b: bv8)
    ensures HighBytes(Xor(r, OfByte(b))) == HighBytes(r)
  {
    var w := b as bv32;
    assert w & 0xFFFF_FF00 == 0;
    assert (r.bits ^ w) & 0xFFFF_FF00 == (r.bits & 0xFFFF_FF00) ^ (w & 0xFFFF_FF00);
  }

  lemma MakeRoomIsHigh(r: Reg)
    requires r.bits & 0xFF00_0000 == 0
    ensures HighBytes(MakeRoom(r)) == MakeRoom(r) && DropByte(MakeRoom(r)) == r
  {
  }

  /* ---- linearity of the register ---- */

  lemma {:induction false} ClocksLinear(poly: bv32, x: Reg, y: Reg, n: nat)
    ensures Clocks(poly, Xor(x, y), n) == Xor(Clocks(poly, x, n), Clocks(poly, y, n))
    decreases n
  {
    hide Clock, Xor;
    if n > 0 {
      ClockLinear(poly, x, y);
      ClocksLinear(poly, Clock(poly, x), Clock(poly, y), n - 1);
    }
  }

  lemma {:induction false} ClocksAdd(poly: bv32, r: Reg, m: nat, n: nat)
    ensures Clocks(poly, r, m + n) == Clocks(poly, Clocks(poly, r, m), n)
    decreases m
  {
    hide Clock;
    if m > 0 { ClocksAdd(poly, Clock(poly, r), m - 1, n); }
  }

  /** b has no bit at or above n. */
  predicate Below(b: Reg, n: nat)
    decreases n
  {
    if n == 0 then b == Zero else Below(Half(b), n - 1)
  }

  /** Feeding bits one at a time, or adding them all before clocking, gives the same register. */
  lemma {:induction false} FeedBitsIsClocks(poly: bv32, r: Reg, b: Reg, n: nat)
    requires Below(b, n)
    ensures FeedBits(poly, r, b, n) == Clocks(poly, Xor(r, b), n)
    decreases n
  {
    hide Clock, Xor, Half, LowBit, WithoutLowBit;
    if n == 0 {
      XorZero(r);
    } else {
      var r' := Xor(r, LowBit(b));
      SplitLowBit(b);
      XorAssociates(r, LowBit(b), WithoutLowBit(b));
      ClockLinear(poly, r', WithoutLowBit(b));
      ClockEven(poly, b);
      FeedBitsIsClocks(poly, Clock(poly, r'), Half(b), n - 1);
    }
  }

  lemma ByteBelow(b: bv8)
    ensures Below(OfByte(b), 8)
  {
    hide Below, Half, OfByte;
    var r0 := OfByte(b);
    var r2 := Half(Half(r0));
    var r4 := Half(Half(r2));
    var r6 := Half(Half(r4));
    EightHalves(b);
    BelowTwo(r6, 0);
    BelowTwo(r4, 2);
    BelowTwo(r2, 4);
    BelowTwo(r0, 6);
    BelowZero(Half(Half(r6)));
  }

  lemma BelowZero(r: Reg)
    ensures Below(r, 0) == (r == Zero)
  {
  }

  lemma BelowTwo(r: Reg, n: nat)
    ensures Below(r, n + 2) == Below(Half(Half(r)), n)
  {
    hide Half;
    assert Below(r, n + 2) == Below(Half(r), n + 1);
  }

  lemma EightHalves(b: bv8)
    ensures Half(Half(Half(Half(Half(Half(Half(Half(OfByte(b)))))))) ) == Zero
  {
  }

  /** r with its n low bits clear, shifted down n times by clocking. */
  predicate Clear(r: Reg, n: nat)
    decreases n
  {
    n == 0 || (!Odd(r) && Clear(Half(r), n - 1))
  }

  function Halves(r: Reg, n: nat): Reg
    decreases n
  {
    if n == 0 then r else Halves(Half(r), n - 1)
  }

  lemma {:induction false} ClocksShift(poly: bv32, r: Reg, n: nat)
    requires Clear(r, n)
    ensures Clocks(poly, r, n) == Halves(r, n)
    decreases n
  {
    hide Half, Odd, Xor;
    if n > 0 {
      assert Clock(poly, r) == Half(r);
      ClocksShift(poly, Half(r), n - 1);
    }
  }

  lemma HighBytesClear(r: Reg)
    ensures Clear(HighBytes(r), 8)
  {
    hide Clear, Half, HighBytes, Odd;
    var h0 := HighBytes(r);
    var h1 := Half(h0);
    var h2 := Half(h1);
    var h3 := Half(h2);
    var h4 := Half(h3);
    var h5 := Half(h4);
    var h6 := Half(h5);
    var h7 := Half(h6);
    HighHalves(r);
    ClearOne(h7, 0);
    ClearOne(h6, 1);
    ClearOne(h5, 2);
    ClearOne(h4, 3);
    ClearOne(h3, 4);
    ClearOne(h2, 5);
    ClearOne(h1, 6);
    ClearOne(h0, 7);
    ClearNone(Half(h7));
  }

  lemma ClearNone(r: Reg)
    ensures Clear(r, 0)
  {
  }

  lemma ClearOne(r: Reg, n: nat)
    ensures Clear(r, n + 1) == (!Odd(r) && Clear(Half(r), n))
  {
    hide Half, Odd;
  }

  lemma HighHalves(r: Reg)
    ensures var h0 := HighBytes(r); var h1 := Half(h0); var h2 := Half(h1); var h3 := Half(h2);
            var h4 := Half(h3); var h5 := Half(h4); var h6 := Half(h5); var h7 := Half(h6);
            && !Odd(h0) && !Odd(h1) && !Odd(h2) && !Odd(h3)
            && !Odd(h4) && !Odd(h5) && !Odd(h6) && !Odd(h7)
  {
  }

  lemma EightHalvesDropByte(r: Reg)
    ensures Half(Half(Half(Half(Half(Half(Half(Half(HighBytes(r))))))))) == DropByte(r)
  {
  }

  lemma HalvesEight(r: Reg)
    ensures Halves(r, 8) == Half(Half(Half(Half(Half(Half(Half(Half(r))))))))
  {
    hide Half;
    var h4 := Half(Half(Half(Half(r))));
    assert Halves(r, 8) == Halves(Half(r), 7) == Halves(Half(Half(r)), 6);
    assert Halves(Half(Half(r)), 6) == Halves(Half(Half(Half(r))), 5) == Halves(h4, 4);
    assert Halves(h4, 4) == Halves(Half(h4), 3) == Halves(Half(Half(h4)), 2);
  }

  /** Eight clocks only shift a register whose low byte is clear. */
  lemma ClocksDropByte(poly: bv32, r: Reg)
    ensures Clocks(poly, HighBytes(r), 8) == DropByte(r)
  {
    hide Clock, Half, HighBytes, DropByte, Clear, Halves, Clocks;
    HighBytesClear(r);
    ClocksShift(poly, HighBytes(r), 8);
    HalvesEight(HighBytes(r));
    EightHalvesDropByte(r);
  }

  /* ---- the table step ---- */

  /** Entry i of the table for a generator. */
  function Entry(poly: bv32, i: Reg): Reg { Clocks(poly, i, 8) }

  function TableStep(poly: bv32, r: Reg, b: bv8): Reg {
    Xor(Entry(poly, LowByte(Xor(r, OfByte(b)))), DropByte(r))
  }

  lemma FeedByteIsClocks(poly: bv32, r: Reg, b: bv8)
    ensures FeedBits(poly, r, OfByte(b), 8) == Clocks(poly, Xor(r, OfByte(b)), 8)
  {
    hide Clock, Xor, OfByte, FeedBits, Clocks;
    ByteBelow(b);
    FeedBitsIsClocks(poly, r, OfByte(b), 8);
  }

  /** One table lookup does the work of eight message bits. */
  lemma TableStepIsFeed(poly: bv32, r: Reg, b: bv8)
    ensures TableStep(poly, r, b) == FeedBits(poly, r, OfByte(b), 8)
  {
    hide Clocks, FeedBits, Xor, OfByte, LowByte, DropByte, HighBytes;
    var x := Xor(r, OfByte(b));
    FeedByteIsClocks(poly, r, b);
    SplitLowByte(x);
    ClocksLinear(poly, LowByte(x), HighBytes(x), 8);
    XorByte(r, b);
    ClocksDropByte(poly, r);
  }

  /** Feeding a message is feeding its first part, then continuing with the rest. */
  lemma {:induction false} FeedAppend(poly: bv32, r: Reg, a: seq<bv8>, b: seq<bv8>)
    ensures Feed(poly, r, a + b) == Feed(poly, Feed(poly, r, a), b)
    decreases |a|
  {
    hide FeedBits, OfByte;
    if a == [] {
      assert a + b == b;
    } else {
      assert (a + b)[1..] == a[1..] + b;
      FeedAppend(poly, FeedBits(poly, r, OfByte(a[0]), 8), a[1..], b);
    }
  }

  /* ---- error detection ---- */

  /** The generators in use, and the registers each can reach. */
  const CRC32_POLY: bv32 := 0xEDB88320
  const MODBUS_POLY: bv32 := 0xA001

  predicate Supported(poly: bv32) { poly == CRC32_POLY || poly == MODBUS_POLY }

  /** Bytes that fit in the register. */
  function Width(poly: bv32): nat { if poly == CRC32_POLY then 4 else 2 }

  predicate InRegister(poly: bv32, r: Reg) {
    poly == CRC32_POLY || r.bits & 0xFFFF_0000 == 0
  }

  lemma HalfAndOdd(x: Reg, y: Reg)
    requires Half(x) == Half(y) && Odd(x) == Odd(y)
    ensures x == y
  {
    hide Half, Odd, Xor, LowBit, Double;
    SplitLowBit(x);
    SplitLowBit(y);
    LowBitIsOdd(x);
    LowBitIsOdd(y);
  }

  lemma LowBitIsOdd(r: Reg)
    ensures LowBit(r) == if Odd(r) then Reg(1) else Zero
  {
  }

  lemma TappedCrc32Differs(x: bv32, y: bv32)
    ensures (x >> 1) ^ CRC32_POLY != y >> 1
  {
    assert ((x >> 1) ^ CRC32_POLY) & 0x8000_0000 == 0x8000_0000;
    assert (y >> 1) & 0x8000_0000 == 0;
  }

  lemma TappedModbusDiffers(x: bv32, y: bv32)
    requires x & 0xFFFF_0000 == 0 && y & 0xFFFF_0000 == 0
    ensures (x >> 1) ^ MODBUS_POLY != y >> 1
  {
    assert (y >> 1) & 0xFFFF_8000 == (y & 0xFFFF_0000) >> 1;
    assert (x >> 1) & 0xFFFF_8000 == (x & 0xFFFF_0000) >> 1;
    assert ((x >> 1) ^ MODBUS_POLY) & 0x8000 == ((x >> 1) & 0x8000) ^ 0x8000;
  }

  /** A tapped register shows the generator's top bit, an untapped one does not. */
  lemma TappedDiffers(poly: bv32, x: Reg, y: Reg)
    requires Supported(poly) && InRegister(poly, x) && InRegister(poly, y)
    ensures Xor(Half(x), Reg(poly)) != Half(y)
  {
    if poly == CRC32_POLY {
      TappedCrc32Differs(x.bits, y.bits);
    } else {
      TappedModbusDiffers(x.bits, y.bits);
    }
  }

  lemma XorCancels(a: Reg, b: Reg, c: Reg)
    requires Xor(a, c) == Xor(b, c)
    ensures a == b
  {
    hide Xor;
    XorAssociates(a, c, c);
    XorAssociates(b, c, c);
    XorSelf(c);
    XorZero(a);
    XorZero(b);
  }

  lemma ClockInjective(poly: bv32, x: Reg, y: Reg)
    requires Supported(poly) && InRegister(poly, x) && InRegister(poly, y)
    requires Clock(poly, x) == Clock(poly, y)
    ensures x == y
  {
    hide Xor, Half, Odd, InRegister, Supported;
    if Odd(x) == Odd(y) {
      if Odd(x) { XorCancels(Half(x), Half(y), Reg(poly)); }
      HalfAndOdd(x, y);
    } else {
      TappedDiffers(poly, x, y);
      TappedDiffers(poly, y, x);
    }
  }

  lemma XorInRegister(poly: bv32, x: Reg, y: Reg)
    requires InRegister(poly, x) && InRegister(poly, y)
    ensures InRegister(poly, Xor(x, y))
  {
    assert (x.bits ^ y.bits) & 0xFFFF_0000 == (x.bits & 0xFFFF_0000) ^ (y.bits & 0xFFFF_0000);
  }

  lemma HalfInRegister(poly: bv32, x: Reg)
    requires InRegister(poly, x)
    ensures InRegister(poly, Half(x))
  {
    assert (x.bits >> 1) & 0xFFFF_0000 == (x.bits & 0xFFFE_0000) >> 1;
    assert (x.bits & 0xFFFE_0000) == (x.bits & 0xFFFF_0000) & 0xFFFE_0000;
  }

  lemma GeneratorInRegister(poly: bv32)
    requires Supported(poly)
    ensures InRegister(poly, Reg(poly))
  {
  }

  lemma ClockInRegister(poly: bv32, r: Reg)
    requires Supported(poly) && InRegister(poly, r)
    ensures InRegister(poly, Clock(poly, r))
  {
    hide Xor, Half, Odd, InRegister, Supported;
    HalfInRegister(poly, r);
    GeneratorInRegister(poly);
    XorInRegister(poly, Half(r), Reg(poly));
  }

  lemma {:induction false} ClocksInRegister(poly: bv32, r: Reg, n: nat)
    requires Supported(poly) && InRegister(poly, r)
    ensures InRegister(poly, Clocks(poly, r, n))
    decreases n
  {
    hide Clock, InRegister, Supported;
    if n > 0 {
      ClockInRegister(poly, r);
      ClocksInRegister(poly, Clock(poly, r), n - 1);
    }
  }

  lemma {:induction false} ClocksInjective(poly: bv32, x: Reg, y: Reg, n: nat)
    requires Supported(poly) && InRegister(poly, x) && InRegister(poly, y)
    requires Clocks(poly, x, n) == Clocks(poly, y, n)
    ensures x == y
    decreases n
  {
    hide Clock, InRegister, Supported;
    if n > 0 {
      ClockInRegister(poly, x);
      ClockInRegister(poly, y);
      ClocksInjective(poly, Clock(poly, x), Clock(poly, y), n - 1);
      ClockInjective(poly, x, y);
    }
  }

  lemma ByteInRegister(poly: bv32, b: bv8)
    ensures InRegister(poly, OfByte(b))
  {
    assert (b as bv32) & 0xFFFF_0000 == 0;
  }

  lemma {:induction false} FeedInRegister(poly: bv32, r: Reg, msg: seq<bv8>)
    requires Supported(poly) && InRegister(poly, r)
    ensures InRegister(poly, Feed(poly, r, msg))
    decreases |msg|
  {
    hide FeedBits, Clocks, InRegister, Supported, OfByte, Xor;
    if msg != [] {
      var b := OfByte(msg[0]);
      FeedByteIsClocks(poly, r, msg[0]);
      ByteInRegister(poly, msg[0]);
      XorInRegister(poly, r, b);
      ClocksInRegister(poly, Xor(r, b), 8);
      FeedInRegister(poly, FeedBits(poly, r, b, 8), msg[1..]);
    }
  }

  /** Registers that differ still differ after any common tail. */
  lemma {:induction false} FeedInjective(poly: bv32, x: Reg, y: Reg, msg: seq<bv8>)
    requires Supported(poly) && InRegister(poly, x) && InRegister(poly, y)
    requires Feed(poly, x, msg) == Feed(poly, y, msg)
    ensures x == y
    decreases |msg|
  {
    hide FeedBits, Clocks, InRegister, Supported, OfByte, Xor;
    if msg != [] {
      var b := OfByte(msg[0]);
      FeedByteIsClocks(poly, x, msg[0]);
      FeedByteIsClocks(poly, y, msg[0]);
      ByteInRegister(poly, msg[0]);
      XorInRegister(poly, x, b);
      XorInRegister(poly, y, b);
      ClocksInRegister(poly, Xor(x, b), 8);
      ClocksInRegister(poly, Xor(y, b), 8);
      FeedInjective(poly, Clocks(poly, Xor(x, b), 8), Clocks(poly, Xor(y, b), 8), msg[1..]);
      ClocksInjective(poly, Xor(x, b), Xor(y, b), 8);
      XorCancels(x, y, b);
    }
  }

  /* ---- bursts ---- */

  /** The bytes of a burst as one register value, first byte lowest. */
  function Word(u: seq<bv8>): Reg
    decreases |u|
  {
    if u == [] then Zero else Xor(OfByte(u[0]), MakeRoom(Word(u[1..])))
  }

  /** r is at most n bytes wide. */
  predicate Narrow(r: Reg, n: nat)
    decreases n
  {
    if n == 0 then r == Zero else Narrow(DropByte(r), n - 1)
  }

  lemma JoinByte(b: bv8, w: Reg)
    requires w.bits & 0xFF00_0000 == 0
    ensures DropByte(Xor(OfByte(b), MakeRoom(w))) == w
  {
    assert ((b as bv32) ^ (w.bits << 8)) >> 8 == w.bits & 0x00FF_FFFF;
    assert w.bits == (w.bits & 0x00FF_FFFF) ^ (w.bits & 0xFF00_0000);
  }

  lemma LowestByte(b: bv8, w: Reg)
    ensures LowByte(Xor(OfByte(b), MakeRoom(w))) == OfByte(b)
  {
    assert ((b as bv32) ^ (w.bits << 8)) & 0xFF == b as bv32;
  }

  lemma NarrowTopClear(w: Reg)
    requires Narrow(w, 0) || Narrow(w, 1) || Narrow(w, 2) || Narrow(w, 3)
    ensures w.bits & 0xFF00_0000 == 0
  {
    NarrowThree(w);
    ThreeDropped(w.bits);
  }

  lemma ThreeDropped(x: bv32)
    requires x >> 8 >> 8 >> 8 == 0
    ensures x & 0xFF00_0000 == 0
  {
    assert ((x >> 8 >> 8 >> 8) << 24) == x & 0xFF00_0000;
  }

  lemma NarrowThree(w: Reg)
    requires Narrow(w, 0) || Narrow(w, 1) || Narrow(w, 2) || Narrow(w, 3)
    ensures w.bits >> 8 >> 8 >> 8 == 0
  {
  }

  lemma {:induction false} WordNarrow(u: seq<bv8>)
    requires |u| <= 4
    ensures Narrow(Word(u), |u|)
    decreases |u|
  {
    hide Xor, OfByte, MakeRoom, DropByte;
    if u != [] {
      var w := Word(u[1..]);
      WordNarrow(u[1..]);
      NarrowUpToThree(w, |u| - 1);
      JoinByte(u[0], w);
    }
  }

  lemma NarrowUpToThree(w: Reg, n: nat)
    requires n <= 3 && Narrow(w, n)
    ensures w.bits & 0xFF00_0000 == 0
  {
    hide Narrow, DropByte;
    NarrowTopClear(w);
  }

  /** Feeding up to four bytes is adding them all to the register and clocking it through. */
  lemma {:induction false} FeedIsWord(poly: bv32, r: Reg, u: seq<bv8>)
    requires |u| <= 4
    ensures Feed(poly, r, u) == Clocks(poly, Xor(r, Word(u)), 8 * |u|)
    decreases |u|
  {
    hide Xor, OfByte, MakeRoom, FeedBits, Clocks, HighBytes, DropByte, Narrow;
    if u == [] {
      XorZero(r);
      assert Clocks(poly, r, 0) == r by { ClocksNone(poly, r); }
    } else {
      var rest := u[1..];
      var w := Word(rest);
      var x := Xor(r, OfByte(u[0]));
      WordNarrow(rest);
      NarrowUpToThree(w, |rest|);
      MakeRoomIsHigh(w);
      FeedByteIsClocks(poly, r, u[0]);
      FeedIsWord(poly, Clocks(poly, x, 8), rest);
      ClocksDropByte(poly, MakeRoom(w));
      ClocksLinear(poly, x, MakeRoom(w), 8);
      XorAssociates(r, OfByte(u[0]), MakeRoom(w));
      ClocksAdd(poly, Xor(x, MakeRoom(w)), 8, 8 * |rest|);
    }
  }

  lemma ClocksNone(poly: bv32, r: Reg)
    ensures Clocks(poly, r, 0) == r
  {
  }

  lemma {:induction false} WordInjective(u: seq<bv8>, v: seq<bv8>)
    requires |u| == |v| <= 4
    requires Word(u) == Word(v)
    ensures u == v
    decreases |u|
  {
    hide Xor, OfByte, MakeRoom, DropByte, LowByte, Narrow;
    if u != [] {
      var w, z := Word(u[1..]), Word(v[1..]);
      WordNarrow(u[1..]);
      WordNarrow(v[1..]);
      NarrowUpToThree(w, |u| - 1);
      NarrowUpToThree(z, |v| - 1);
      JoinByte(u[0], w);
      JoinByte(v[0], z);
      LowestByte(u[0], w);
      LowestByte(v[0], z);
      OfByteInjective(u[0], v[0]);
      WordInjective(u[1..], v[1..]);
      assert u == [u[0]] + u[1..] && v == [v[0]] + v[1..];
    }
  }

  lemma OfByteInjective(a: bv8, b: bv8)
    requires OfByte(a) == OfByte(b)
    ensures a == b
  {
  }

  lemma WordInRegister(poly: bv32, u: seq<bv8>)
    requires Supported(poly) && |u| <= Width(poly)
    ensures InRegister(poly, Word(u))
  {
    if poly != CRC32_POLY {
      WordNarrow(u);
      NarrowTwo(Word(u), |u|);
    }
  }

  lemma NarrowTwo(w: Reg, n: nat)
    requires n <= 2 && Narrow(w, n)
    ensures w.bits & 0xFFFF_0000 == 0
  {
    assert w.bits >> 8 >> 8 == 0;
    assert ((w.bits >> 8 >> 8) << 16) == w.bits & 0xFFFF_0000;
  }

  /** Messages that differ only inside a burst no wider than the register leave different registers. */
  lemma BurstDetected(poly: bv32, r: Reg, head: seq<bv8>, u: seq<bv8>, v: seq<bv8>, tail: seq<bv8>)
    requires Supported(poly) && InRegister(poly, r)
    requires |u| == |v| <= Width(poly) && u != v
    ensures Feed(poly, r, head + u + tail) != Feed(poly, r, head + v + tail)
  {
    hide Xor, Feed, Clocks, InRegister, Supported, Word;
    var h := Feed(poly, r, head);
    FeedAppend(poly, r, head + u, tail);
    FeedAppend(poly, r, head + v, tail);
    FeedAppend(poly, r, head, u);
    FeedAppend(poly, r, head, v);
    FeedInRegister(poly, r, head);
    FeedInRegister(poly, h, u);
    FeedInRegister(poly, h, v);
    if Feed(poly, r, head + u + tail) == Feed(poly, r, head + v + tail) {
      FeedInjective(poly, Feed(poly, h, u), Feed(poly, h, v), tail);
      BurstWords(poly, h, u, v);
      assert false;
    }
  }

  lemma BurstWords(poly: bv32, h: Reg, u: seq<bv8>, v: seq<bv8>)
    requires Supported(poly) && InRegister(poly, h)
    requires |u| == |v| <= Width(poly)
    requires Feed(poly, h, u) == Feed(poly, h, v)
    ensures u == v
  {
    hide Xor, Feed, Clocks, InRegister, Supported, Word;
    FeedIsWord(poly, h, u);
    FeedIsWord(poly, h, v);
    WordInRegister(poly, u);
    WordInRegister(poly, v);
    XorInRegister(poly, h, Word(u));
    XorInRegister(poly, h, Word(v));
    ClocksInjective(poly, Xor(h, Word(u)), Xor(h, Word(v)), 8 * |u|);
    XorCommutes(h, Word(u));
    XorCommutes(h, Word(v));
    XorCancels(Word(u), Word(v), h);
    WordInjective(u, v);
  }

  /** A frame ends in the zero register exactly when its last bytes are the register of the rest, low byte first. */
  lemma ResidueZero(poly: bv32, r: Reg, msg: seq<bv8>, check: seq<bv8>)
    requires Supported(poly) && InRegister(poly, r) && |check| <= Width(poly)
    ensures Feed(poly, r, msg + check) == Zero <==> Word(check) == Feed(poly, r, msg)
  {
    hide Xor, Feed, Clocks, InRegister, Supported, Word;
    var c := Feed(poly, r, msg);
    FeedAppend(poly, r, msg, check);
    FeedIsWord(poly, c, check);
    FeedInRegister(poly, r, msg);
    WordInRegister(poly, check);
    XorInRegister(poly, c, Word(check));
    ZeroInRegister(poly);
    ClocksZero(poly, 8 * |check|);
    if Word(check) == c {
      XorSelf(c);
    } else if Feed(poly, r, msg + check) == Zero {
      ClocksInjective(poly, Xor(c, Word(check)), Zero, 8 * |check|);
      XorSelf(Word(check));
      XorCancels(c, Word(check), Word(check));
    }
  }

  lemma ZeroInRegister(poly: bv32)
    ensures InRegister(poly, Zero)
  {
  }

  lemma {:induction false} ClocksZero(poly: bv32, n: nat)
    ensures Clocks(poly, Zero, n) == Zero
    decreases n
  {
    if n > 0 {
      assert Clock(poly, Zero) == Zero;
      ClocksZero(poly, n - 1);
    }
  }
}
