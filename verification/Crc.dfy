/** The table-driven CRCs of src/crc.c, against the register fed bit by bit. */
module Crc {
  import opened CrcRegister

  /** CRC-32 of a message, continued from the CRC of what came before (0 at the start). */
  function Crc32(msg: seq<bv8>, crc: bv32): bv32 {
    Flip(Feed(CRC32_POLY, Flip(Reg(crc)), msg)).bits
  }

  function Flip(r: Reg): Reg { Reg(!r.bits) }

  function CrcModbus(msg: seq<bv8>): bv32 {
    Feed(MODBUS_POLY, Reg(0xFFFF), msg).bits
  }

  /** The 256 constants of crc_table, eight to a row. */
  function ModbusRow(k: bv32): (row: seq<Reg>)
    requires k < 32
    ensures |row| == 8
  {
    match k
    case 0 => [Reg(0x0000), Reg(0xc0c1), Reg(0xc181), Reg(0x0140),
               Reg(0xc301), Reg(0x03c0), Reg(0x0280), Reg(0xc241)]
    case 1 => [Reg(0xc601), Reg(0x06c0), Reg(0x0780), Reg(0xc741),
               Reg(0x0500), Reg(0xc5c1), Reg(0xc481), Reg(0x0440)]
    case 2 => [Reg(0xcc01), Reg(0x0cc0), Reg(0x0d80), Reg(0xcd41),
               Reg(0x0f00), Reg(0xcfc1), Reg(0xce81), Reg(0x0e40)]
    case 3 => [Reg(0x0a00), Reg(0xcac1), Reg(0xcb81), Reg(0x0b40),
               Reg(0xc901), Reg(0x09c0), Reg(0x0880), Reg(0xc841)]
    case 4 => [Reg(0xd801), Reg(0x18c0), Reg(0x1980), Reg(0xd941),
               Reg(0x1b00), Reg(0xdbc1), Reg(0xda81), Reg(0x1a40)]
    case 5 => [Reg(0x1e00), Reg(0xdec1), Reg(0xdf81), Reg(0x1f40),
               Reg(0xdd01), Reg(0x1dc0), Reg(0x1c80), Reg(0xdc41)]
    case 6 => [Reg(0x1400), Reg(0xd4c1), Reg(0xd581), Reg(0x1540),
               Reg(0xd701), Reg(0x17c0), Reg(0x1680), Reg(0xd641)]
    case 7 => [Reg(0xd201), Reg(0x12c0), Reg(0x1380), Reg(0xd341),
               Reg(0x1100), Reg(0xd1c1), Reg(0xd081), Reg(0x1040)]
    case 8 => [Reg(0xf001), Reg(0x30c0), Reg(0x3180), Reg(0xf141),
               Reg(0x3300), Reg(0xf3c1), Reg(0xf281), Reg(0x3240)]
    case 9 => [Reg(0x3600), Reg(0xf6c1), Reg(0xf781), Reg(0x3740),
               Reg(0xf501), Reg(0x35c0), Reg(0x3480), Reg(0xf441)]
    case 10 => [Reg(0x3c00), Reg(0xfcc1), Reg(0xfd81), Reg(0x3d40),
               Reg(0xff01), Reg(0x3fc0), Reg(0x3e80), Reg(0xfe41)]
    case 11 => [Reg(0xfa01), Reg(0x3ac0), Reg(0x3b80), Reg(0xfb41),
               Reg(0x3900), Reg(0xf9c1), Reg(0xf881), Reg(0x3840)]
    case 12 => [Reg(0x2800), Reg(0xe8c1), Reg(0xe981), Reg(0x2940),
               Reg(0xeb01), Reg(0x2bc0), Reg(0x2a80), Reg(0xea41)]
    case 13 => [Reg(0xee01), Reg(0x2ec0), Reg(0x2f80), Reg(0xef41),
               Reg(0x2d00), Reg(0xedc1), Reg(0xec81), Reg(0x2c40)]
    case 14 => [Reg(0xe401), Reg(0x24c0), Reg(0x2580), Reg(0xe541),
               Reg(0x2700), Reg(0xe7c1), Reg(0xe681), Reg(0x2640)]
    case 15 => [Reg(0x2200), Reg(0xe2c1), Reg(0xe381), Reg(0x2340),
               Reg(0xe101), Reg(0x21c0), Reg(0x2080), Reg(0xe041)]
    case 16 => [Reg(0xa001), Reg(0x60c0), Reg(0x6180), Reg(0xa141),
               Reg(0x6300), Reg(0xa3c1), Reg(0xa281), Reg(0x6240)]
    case 17 => [Reg(0x6600), Reg(0xa6c1), Reg(0xa781), Reg(0x6740),
               Reg(0xa501), Reg(0x65c0), Reg(0x6480), Reg(0xa441)]
    case 18 => [Reg(0x6c00), Reg(0xacc1), Reg(0xad81), Reg(0x6d40),
               Reg(0xaf01), Reg(0x6fc0), Reg(0x6e80), Reg(0xae41)]
    case 19 => [Reg(0xaa01), Reg(0x6ac0), Reg(0x6b80), Reg(0xab41),
               Reg(0x6900), Reg(0xa9c1), Reg(0xa881), Reg(0x6840)]
    case 20 => [Reg(0x7800), Reg(0xb8c1), Reg(0xb981), Reg(0x7940),
               Reg(0xbb01), Reg(0x7bc0), Reg(0x7a80), Reg(0xba41)]
    case 21 => [Reg(0xbe01), Reg(0x7ec0), Reg(0x7f80), Reg(0xbf41),
               Reg(0x7d00), Reg(0xbdc1), Reg(0xbc81), Reg(0x7c40)]
    case 22 => [Reg(0xb401), Reg(0x74c0), Reg(0x7580), Reg(0xb541),
               Reg(0x7700), Reg(0xb7c1), Reg(0xb681), Reg(0x7640)]
    case 23 => [Reg(0x7200), Reg(0xb2c1), Reg(0xb381), Reg(0x7340),
               Reg(0xb101), Reg(0x71c0), Reg(0x7080), Reg(0xb041)]
    case 24 => [Reg(0x5000), Reg(0x90c1), Reg(0x9181), Reg(0x5140),
               Reg(0x9301), Reg(0x53c0), Reg(0x5280), Reg(0x9241)]
    case 25 => [Reg(0x9601), Reg(0x56c0), Reg(0x5780), Reg(0x9741),
               Reg(0x5500), Reg(0x95c1), Reg(0x9481), Reg(0x5440)]
    case 26 => [Reg(0x9c01), Reg(0x5cc0), Reg(0x5d80), Reg(0x9d41),
               Reg(0x5f00), Reg(0x9fc1), Reg(0x9e81), Reg(0x5e40)]
    case 27 => [Reg(0x5a00), Reg(0x9ac1), Reg(0x9b81), Reg(0x5b40),
               Reg(0x9901), Reg(0x59c0), Reg(0x5880), Reg(0x9841)]
    case 28 => [Reg(0x8801), Reg(0x48c0), Reg(0x4980), Reg(0x8941),
               Reg(0x4b00), Reg(0x8bc1), Reg(0x8a81), Reg(0x4a40)]
    case 29 => [Reg(0x4e00), Reg(0x8ec1), Reg(0x8f81), Reg(0x4f40),
               Reg(0x8d01), Reg(0x4dc0), Reg(0x4c80), Reg(0x8c41)]
    case 30 => [Reg(0x4400), Reg(0x84c1), Reg(0x8581), Reg(0x4540),
               Reg(0x8701), Reg(0x47c0), Reg(0x4680), Reg(0x8641)]
    case _ => [Reg(0x8201), Reg(0x42c0), Reg(0x4380), Reg(0x8341),
               Reg(0x4100), Reg(0x81c1), Reg(0x8081), Reg(0x4040)]
  }

  function EntryRow(i: bv32): seq<Reg> {
    [Entry(MODBUS_POLY, Reg(i)), Entry(MODBUS_POLY, Reg(i + 1)),
     Entry(MODBUS_POLY, Reg(i + 2)), Entry(MODBUS_POLY, Reg(i + 3)),
     Entry(MODBUS_POLY, Reg(i + 4)), Entry(MODBUS_POLY, Reg(i + 5)),
     Entry(MODBUS_POLY, Reg(i + 6)), Entry(MODBUS_POLY, Reg(i + 7))]
  }

  lemma Row0() ensures ModbusRow(0) == EntryRow(0) {}
  lemma Row1() ensures ModbusRow(1) == EntryRow(8) {}
  lemma Row2() ensures ModbusRow(2) == EntryRow(16) {}
  lemma Row3() ensures ModbusRow(3) == EntryRow(24) {}
  lemma Row4() ensures ModbusRow(4) == EntryRow(32) {}
  lemma Row5() ensures ModbusRow(5) == EntryRow(40) {}
  lemma Row6() ensures ModbusRow(6) == EntryRow(48) {}
  lemma Row7() ensures ModbusRow(7) == EntryRow(56) {}
  lemma Row8() ensures ModbusRow(8) == EntryRow(64) {}
  lemma Row9() ensures ModbusRow(9) == EntryRow(72) {}
  lemma Row10() ensures ModbusRow(10) == EntryRow(80) {}
  lemma Row11() ensures ModbusRow(11) == EntryRow(88) {}
  lemma Row12() ensures ModbusRow(12) == EntryRow(96) {}
  lemma Row13() ensures ModbusRow(13) == EntryRow(104) {}
  lemma Row14() ensures ModbusRow(14) == EntryRow(112) {}
  lemma Row15() ensures ModbusRow(15) == EntryRow(120) {}
  lemma Row16() ensures ModbusRow(16) == EntryRow(128) {}
  lemma Row17() ensures ModbusRow(17) == EntryRow(136) {}
  lemma Row18() ensures ModbusRow(18) == EntryRow(144) {}
  lemma Row19() ensures ModbusRow(19) == EntryRow(152) {}
  lemma Row20() ensures ModbusRow(20) == EntryRow(160) {}
  lemma Row21() ensures ModbusRow(21) == EntryRow(168) {}
  lemma Row22() ensures ModbusRow(22) == EntryRow(176) {}
  lemma Row23() ensures ModbusRow(23) == EntryRow(184) {}
  lemma Row24() ensures ModbusRow(24) == EntryRow(192) {}
  lemma Row25() ensures ModbusRow(25) == EntryRow(200) {}
  lemma Row26() ensures ModbusRow(26) == EntryRow(208) {}
  lemma Row27() ensures ModbusRow(27) == EntryRow(216) {}
  lemma Row28() ensures ModbusRow(28) == EntryRow(224) {}
  lemma Row29() ensures ModbusRow(29) == EntryRow(232) {}
  lemma Row30() ensures ModbusRow(30) == EntryRow(240) {}
  lemma Row31() ensures ModbusRow(31) == EntryRow(248) {}

  lemma RowRight(k: bv32)
    requires k < 32
    ensures ModbusRow(k) == EntryRow(k << 3)
  {
    hide ModbusRow, EntryRow;
    match k
    case 0 => Row0();
    case 1 => Row1();
    case 2 => Row2();
    case 3 => Row3();
    case 4 => Row4();
    case 5 => Row5();
    case 6 => Row6();
    case 7 => Row7();
    case 8 => Row8();
    case 9 => Row9();
    case 10 => Row10();
    case 11 => Row11();
    case 12 => Row12();
    case 13 => Row13();
    case 14 => Row14();
    case 15 => Row15();
    case 16 => Row16();
    case 17 => Row17();
    case 18 => Row18();
    case 19 => Row19();
    case 20 => Row20();
    case 21 => Row21();
    case 22 => Row22();
    case 23 => Row23();
    case 24 => Row24();
    case 25 => Row25();
    case 26 => Row26();
    case 27 => Row27();
    case 28 => Row28();
    case 29 => Row29();
    case 30 => Row30();
    case _ => Row31();
  }

  /** The constant table holds the generator's remainder of every byte. */
  lemma TableRight(x: bv32)
    requires x < 256
    ensures ModbusTable(x) == Entry(MODBUS_POLY, Reg(x))
  {
    hide ModbusRow, Entry;
    RowRight(x >> 3);
    Column(x);
  }

  function ModbusTable(x: bv32): Reg
    requires x < 256
  {
    RowIndex(x);
    ModbusRow(x >> 3)[(x & 7) as int]
  }

  lemma RowIndex(x: bv32)
    requires x < 256
    ensures x >> 3 < 32 && x & 7 < 8
  {
  }

  lemma Column(x: bv32)
    requires x < 256
    ensures EntryRow((x >> 3) << 3)[(x & 7) as int] == Entry(MODBUS_POLY, Reg(x))
  {
    hide ModbusRow, Entry;
    var b := (x >> 3) << 3;
    assert b ^ (x & 7) == x && b + (x & 7) == x;
  }

  /* ---- the two generators and the table builder ---- */

  function Remainder(i: nat): bv32
    requires i < 256
  {
    Entry(CRC32_POLY, Reg(i as bv32)).bits
  }

  ghost predicate Ready(table: array<bv32>)
    reads table
  {
    table.Length == 256 && forall i :: 0 <= i < 256 ==> table[i] == Remainder(i)
  }

  /** The inner loop of the table builder, on raw words. */
  method TableEntry(i: bv32) returns (k: bv32)
    ensures Reg(k) == Entry(CRC32_POLY, Reg(i))
  {
    k := i;
    var j := 0;
    while j < 8
      invariant 0 <= j <= 8
      invariant Clocks(CRC32_POLY, Reg(k), 8 - j) == Entry(CRC32_POLY, Reg(i))
    {
      ghost var was := k;
      ClockWord(CRC32_POLY, k);
      if k & 1 == 1 { k := (k >> 1) ^ CRC32_POLY; } else { k := k >> 1; }
      ClocksStep(CRC32_POLY, Reg(was), 8 - j);
      j := j + 1;
    }
    ClocksNone(CRC32_POLY, Reg(k));
  }

  lemma ClockWord(poly: bv32, k: bv32)
    ensures Clock(poly, Reg(k)) == Reg(if k & 1 == 1 then (k >> 1) ^ poly else k >> 1)
  {
  }

  lemma ClocksStep(poly: bv32, r: Reg, n: nat)
    requires n > 0
    ensures Clocks(poly, r, n) == Clocks(poly, Clock(poly, r), n - 1)
  {
  }

  method MakeCRC32table(table: array<bv32>)
    requires table.Length == 256
    modifies table
    ensures Ready(table)
  {
    hide Remainder, Entry;
    var i := 0;
    while i < 256
      invariant 0 <= i <= 256
      invariant forall j :: 0 <= j < i ==> table[j] == Remainder(j)
    {
      var k := TableEntry(i as bv32);
      RemainderIs(i, k);
      table[i] := k;
      i := i + 1;
    }
  }

  lemma RemainderIs(i: nat, k: bv32)
    requires i < 256 && Reg(k) == Entry(CRC32_POLY, Reg(i as bv32))
    ensures k == Remainder(i)
  {
    hide Entry;
  }

  lemma RemainderAt(x: bv32)
    requires x < 256
    ensures x as int < 256 && Remainder(x as int) == Entry(CRC32_POLY, Reg(x)).bits
  {
    hide Entry;
  }

  /** The register after one more byte. */
  function Next(poly: bv32, r: bv32, b: bv8): Reg { TableStep(poly, Reg(r), b) }

  /** The byte that selects the table entry. */
  function Selector(r: bv32, b: bv8): bv32 { (r ^ b as bv32) & 0xFF }

  lemma SelectorInTable(r: bv32, b: bv8)
    ensures Selector(r, b) < 256
  {
    ByteIndex(r ^ b as bv32);
  }

  lemma SelectorIs(r: bv32, b: bv8)
    ensures LowByte(Xor(Reg(r), OfByte(b))) == Reg(Selector(r, b))
  {
  }

  lemma NextWord(poly: bv32, r: bv32, b: bv8)
    ensures Next(poly, r, b) == Xor(Entry(poly, Reg(Selector(r, b))), DropByte(Reg(r)))
  {
    hide Entry, Xor, LowByte, OfByte, DropByte, Selector;
    SelectorIs(r, b);
  }

  lemma Combine(t: bv32, r: bv32)
    ensures Reg(t ^ (r >> 8)) == Xor(Reg(t), DropByte(Reg(r)))
  {
  }

  lemma CombineModbus(t: bv32, r: bv32)
    ensures Reg((r >> 8) ^ t) == Xor(Reg(t), DropByte(Reg(r)))
  {
  }

  lemma ByteIndex(x: bv32)
    ensures x & 0xFF < 256
  {
  }

  lemma FeedNext(poly: bv32, r: bv32, msg: seq<bv8>)
    requires msg != []
    ensures Feed(poly, Reg(r), msg) == Feed(poly, Next(poly, r, msg[0]), msg[1..])
  {
    hide TableStep, FeedBits, OfByte;
    TableStepIsFeed(poly, Reg(r), msg[0]);
  }

  method Lookup(table: array<bv32>, x: bv32) returns (t: bv32)
    requires Ready(table) && x < 256
    ensures Reg(t) == Entry(CRC32_POLY, Reg(x))
  {
    hide Remainder, Entry;
    RemainderAt(x);
    t := table[x as int];
  }

  method GenCrc32(table: array<bv32>, mem: seq<bv8>, crc: bv32) returns (r: bv32)
    requires Ready(table)
    ensures r == Crc32(mem, crc)
  {
    hide Next, Feed, Ready, Selector, Xor, DropByte, Entry, Flip;
    r := !crc;
    FlipWord(crc);
    var n := 0;
    while n < |mem|
      invariant 0 <= n <= |mem|
      invariant Feed(CRC32_POLY, Reg(r), mem[n..]) == Feed(CRC32_POLY, Flip(Reg(crc)), mem)
    {
      var x := Selector(r, mem[n]);
      SelectorInTable(r, mem[n]);
      NextWord(CRC32_POLY, r, mem[n]);
      var t := Lookup(table, x);
      Combine(t, r);
      FeedNext(CRC32_POLY, r, mem[n..]);
      assert mem[n..][1..] == mem[n + 1..];
      r := t ^ (r >> 8);
      n := n + 1;
    }
    FeedNothing(CRC32_POLY, Reg(r), mem[n..]);
    FlipWord(r);
    r := !r;
  }

  lemma FlipWord(x: bv32)
    ensures Reg(!x) == Flip(Reg(x))
  {
  }

  lemma FeedNothing(poly: bv32, r: Reg, msg: seq<bv8>)
    requires msg == []
    ensures Feed(poly, r, msg) == r
  {
  }

  method GenCrcModbus(mem: seq<bv8>) returns (crc: bv32)
    ensures crc == CrcModbus(mem)
  {
    hide Next, Feed, ModbusTable, Selector, Xor, DropByte, Entry;
    crc := 0xffff;
    var i := 0;
    while i < |mem|
      invariant 0 <= i <= |mem|
      invariant Feed(MODBUS_POLY, Reg(crc), mem[i..]) == Feed(MODBUS_POLY, Reg(0xFFFF), mem)
    {
      var x := Selector(crc, mem[i]);
      SelectorInTable(crc, mem[i]);
      NextWord(MODBUS_POLY, crc, mem[i]);
      TableRight(x);
      CombineModbus(ModbusTable(x).bits, crc);
      FeedNext(MODBUS_POLY, crc, mem[i..]);
      assert mem[i..][1..] == mem[i + 1..];
      crc := (crc >> 8) ^ ModbusTable(x).bits;
      i := i + 1;
    }
    FeedNothing(MODBUS_POLY, Reg(crc), mem[i..]);
  }

  /* ---- main results ---- */

  lemma FlipFlip(r: Reg)
    ensures Flip(Flip(r)) == r
  {
  }

  /** The CRC of a whole is the CRC of its second part continued from the CRC of its first. */
  lemma Crc32Append(a: seq<bv8>, b: seq<bv8>, crc: bv32)
    ensures Crc32(a + b, crc) == Crc32(b, Crc32(a, crc))
  {
    hide Feed, Flip;
    FeedAppend(CRC32_POLY, Flip(Reg(crc)), a, b);
    FlipFlip(Feed(CRC32_POLY, Flip(Reg(crc)), a));
  }

  /** Messages that differ only within four neighbouring bytes have different CRC-32s. */
  lemma Crc32BurstDetected(head: seq<bv8>, u: seq<bv8>, v: seq<bv8>, tail: seq<bv8>, crc: bv32)
    requires |u| == |v| <= 4 && u != v
    ensures Crc32(head + u + tail, crc) != Crc32(head + v + tail, crc)
  {
    hide Feed, Flip;
    var r := Flip(Reg(crc));
    BurstDetected(CRC32_POLY, r, head, u, v, tail);
    FlipFlip(Feed(CRC32_POLY, r, head + u + tail));
    FlipFlip(Feed(CRC32_POLY, r, head + v + tail));
  }

  /** Messages that differ only within two neighbouring bytes have different Modbus CRCs. */
  lemma ModbusBurstDetected(head: seq<bv8>, u: seq<bv8>, v: seq<bv8>, tail: seq<bv8>)
    requires |u| == |v| <= 2 && u != v
    ensures CrcModbus(head + u + tail) != CrcModbus(head + v + tail)
  {
    hide Feed;
    InitialInRegister();
    BurstDetected(MODBUS_POLY, Reg(0xFFFF), head, u, v, tail);
  }

  lemma InitialInRegister()
    ensures InRegister(MODBUS_POLY, Reg(0xFFFF))
  {
  }

  /** A received frame checks to zero exactly when its last two bytes are the CRC of the rest, low byte first. */
  lemma ModbusFrameCheck(msg: seq<bv8>, lo: bv8, hi: bv8)
    ensures CrcModbus(msg + [lo, hi]) == 0 <==> CrcModbus(msg) == (lo as bv32) ^ ((hi as bv32) << 8)
  {
    hide Feed, Word;
    InitialInRegister();
    ResidueZero(MODBUS_POLY, Reg(0xFFFF), msg, [lo, hi]);
    WordOfTwo(lo, hi);
  }

  lemma WordOfTwo(lo: bv8, hi: bv8)
    ensures Word([lo, hi]) == Reg((lo as bv32) ^ ((hi as bv32) << 8))
  {
    hide Xor, OfByte, MakeRoom;
    assert [lo, hi][1..] == [hi] && [hi][1..] == [];
    assert Word([hi]) == Xor(OfByte(hi), MakeRoom(Zero));
    MakeRoomZero();
    XorZero(OfByte(hi));
    TwoBytes(lo, hi);
  }

  lemma MakeRoomZero()
    ensures MakeRoom(Zero) == Zero
  {
  }

  lemma TwoBytes(lo: bv8, hi: bv8)
    ensures Xor(OfByte(lo), MakeRoom(OfByte(hi))) == Reg((lo as bv32) ^ ((hi as bv32) << 8))
  {
  }
}
