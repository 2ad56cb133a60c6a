/** The published check values of both CRCs, for the nine digits "123456789". */
module CrcCheck {
  import opened CrcRegister
  import opened Crc

  const DIGITS: seq<bv8> := [0x31, 0x32, 0x33, 0x34, 0x35, 0x36, 0x37, 0x38, 0x39]

  lemma FeedFirst(poly: bv32, r: bv32, r': bv32, k: nat)
    requires k < 9 && TableStep(poly, Reg(r), DIGITS[k]) == Reg(r')
    ensures Feed(poly, Reg(r), DIGITS[k..]) == Feed(poly, Reg(r'), DIGITS[k + 1..])
  {
    hide TableStep, FeedBits, OfByte;
    TableStepIsFeed(poly, Reg(r), DIGITS[k]);
    assert DIGITS[k..][1..] == DIGITS[k + 1..];
  }

  lemma Crc32Digit1() ensures TableStep(CRC32_POLY, Reg(0xFFFFFFFF), 0x31) == Reg(0x7C231048) {}
  lemma Crc32Digit2() ensures TableStep(CRC32_POLY, Reg(0x7C231048), 0x32) == Reg(0xB0ACBB32) {}
  lemma Crc32Digit3() ensures TableStep(CRC32_POLY, Reg(0xB0ACBB32), 0x33) == Reg(0x77B79C2D) {}
  lemma Crc32Digit4() ensures TableStep(CRC32_POLY, Reg(0x77B79C2D), 0x34) == Reg(0x641C1F5C) {}
  lemma Crc32Digit5() ensures TableStep(CRC32_POLY, Reg(0x641C1F5C), 0x35) == Reg(0x340AC5E3) {}
  lemma Crc32Digit6() ensures TableStep(CRC32_POLY, Reg(0x340AC5E3), 0x36) == Reg(0xF68D2C9E) {}
  lemma Crc32Digit7() ensures TableStep(CRC32_POLY, Reg(0xF68D2C9E), 0x37) == Reg(0xAFFC9660) {}
  lemma Crc32Digit8() ensures TableStep(CRC32_POLY, Reg(0xAFFC9660), 0x38) == Reg(0x651F2550) {}
  lemma Crc32Digit9() ensures TableStep(CRC32_POLY, Reg(0x651F2550), 0x39) == Reg(0x340BC6D9) {}

  lemma Crc32Digits()
    ensures Feed(CRC32_POLY, Reg(0xFFFFFFFF), DIGITS) == Reg(0x340BC6D9)
  {
    hide TableStep, FeedBits;
    Crc32Digit1(); FeedFirst(CRC32_POLY, 0xFFFFFFFF, 0x7C231048, 0);
    Crc32Digit2(); FeedFirst(CRC32_POLY, 0x7C231048, 0xB0ACBB32, 1);
    Crc32Digit3(); FeedFirst(CRC32_POLY, 0xB0ACBB32, 0x77B79C2D, 2);
    Crc32Digit4(); FeedFirst(CRC32_POLY, 0x77B79C2D, 0x641C1F5C, 3);
    Crc32Digit5(); FeedFirst(CRC32_POLY, 0x641C1F5C, 0x340AC5E3, 4);
    Crc32Digit6(); FeedFirst(CRC32_POLY, 0x340AC5E3, 0xF68D2C9E, 5);
    Crc32Digit7(); FeedFirst(CRC32_POLY, 0xF68D2C9E, 0xAFFC9660, 6);
    Crc32Digit8(); FeedFirst(CRC32_POLY, 0xAFFC9660, 0x651F2550, 7);
    Crc32Digit9(); FeedFirst(CRC32_POLY, 0x651F2550, 0x340BC6D9, 8);
    assert DIGITS[0..] == DIGITS && DIGITS[9..] == [];
  }

  lemma ModbusDigit1() ensures TableStep(MODBUS_POLY, Reg(0xFFFF), 0x31) == Reg(0x947E) {}
  lemma ModbusDigit2() ensures TableStep(MODBUS_POLY, Reg(0x947E), 0x32) == Reg(0xF595) {}
  lemma ModbusDigit3() ensures TableStep(MODBUS_POLY, Reg(0xF595), 0x33) == Reg(0x7A75) {}
  lemma ModbusDigit4() ensures TableStep(MODBUS_POLY, Reg(0x7A75), 0x34) == Reg(0x30BA) {}
  lemma ModbusDigit5() ensures TableStep(MODBUS_POLY, Reg(0x30BA), 0x35) == Reg(0xA471) {}
  lemma ModbusDigit6() ensures TableStep(MODBUS_POLY, Reg(0xA471), 0x36) == Reg(0x32E4) {}
  lemma ModbusDigit7() ensures TableStep(MODBUS_POLY, Reg(0x32E4), 0x37) == Reg(0x9D73) {}
  lemma ModbusDigit8() ensures TableStep(MODBUS_POLY, Reg(0x9D73), 0x38) == Reg(0x37DD) {}
  lemma ModbusDigit9() ensures TableStep(MODBUS_POLY, Reg(0x37DD), 0x39) == Reg(0x4B37) {}

  lemma ModbusDigits()
    ensures Feed(MODBUS_POLY, Reg(0xFFFF), DIGITS) == Reg(0x4B37)
  {
    hide TableStep, FeedBits;
    ModbusDigit1(); FeedFirst(MODBUS_POLY, 0xFFFF, 0x947E, 0);
    ModbusDigit2(); FeedFirst(MODBUS_POLY, 0x947E, 0xF595, 1);
    ModbusDigit3(); FeedFirst(MODBUS_POLY, 0xF595, 0x7A75, 2);
    ModbusDigit4(); FeedFirst(MODBUS_POLY, 0x7A75, 0x30BA, 3);
    ModbusDigit5(); FeedFirst(MODBUS_POLY, 0x30BA, 0xA471, 4);
    ModbusDigit6(); FeedFirst(MODBUS_POLY, 0xA471, 0x32E4, 5);
    ModbusDigit7(); FeedFirst(MODBUS_POLY, 0x32E4, 0x9D73, 6);
    ModbusDigit8(); FeedFirst(MODBUS_POLY, 0x9D73, 0x37DD, 7);
    ModbusDigit9(); FeedFirst(MODBUS_POLY, 0x37DD, 0x4B37, 8);
    assert DIGITS[0..] == DIGITS && DIGITS[9..] == [];
  }

  lemma Crc32Check()
    ensures Crc32(DIGITS, 0) == 0xCBF43926
  {
    hide Feed;
    Crc32Digits();
    assert Flip(Reg(0)) == Reg(0xFFFFFFFF) && Flip(Reg(0x340BC6D9)) == Reg(0xCBF43926);
  }

  lemma ModbusCheck()
    ensures CrcModbus(DIGITS) == 0x4B37
  {
    hide Feed;
    ModbusDigits();
  }
}
