/** The published check value of CRC-32. */
module CrcCheck {
  import opened ByteNumbers
  import opened Bytes
  import opened Words
  import opened Crc

  /** Four clocks with the low bits of `b`. */
  function Four(c: bv32, b: byte): bv32 {
    ClockBitOf(ClockBitOf(ClockBitOf(ClockBitOf(c, b & 1 == 1), b & 2 == 2), b & 4 == 4), b & 8 == 8)
  }

  lemma {:induction false} FourClocks(c: bv32, b: byte, n: nat)
    ensures ClockBits(Reg(c), b, n + 4) == ClockBits(Reg(Four(c, b)), b >> 4, n)
  {
    hide ClockBitOf;
    BitsOf(b);
    var c1 := ClockBitOf(c, b & 1 == 1);
    var c2 := ClockBitOf(c1, b & 2 == 2);
    var c3 := ClockBitOf(c2, b & 4 == 4);
    OneClock(c, b, n + 3);
    OneClock(c1, b >> 1, n + 2);
    OneClock(c2, (b >> 1) >> 1, n + 1);
    OneClock(c3, ((b >> 1) >> 1) >> 1, n);
  }

  lemma OneClock(c: bv32, b: byte, n: nat)
    ensures ClockBits(Reg(c), b, n + 1) == ClockBits(Reg(ClockBitOf(c, b & 1 == 1)), b >> 1, n)
  {
    hide ClockBitOf;
  }

  lemma BitsOf(b: byte)
    ensures (b & 2 == 2 <==> (b >> 1) & 1 == 1) && (b & 4 == 4 <==> ((b >> 1) >> 1) & 1 == 1)
    ensures (b & 8 == 8 <==> (((b >> 1) >> 1) >> 1) & 1 == 1) && (((b >> 1) >> 1) >> 1) >> 1 == b >> 4
  {
  }

  lemma {:induction false} OneByte(c: bv32, b: byte, r: bv32)
    requires Four(Four(c, b), b >> 4) == r
    ensures ClockBits(Reg(c), b, 8) == Reg(r)
  {
    hide Four;
    FourClocks(c, b, 4);
    FourClocks(Four(c, b), b >> 4, 0);
  }

  /** The digits from one to nine in ASCII. */
  const DIGITS: bytes := [0x31, 0x32, 0x33, 0x34, 0x35, 0x36, 0x37, 0x38, 0x39]

  /** The register after each digit. */
  lemma {:induction false} DigitClocks()
    ensures ClockBits(Reg(0xFFFFFFFF), 0x31, 8) == Reg(0x7C231048)
    ensures ClockBits(Reg(0x7C231048), 0x32, 8) == Reg(0xB0ACBB32)
    ensures ClockBits(Reg(0xB0ACBB32), 0x33, 8) == Reg(0x77B79C2D)
    ensures ClockBits(Reg(0x77B79C2D), 0x34, 8) == Reg(0x641C1F5C)
    ensures ClockBits(Reg(0x641C1F5C), 0x35, 8) == Reg(0x340AC5E3)
    ensures ClockBits(Reg(0x340AC5E3), 0x36, 8) == Reg(0xF68D2C9E)
    ensures ClockBits(Reg(0xF68D2C9E), 0x37, 8) == Reg(0xAFFC9660)
    ensures ClockBits(Reg(0xAFFC9660), 0x38, 8) == Reg(0x651F2550)
    ensures ClockBits(Reg(0x651F2550), 0x39, 8) == Reg(0x340BC6D9)
  {
    hide ClockBits;
    OneByte(0xFFFFFFFF, 0x31, 0x7C231048);
    OneByte(0x7C231048, 0x32, 0xB0ACBB32);
    OneByte(0xB0ACBB32, 0x33, 0x77B79C2D);
    OneByte(0x77B79C2D, 0x34, 0x641C1F5C);
    OneByte(0x641C1F5C, 0x35, 0x340AC5E3);
    OneByte(0x340AC5E3, 0x36, 0xF68D2C9E);
    OneByte(0xF68D2C9E, 0x37, 0xAFFC9660);
    OneByte(0xAFFC9660, 0x38, 0x651F2550);
    OneByte(0x651F2550, 0x39, 0x340BC6D9);
  }

  lemma {:induction false} NextDigit(c: Reg, k: nat, r: Reg)
    requires k < 9 && ClockBits(c, DIGITS[k], 8) == r
    ensures Register(c, DIGITS[k..]) == Register(r, DIGITS[k + 1..])
  {
    hide ClockBits;
    assert DIGITS[k..][0] == DIGITS[k] && DIGITS[k..][1..] == DIGITS[k + 1..];
  }

  lemma {:induction false} DigitRegister()
    ensures Register(Reg(ONES), DIGITS) == Reg(0x340BC6D9)
  {
    hide ClockBits, Register;
    DigitClocks();
    assert DIGITS[0..] == DIGITS && DIGITS[9..] == [];
    NextDigit(Reg(0xFFFFFFFF), 0, Reg(0x7C231048));
    NextDigit(Reg(0x7C231048), 1, Reg(0xB0ACBB32));
    NextDigit(Reg(0xB0ACBB32), 2, Reg(0x77B79C2D));
    NextDigit(Reg(0x77B79C2D), 3, Reg(0x641C1F5C));
    NextDigit(Reg(0x641C1F5C), 4, Reg(0x340AC5E3));
    NextDigit(Reg(0x340AC5E3), 5, Reg(0xF68D2C9E));
    NextDigit(Reg(0xF68D2C9E), 6, Reg(0xAFFC9660));
    NextDigit(Reg(0xAFFC9660), 7, Reg(0x651F2550));
    NextDigit(Reg(0x651F2550), 8, Reg(0x340BC6D9));
    NothingLeft(Reg(0x340BC6D9));
  }

  lemma NothingLeft(c: Reg)
    ensures Register(c, []) == c
  {
  }

  /** The CRC of "123456789" is 0xCBF43926: polynomial, bit order, initial value and final complement are those of
      CRC-32. */
  lemma {:induction false} CheckValue()
    ensures Crc32(DIGITS) == 0xCBF43926
  {
    hide Register, LeValue;
    DigitRegister();
    var c := Xor(Reg(0x340BC6D9), Reg(ONES));
    assert c == Reg(0xCBF43926);
    assert WordBytes(c) == [0x26, 0x39, 0xF4, 0xCB];
    FourBytes();
  }

  lemma {:induction false} FourBytes()
    ensures LeValue([0x26, 0x39, 0xF4, 0xCB]) == 0xCBF43926
  {
    var s: bytes := [0x26, 0x39, 0xF4, 0xCB];
    assert s[1..] == [0x39, 0xF4, 0xCB] && s[1..][1..] == [0xF4, 0xCB] && s[1..][1..][1..] == [0xCB];
    assert s[1..][1..][1..][1..] == [];
  }
}
