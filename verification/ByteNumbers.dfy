/** A byte as eight bits and as a number below 256. */
module ByteNumbers {
  type byte = bv8

  lemma {:induction false} ByteOfInt(x: int)
    requires 0 <= x < 256
    ensures (x as byte) as int == x
  {
    EightBits(x);
  }

  function Bit(x: int, place: int): int
    requires place > 0
  {
    x / place % 2
  }

  lemma {:induction false} EightBits(x: int)
    requires 0 <= x < 256
    ensures x == Bit(x, 1) + 2 * Bit(x, 2) + 4 * Bit(x, 4) + 8 * Bit(x, 8)
              + 16 * Bit(x, 16) + 32 * Bit(x, 32) + 64 * Bit(x, 64) + 128 * Bit(x, 128)
  {
    Halves(x);
    var a, b, c, d, e, f, g := x / 2, x / 4, x / 8, x / 16, x / 32, x / 64, x / 128;
    LastBit(x, a);
    LastBit(a, b);
    LastBit(b, c);
    LastBit(c, d);
    LastBit(d, e);
    LastBit(e, f);
    LastBit(f, g);
    assert g == g % 2;
  }

  lemma LastBit(y: int, half: int)
    requires half == y / 2
    ensures y == y % 2 + 2 * half
  {
  }

  lemma Halves(x: int)
    ensures x / 2 / 2 == x / 4 && x / 4 / 2 == x / 8 && x / 8 / 2 == x / 16
    ensures x / 16 / 2 == x / 32 && x / 32 / 2 == x / 64 && x / 64 / 2 == x / 128
  {
  }

  lemma IntOfByte(b: byte)
    ensures 0 <= b as int < 256 && (b as int) as byte == b
  {
  }
}
