/** 32-bit machine words: their bytes, lowest first, and the number they stand for. */
module Words {
  import opened ByteNumbers
  import opened Bytes

  datatype Reg = Reg(bits: bv32)

  function Octet0(c: bv32): byte {
    (c & 0xFF) as byte
  }

  function Octet1(c: bv32): byte {
    ((c >> 8) & 0xFF) as byte
  }

  function Octet2(c: bv32): byte {
    ((c >> 16) & 0xFF) as byte
  }

  function Octet3(c: bv32): byte {
    ((c >> 24) & 0xFF) as byte
  }

  /** The four bytes of a word, lowest first. */
  function WordBytes(c: Reg): (s: bytes)
    ensures |s| == 4
  {
    [Octet0(c.bits), Octet1(c.bits), Octet2(c.bits), Octet3(c.bits)]
  }

  function NumberOf(c: Reg): (v: u32) {
    CapacityValues();
    LeValue(WordBytes(c))
  }

  /** A number names a byte string of length four exactly. */
  lemma {:induction false} NumberIs(c: Reg, w: bytes)
    requires |w| == 4
    ensures LeValue(w) == NumberOf(c) <==> w == WordBytes(c)
  {
    hide WordBytes;
    if LeValue(w) == NumberOf(c) {
      LeValueInjective(w, WordBytes(c));
    }
  }
}
