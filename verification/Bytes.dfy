/** Little-endian byte strings: the wire form of every integer and float field. */
module Bytes {
  import opened ByteNumbers

  type bytes = seq<byte>
  type u16 = x: int | 0 <= x < 0x1_0000
  type u32 = x: int | 0 <= x < 0x1_0000_0000
  type u64 = x: int | 0 <= x < 0x1_0000_0000_0000_0000

  const TWO32: int := 0x1_0000_0000

  lemma NextSequence(sequence: u32, k: nat)
    ensures ((sequence + k) % TWO32 + 1) % TWO32 == (sequence + (k + 1)) % TWO32
  {
  }

  /** The number of values `n` bytes can hold. */
  function Capacity(n: nat): (c: nat)
    ensures c > 0
  {
    if n == 0 then 1 else 256 * Capacity(n - 1)
  }

  /** The number a little-endian byte string stands for. */
  function LeValue(s: bytes): (v: nat)
    ensures v < Capacity(|s|)
  {
    if s == [] then 0 else s[0] as int + 256 * LeValue(s[1..])
  }

  /** The `n` low bytes of `v`, least significant first. */
  function LePut(v: nat, n: nat): (s: bytes)
    ensures |s| == n
  {
    if n == 0 then [] else [(v % 256) as byte] + LePut(v / 256, n - 1)
  }

  /** The field of `n` bytes that starts at offset `off`. */
  function Field(data: bytes, off: nat, n: nat): (v: nat)
    requires off + n <= |data|
    ensures v < Capacity(n)
  {
    LeValue(data[off..off + n])
  }

  lemma {:induction false} CapacityValues()
    ensures Capacity(2) == 0x1_0000 && Capacity(4) == TWO32 && Capacity(8) == 0x1_0000_0000_0000_0000
  {
    assert Capacity(2) == 256 * Capacity(1);
    assert Capacity(3) == 256 * Capacity(2);
    assert Capacity(4) == 256 * Capacity(3);
    assert Capacity(5) == 256 * Capacity(4);
    assert Capacity(6) == 256 * Capacity(5);
    assert Capacity(7) == 256 * Capacity(6);
    assert Capacity(8) == 256 * Capacity(7);
  }

  /** Writing a number and reading it back gives the number, if it fits. */
  lemma {:induction false} LeValuePut(v: nat, n: nat)
    requires v < Capacity(n)
    ensures LeValue(LePut(v, n)) == v
  {
    if n == 0 {
    } else {
      ByteOfInt(v % 256);
      LeValuePut(v / 256, n - 1);
      assert LePut(v, n)[1..] == LePut(v / 256, n - 1);
    }
  }

  /** Reading bytes as a number and writing it back gives the same bytes. */
  lemma {:induction false} LePutValue(s: bytes)
    ensures LePut(LeValue(s), |s|) == s
  {
    if s == [] {
    } else {
      var b, rest := s[0], LeValue(s[1..]);
      IntOfByte(b);
      assert LeValue(s) == b as int + 256 * rest;
      assert LeValue(s) / 256 == rest && LeValue(s) % 256 == b as int;
      LePutValue(s[1..]);
      assert s == [b] + s[1..];
    }
  }

  /** Two byte strings of one length that stand for the same number are the same string. */
  lemma {:induction false} LeValueInjective(s: bytes, t: bytes)
    requires |s| == |t| && LeValue(s) == LeValue(t)
    ensures s == t
  {
    LePutValue(s);
    LePutValue(t);
  }

  /** A field written between two other strings reads back from its offset. */
  lemma {:induction false} FieldInContext(pre: bytes, v: nat, n: nat, post: bytes)
    requires v < Capacity(n)
    ensures Field(pre + LePut(v, n) + post, |pre|, n) == v
  {
    assert (pre + LePut(v, n) + post)[|pre|..|pre| + n] == LePut(v, n);
    LeValuePut(v, n);
  }

  /** putU16, putU32 and putU64: appends `n` bytes, lowest first. */
  method Put(out: bytes, v: nat, n: nat) returns (out': bytes)
    ensures out' == out + LePut(v, n)
  {
    out' := out;
    var rest := v;
    for i := 0 to n
      invariant out' + LePut(rest, n - i) == out + LePut(v, n)
    {
      assert LePut(rest, n - i) == [(rest % 256) as byte] + LePut(rest / 256, n - i - 1);
      assert out' + LePut(rest, n - i) == out' + [(rest % 256) as byte] + LePut(rest / 256, n - i - 1);
      out' := out' + [(rest % 256) as byte];
      rest := rest / 256;
    }
    assert out' + [] == out';
  }

  /** getU16, getU32 and getU64: the bytes from `off`, the highest first. */
  method Get(data: bytes, off: nat, n: nat) returns (v: nat)
    requires off + n <= |data|
    ensures v == Field(data, off, n)
  {
    v := 0;
    for i := n downto 0
      invariant v == LeValue(data[off + i..off + n])
    {
      assert data[off + i..off + n][1..] == data[off + i + 1..off + n];
      v := 256 * v + data[off + i] as int;
    }
  }
}
