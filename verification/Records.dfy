/** Shared value types, and the wire form of vectors. */
module Records {
  import opened ByteNumbers
  import opened Bytes
  import opened Floats

  datatype Option<+T> = None | Some(value: T)

  datatype Result<+T, +E> = Ok(value: T) | Err(error: E)

  datatype Vec64 = Vec64(x: F64, y: F64, z: F64)
  datatype Vec32 = Vec32(x: F32, y: F32, z: F32)

  /** One object: the wire record and the snapshot row have the same fields. */
  datatype ObjectRecord = ObjectRecord(id: u32, kind: byte, flags: byte, confidence: byte, pos: Vec64, vel: Vec32,
                                       intensity: F32)

  /** A decoded OLV1 packet. */
  datatype StatePacket = StatePacket(sequence: u32, satId: u32, satPos: Vec64, satVel: Vec32, objectTotal: u16,
                                     objects: seq<ObjectRecord>)

  const FLAG_HAS_VELOCITY: byte := 0x01
  const FLAG_HIGHLIGHT: byte := 0x02
  predicate HasVelocity(r: ObjectRecord) {
    r.flags & FLAG_HAS_VELOCITY != 0
  }

  const ZERO_VEC64 := Vec64(0, 0, 0)
  const ZERO_VEC32 := Vec32(0, 0, 0)

  /** Unknown type bytes decode as the catch-all type 0. */
  function NormalizeType(t: byte): byte {
    if t <= 5 then t else 0
  }

  function ClampConfidence(c: byte): byte {
    if c > 100 then 100 else c
  }

  predicate FiniteVec64(v: Vec64) {
    Finite64(v.x) && Finite64(v.y) && Finite64(v.z)
  }

  predicate FiniteVec32(v: Vec32) {
    Finite32(v.x) && Finite32(v.y) && Finite32(v.z)
  }

  predicate VecInRange(v: Vec64) {
    InCoordRange(v.x) && InCoordRange(v.y) && InCoordRange(v.z)
  }

  function Vec64Bytes(v: Vec64): (b: bytes)
    ensures |b| == 24
  {
    LePut(v.x, 8) + LePut(v.y, 8) + LePut(v.z, 8)
  }

  function Vec32Bytes(v: Vec32): (b: bytes)
    ensures |b| == 12
  {
    LePut(v.x, 4) + LePut(v.y, 4) + LePut(v.z, 4)
  }

  function Field64(d: bytes, off: nat): u64
    requires off + 8 <= |d|
  {
    CapacityValues();
    Field(d, off, 8)
  }

  function Field16(d: bytes, off: nat): u16
    requires off + 2 <= |d|
  {
    CapacityValues();
    Field(d, off, 2)
  }

  function Field32(d: bytes, off: nat): u32
    requires off + 4 <= |d|
  {
    CapacityValues();
    Field(d, off, 4)
  }

  function ReadVec64(d: bytes, off: nat): Vec64
    requires off + 24 <= |d|
  {
    Vec64(Field64(d, off), Field64(d, off + 8), Field64(d, off + 16))
  }

  function ReadVec32(d: bytes, off: nat): Vec32
    requires off + 12 <= |d|
  {
    Vec32(Field32(d, off), Field32(d, off + 4), Field32(d, off + 8))
  }

  lemma {:induction false} ReadBackVec64(pre: bytes, v: Vec64, post: bytes)
    ensures ReadVec64(pre + Vec64Bytes(v) + post, |pre|) == v
  {
    hide LePut;
    CapacityValues();
    var d := pre + Vec64Bytes(v) + post;
    var x, y, z := LePut(v.x, 8), LePut(v.y, 8), LePut(v.z, 8);
    assert d == pre + x + (y + z + post);
    FieldInContext(pre, v.x, 8, y + z + post);
    assert d == (pre + x) + y + (z + post);
    FieldInContext(pre + x, v.y, 8, z + post);
    assert d == (pre + x + y) + z + post;
    FieldInContext(pre + x + y, v.z, 8, post);
  }

  lemma {:induction false} ReadBackVec32(pre: bytes, v: Vec32, post: bytes)
    ensures ReadVec32(pre + Vec32Bytes(v) + post, |pre|) == v
  {
    hide LePut;
    CapacityValues();
    var d := pre + Vec32Bytes(v) + post;
    var x, y, z := LePut(v.x, 4), LePut(v.y, 4), LePut(v.z, 4);
    assert d == pre + x + (y + z + post);
    FieldInContext(pre, v.x, 4, y + z + post);
    assert d == (pre + x) + y + (z + post);
    FieldInContext(pre + x, v.y, 4, z + post);
    assert d == (pre + x + y) + z + post;
    FieldInContext(pre + x + y, v.z, 4, post);
  }

  method PutVec64(out: bytes, v: Vec64) returns (out': bytes)
    ensures out' == out + Vec64Bytes(v)
  {
    hide LePut;
    var x, y, z := LePut(v.x, 8), LePut(v.y, 8), LePut(v.z, 8);
    assert out + (x + y + z) == out + x + y + z;
    out' := Put(out, v.x, 8);
    out' := Put(out', v.y, 8);
    out' := Put(out', v.z, 8);
  }

  method PutVec32(out: bytes, v: Vec32) returns (out': bytes)
    ensures out' == out + Vec32Bytes(v)
  {
    out' := Put(out, v.x, 4);
    out' := Put(out', v.y, 4);
    out' := Put(out', v.z, 4);
  }

  method GetVec64(d: bytes, off: nat) returns (v: Vec64)
    requires off + 24 <= |d|
    ensures v == ReadVec64(d, off)
  {
    CapacityValues();
    var x := Get(d, off, 8);
    var y := Get(d, off + 8, 8);
    var z := Get(d, off + 16, 8);
    v := Vec64(x, y, z);
  }

  method GetVec32(d: bytes, off: nat) returns (v: Vec32)
    requires off + 12 <= |d|
    ensures v == ReadVec32(d, off)
  {
    CapacityValues();
    var x := Get(d, off, 4);
    var y := Get(d, off + 4, 4);
    var z := Get(d, off + 8, 4);
    v := Vec32(x, y, z);
  }

  // ----- the reserved field of both headers -----

  /** Alike but for bytes 6 and 7 and the last four. */
  predicate AlikeButReserved(d: bytes, e: bytes) {
    && |d| == |e| && forall i :: 0 <= i < |d| - 4 && (i < 6 || i >= 8) ==> d[i] == e[i]
  }

  lemma {:induction false} SameField(d: bytes, e: bytes, off: nat, n: nat)
    requires AlikeButReserved(d, e) && off >= 8 && off + n <= |d| - 4
    ensures Field(d, off, n) == Field(e, off, n)
  {
    assert d[off..off + n] == e[off..off + n];
  }

  lemma {:induction false} SameVec64(d: bytes, e: bytes, off: nat)
    requires AlikeButReserved(d, e) && off >= 8 && off + 24 <= |d| - 4
    ensures ReadVec64(d, off) == ReadVec64(e, off)
  {
    hide Field, AlikeButReserved;
    assert |d| == |e| by { SameLength(d, e); }
    SameField(d, e, off, 8);
    SameField(d, e, off + 8, 8);
    SameField(d, e, off + 16, 8);
  }

  lemma {:induction false} SameVec32(d: bytes, e: bytes, off: nat)
    requires AlikeButReserved(d, e) && off >= 8 && off + 12 <= |d| - 4
    ensures ReadVec32(d, off) == ReadVec32(e, off)
  {
    hide Field, AlikeButReserved;
    assert |d| == |e| by { SameLength(d, e); }
    SameField(d, e, off, 4);
    SameField(d, e, off + 4, 4);
    SameField(d, e, off + 8, 4);
  }

  lemma SameLength(d: bytes, e: bytes)
    requires AlikeButReserved(d, e)
    ensures |d| == |e|
  {
  }
}
