/** The Entity State PDU on the wire (IEEE 1278.1-1995): big-endian fields at fixed offsets. */
module DisWire {
  import opened ByteNumbers
  import opened Bytes
  import opened Records
  import opened DisIds

  const HEADER_SIZE: nat := 12
  const ENTITY_STATE_PDU: byte := 1
  /** The size of a PDU without articulation parameters, and of one such parameter. */
  const BASE_SIZE: nat := 144
  const ARTICULATION_SIZE: nat := 16

  /** The fields read from an unmarshalled Entity State PDU. */
  datatype EntityState = EntityState(id: EntityId, kind: byte, domain: byte, pos: Vec64, vel: Vec32)

  /** An Entity State PDU before marshalling. */
  datatype Pdu = Pdu(exercise: byte, timestamp: u32, e: EntityState)

  // ----- big-endian numbers -----

  function BeValue(s: bytes): (v: nat)
    ensures v < Capacity(|s|)
  {
    if s == [] then 0 else
    var n := |s| - 1;
    BeValue(s[..n]) * 256 + s[n] as int
  }

  function BePut(v: nat, n: nat): (s: bytes)
    ensures |s| == n
  {
    if n == 0 then [] else BePut(v / 256, n - 1) + [(v % 256) as byte]
  }

  function BeField(d: bytes, off: nat, n: nat): (v: nat)
    requires off + n <= |d|
    ensures v < Capacity(n)
  {
    BeValue(d[off..off + n])
  }

  lemma {:induction false} BeValuePut(v: nat, n: nat)
    requires v < Capacity(n)
    ensures BeValue(BePut(v, n)) == v
  {
    if n > 0 {
      ByteOfInt(v % 256);
      BeValuePut(v / 256, n - 1);
      assert BePut(v, n)[..n - 1] == BePut(v / 256, n - 1);
    }
  }

  // ----- unmarshalling -----

  function Be16(d: bytes, off: nat): u16
    requires off + 2 <= |d|
  {
    CapacityValues();
    BeField(d, off, 2)
  }

  function Be32(d: bytes, off: nat): u32
    requires off + 4 <= |d|
  {
    CapacityValues();
    BeField(d, off, 4)
  }

  function Be64(d: bytes, off: nat): u64
    requires off + 8 <= |d|
  {
    CapacityValues();
    BeField(d, off, 8)
  }

  /** None when the datagram runs out: before the end of the base fields, or of the parameters they announce. */
  function Unmarshal(d: bytes): Option<EntityState> {
    if |d| < BASE_SIZE || |d| < BASE_SIZE + ARTICULATION_SIZE * d[19] as int then None else
    Some(EntityState(EntityId(Be16(d, 12), Be16(d, 14), Be16(d, 16)), d[20], d[21],
                     Vec64(Be64(d, 48), Be64(d, 56), Be64(d, 64)),
                     Vec32(Be32(d, 36), Be32(d, 40), Be32(d, 44))))
  }

  // ----- marshalling -----

  function Zeros(n: nat): (s: bytes)
    ensures |s| == n && forall i :: 0 <= i < n ==> s[i] == 0
  {
    seq(n, _ => 0)
  }

  function HeaderBytes(p: Pdu): (s: bytes)
    ensures |s| == HEADER_SIZE
  {
    [6, p.exercise, ENTITY_STATE_PDU, 1] + BePut(p.timestamp, 4) + BePut(BASE_SIZE, 2) + [0, 0]
  }

  function EntityBytes(e: EntityState): (s: bytes)
    ensures |s| == 24
  {
    BePut(e.id.site, 2) + BePut(e.id.app, 2) + BePut(e.id.entity, 2) + [0, 0, e.kind, e.domain] + Zeros(14)
  }

  function MotionBytes(e: EntityState): (s: bytes)
    ensures |s| == 36
  {
    BePut(e.vel.x, 4) + BePut(e.vel.y, 4) + BePut(e.vel.z, 4)
    + BePut(e.pos.x, 8) + BePut(e.pos.y, 8) + BePut(e.pos.z, 8)
  }

  /** A PDU without articulation parameters; the fields that nobody sets are zero. */
  function Marshal(p: Pdu): (d: bytes)
    ensures |d| == BASE_SIZE
  {
    HeaderBytes(p) + EntityBytes(p.e) + MotionBytes(p.e) + Zeros(72)
  }

  // ----- nothing is lost -----

  lemma {:induction false} HeaderReadsBack(p: Pdu, rest: bytes)
    ensures var d := HeaderBytes(p) + rest;
      d[0] == 6 && d[1] == p.exercise && d[2] == ENTITY_STATE_PDU && Be32(d, 4) == p.timestamp
  {
    CapacityValues();
    hide BePut, BeValue, Capacity;
    BeValuePut(p.timestamp, 4);
    assert (HeaderBytes(p) + rest)[4..8] == BePut(p.timestamp, 4);
  }

  lemma {:induction false} EntityReadsBack(pre: bytes, e: EntityState, rest: bytes)
    requires |pre| == 12
    ensures var d := pre + EntityBytes(e) + rest;
      && EntityId(Be16(d, 12), Be16(d, 14), Be16(d, 16)) == e.id
      && d[19] == 0 && d[20] == e.kind && d[21] == e.domain
  {
    CapacityValues();
    hide BePut, BeValue, Capacity;
    BeValuePut(e.id.site, 2);
    BeValuePut(e.id.app, 2);
    BeValuePut(e.id.entity, 2);
    var d := pre + EntityBytes(e) + rest;
    assert d[12..14] == BePut(e.id.site, 2);
    assert d[14..16] == BePut(e.id.app, 2);
    assert d[16..18] == BePut(e.id.entity, 2);
  }

  lemma {:induction false} MotionReadsBack(pre: bytes, e: EntityState, rest: bytes)
    requires |pre| == 36
    ensures var d := pre + MotionBytes(e) + rest;
      && Vec32(Be32(d, 36), Be32(d, 40), Be32(d, 44)) == e.vel
      && Vec64(Be64(d, 48), Be64(d, 56), Be64(d, 64)) == e.pos
  {
    CapacityValues();
    hide BePut, BeValue, Capacity;
    BeValuePut(e.vel.x, 4);
    BeValuePut(e.vel.y, 4);
    BeValuePut(e.vel.z, 4);
    BeValuePut(e.pos.x, 8);
    BeValuePut(e.pos.y, 8);
    BeValuePut(e.pos.z, 8);
    var d := pre + MotionBytes(e) + rest;
    assert d[36..40] == BePut(e.vel.x, 4);
    assert d[40..44] == BePut(e.vel.y, 4);
    assert d[44..48] == BePut(e.vel.z, 4);
    assert d[48..56] == BePut(e.pos.x, 8);
    assert d[56..64] == BePut(e.pos.y, 8);
    assert d[64..72] == BePut(e.pos.z, 8);
  }

  /** What is marshalled is what unmarshalling gives back, and the header says so. */
  lemma {:induction false} UnmarshalMarshal(p: Pdu)
    ensures var d := Marshal(p);
      && Unmarshal(d) == Some(p.e)
      && d[0] == 6 && d[1] == p.exercise && d[2] == ENTITY_STATE_PDU && Be32(d, 4) == p.timestamp
  {
    hide HeaderBytes, EntityBytes, MotionBytes, Be16, Be32, Be64;
    var h, e, m, z := HeaderBytes(p), EntityBytes(p.e), MotionBytes(p.e), Zeros(72);
    var d := Marshal(p);
    assert d == h + (e + m + z);
    assert d == h + e + (m + z);
    assert d == (h + e) + m + z;
    HeaderReadsBack(p, e + m + z);
    EntityReadsBack(h, p.e, m + z);
    MotionReadsBack(h + e, p.e, z);
  }

  /** A marshalled PDU, field by field at its offsets. */
  predicate PduLayout(d: bytes, p: Pdu) {
    && |d| == 144 && d[0] == 6 && d[1] == p.exercise && d[2] == 1 && d[3] == 1
    && BeField(d, 4, 4) == p.timestamp && BeField(d, 8, 2) == 144
    && BeField(d, 12, 2) == p.e.id.site && BeField(d, 14, 2) == p.e.id.app && BeField(d, 16, 2) == p.e.id.entity
    && d[19] == 0 && d[20] == p.e.kind && d[21] == p.e.domain
    && BeField(d, 36, 4) == p.e.vel.x && BeField(d, 40, 4) == p.e.vel.y && BeField(d, 44, 4) == p.e.vel.z
    && BeField(d, 48, 8) == p.e.pos.x && BeField(d, 56, 8) == p.e.pos.y && BeField(d, 64, 8) == p.e.pos.z
  }

  lemma {:induction false} MarshalLayout(p: Pdu)
    ensures PduLayout(Marshal(p), p)
  {
    hide EntityBytes, MotionBytes, BeField, BePut;
    var h, e, m, z := HeaderBytes(p), EntityBytes(p.e), MotionBytes(p.e), Zeros(72);
    var d := Marshal(p);
    assert d == h + (e + m + z);
    assert d == h + e + (m + z);
    assert d == (h + e) + m + z;
    HeaderReadsBack(p, e + m + z);
    HeaderLength(p, e + m + z);
    EntityReadsBack(h, p.e, m + z);
    MotionReadsBack(h + e, p.e, z);
    assert d[3] == h[3];
  }

  lemma {:induction false} HeaderLength(p: Pdu, rest: bytes)
    ensures BeField(HeaderBytes(p) + rest, 8, 2) == 144
  {
    CapacityValues();
    hide BePut, BeValue, Capacity;
    BeValuePut(BASE_SIZE, 2);
    assert (HeaderBytes(p) + rest)[8..10] == BePut(BASE_SIZE, 2);
  }
}
