/** The OLV1 state datagram: encoder, decoder, round trips and damage detection. */
module Olv1Codec {
  import opened ByteNumbers
  import opened Bytes
  import opened Floats
  import opened Records
  import Crc

  const MAGIC: bytes := [0x4F, 0x4C, 0x56, 0x31]
  const VERSION: byte := 1
  const STATE_UPDATE: byte := 1
  const HEADER_SIZE: nat := 56
  const RECORD_SIZE: nat := 48
  const MAX_OBJECTS_PER_PACKET: nat := 128
  const MAX_TRACKED_OBJECTS: nat := 5000
  const MIN_PACKET_SIZE: nat := HEADER_SIZE + 4
  const MAX_PACKET_SIZE: nat := HEADER_SIZE + MAX_OBJECTS_PER_PACKET * RECORD_SIZE + 4

  datatype DecodeError = TooShort | TooLong | BadMagic | BadVersion | BadMsgType | TooManyObjects
    | BadLength | BadCrc | NonFinite | OutOfRange

  // ----- what a packet turns into on the wire -----

  function Count(pkt: StatePacket): (n: nat)
    ensures n <= MAX_OBJECTS_PER_PACKET && n <= |pkt.objects|
  {
    if |pkt.objects| > MAX_OBJECTS_PER_PACKET then MAX_OBJECTS_PER_PACKET else |pkt.objects|
  }

  function ClampTotal(total: u16): (n: u16)
    ensures n <= MAX_TRACKED_OBJECTS
  {
    if total > MAX_TRACKED_OBJECTS then MAX_TRACKED_OBJECTS else total
  }

  function HeaderBytes(pkt: StatePacket): (h: bytes)
    ensures |h| == HEADER_SIZE
  {
    MAGIC + [VERSION, STATE_UPDATE] + LePut(0, 2) + LePut(pkt.sequence, 4) + LePut(pkt.satId, 4)
    + Vec64Bytes(pkt.satPos) + Vec32Bytes(pkt.satVel) + LePut(Count(pkt), 2) + LePut(ClampTotal(pkt.objectTotal), 2)
  }

  function RecordBytes(r: ObjectRecord): (b: bytes)
    ensures |b| == RECORD_SIZE
  {
    LePut(r.id, 4) + [r.kind, r.flags, ClampConfidence(r.confidence), 0]
    + Vec64Bytes(r.pos) + Vec32Bytes(r.vel) + LePut(r.intensity, 4)
  }

  function RecordsBytes(rs: seq<ObjectRecord>): (b: bytes)
    ensures |b| == RECORD_SIZE * |rs|
  {
    if rs == [] then [] else RecordsBytes(rs[..|rs| - 1]) + RecordBytes(rs[|rs| - 1])
  }

  function Body(pkt: StatePacket): (b: bytes)
    ensures |b| == HEADER_SIZE + RECORD_SIZE * Count(pkt)
  {
    HeaderBytes(pkt) + RecordsBytes(pkt.objects[..Count(pkt)])
  }

  function Encode(pkt: StatePacket): (d: bytes)
    ensures |d| == HEADER_SIZE + RECORD_SIZE * Count(pkt) + 4
  {
    Crc.WithCrc(Body(pkt))
  }

  // ----- what a receiver reads -----

  function ReadRecord(d: bytes, q: nat): ObjectRecord
    requires q + RECORD_SIZE <= |d|
  {
    ObjectRecord(Field32(d, q), NormalizeType(d[q + 4]), d[q + 5], ClampConfidence(d[q + 6]),
                 ReadVec64(d, q + 8), ReadVec32(d, q + 32), Field32(d, q + 44))
  }

  /** Items 8 and 9 for one record. */
  function RecordError(r: ObjectRecord): Option<DecodeError> {
    if !(FiniteVec64(r.pos) && FiniteVec32(r.vel) && Finite32(r.intensity)) then Some(NonFinite)
    else if !VecInRange(r.pos) then Some(OutOfRange)
    else None
  }

  /** The first record that fails decides. */
  function RecordsError(rs: seq<ObjectRecord>): Option<DecodeError> {
    if rs == [] then None else
    var e := RecordError(rs[0]);
    if e.Some? then e else RecordsError(rs[1..])
  }

  /** Items 8 and 9 for the satellite. */
  function SatelliteError(pkt: StatePacket): Option<DecodeError> {
    if !(FiniteVec64(pkt.satPos) && FiniteVec32(pkt.satVel)) then Some(NonFinite)
    else if !VecInRange(pkt.satPos) then Some(OutOfRange)
    else None
  }

  function ReadRecords(d: bytes, n: nat): (rs: seq<ObjectRecord>)
    requires HEADER_SIZE + RECORD_SIZE * n <= |d|
    ensures |rs| == n
  {
    if n == 0 then [] else ReadRecords(d, n - 1) + [ReadRecord(d, HEADER_SIZE + RECORD_SIZE * (n - 1))]
  }

  /** The checks on decoded values, in the order the decoder makes them. */
  function Validate(pkt: StatePacket): Result<StatePacket, DecodeError> {
    var e := SatelliteError(pkt);
    if e.Some? then Err(e.value) else
    var f := RecordsError(pkt.objects);
    if f.Some? then Err(f.value) else Ok(pkt)
  }

  function ReadPacket(d: bytes, count: nat): StatePacket
    requires HEADER_SIZE + RECORD_SIZE * count <= |d|
  {
    StatePacket(Field32(d, 8), Field32(d, 12), ReadVec64(d, 16), ReadVec32(d, 40), Field16(d, 54),
                ReadRecords(d, count))
  }

  function Decode(d: bytes): Result<StatePacket, DecodeError> {
    if |d| < MIN_PACKET_SIZE then Err(TooShort)
    else if |d| > MAX_PACKET_SIZE then Err(TooLong)
    else if d[..4] != MAGIC then Err(BadMagic)
    else if d[4] != VERSION then Err(BadVersion)
    else if d[5] != STATE_UPDATE then Err(BadMsgType)
    else
      var count, total := Field16(d, 52), Field16(d, 54);
      if count > MAX_OBJECTS_PER_PACKET || total > MAX_TRACKED_OBJECTS || count > total then Err(TooManyObjects)
      else if |d| != HEADER_SIZE + RECORD_SIZE * count + 4 then Err(BadLength)
      else if !Crc.Framed(d) then Err(BadCrc)
      else Validate(ReadPacket(d, count))
  }

  // ----- what survives encoding -----

  function NormRecord(r: ObjectRecord): ObjectRecord {
    r.(kind := NormalizeType(r.kind), confidence := ClampConfidence(r.confidence))
  }

  function NormRecords(rs: seq<ObjectRecord>): (n: seq<ObjectRecord>)
    ensures |n| == |rs| && forall i :: 0 <= i < |rs| ==> n[i] == NormRecord(rs[i])
  {
    seq(|rs|, i requires 0 <= i < |rs| => NormRecord(rs[i]))
  }

  /** At most 128 records, the total and confidences clamped, unknown types folded. */
  function Norm(pkt: StatePacket): StatePacket {
    pkt.(objectTotal := ClampTotal(pkt.objectTotal), objects := NormRecords(pkt.objects[..Count(pkt)]))
  }

  /** What decoding the encoding must give. */
  function Expected(pkt: StatePacket): Result<StatePacket, DecodeError> {
    if Count(pkt) > ClampTotal(pkt.objectTotal) then Err(TooManyObjects) else Validate(Norm(pkt))
  }

  // ----- reading back what was written -----

  lemma {:induction false} ReadBackRecord(pre: bytes, r: ObjectRecord, post: bytes)
    ensures ReadRecord(pre + RecordBytes(r) + post, |pre|) == NormRecord(r)
  {
    hide LePut, Vec64Bytes, Vec32Bytes, ReadVec64, ReadVec32, Field;
    CapacityValues();
    var d := pre + RecordBytes(r) + post;
    var meta := [r.kind, r.flags, ClampConfidence(r.confidence), 0];
    var id, pos, vel, intensity := LePut(r.id, 4), Vec64Bytes(r.pos), Vec32Bytes(r.vel), LePut(r.intensity, 4);
    assert d == pre + id + (meta + pos + vel + intensity + post);
    FieldInContext(pre, r.id, 4, meta + pos + vel + intensity + post);
    assert d == (pre + id) + meta + (pos + vel + intensity + post);
    assert d == (pre + id + meta) + pos + (vel + intensity + post);
    ReadBackVec64(pre + id + meta, r.pos, vel + intensity + post);
    assert d == (pre + id + meta + pos) + vel + (intensity + post);
    ReadBackVec32(pre + id + meta + pos, r.vel, intensity + post);
    assert d == (pre + id + meta + pos + vel) + intensity + post;
    FieldInContext(pre + id + meta + pos + vel, r.intensity, 4, post);
  }

  lemma {:induction false} ReadBackRecords(h: bytes, rs: seq<ObjectRecord>, post: bytes)
    requires |h| == HEADER_SIZE
    ensures ReadRecords(h + RecordsBytes(rs) + post, |rs|) == NormRecords(rs)
  {
    hide RecordBytes, ReadRecord, NormRecord;
    if rs != [] {
      var n := |rs| - 1;
      var front, last := rs[..n], rs[n];
      assert h + RecordsBytes(rs) + post == h + RecordsBytes(front) + (RecordBytes(last) + post);
      ReadBackRecords(h, front, RecordBytes(last) + post);
      assert h + RecordsBytes(rs) + post == (h + RecordsBytes(front)) + RecordBytes(last) + post;
      ReadBackRecord(h + RecordsBytes(front), last, post);
    }
  }

  /** The header fields read back from an encoded packet. */
  lemma {:induction false} ReadBackHeader(pkt: StatePacket, post: bytes)
    ensures var d := HeaderBytes(pkt) + post;
      && d[..4] == MAGIC && d[4] == VERSION && d[5] == STATE_UPDATE
      && Field32(d, 8) == pkt.sequence && Field32(d, 12) == pkt.satId
      && ReadVec64(d, 16) == pkt.satPos && ReadVec32(d, 40) == pkt.satVel
      && Field16(d, 52) == Count(pkt) && Field16(d, 54) == ClampTotal(pkt.objectTotal)
  {
    hide LePut, Field, Vec64Bytes, Vec32Bytes, ReadVec64, ReadVec32;
    CapacityValues();
    var d := HeaderBytes(pkt) + post;
    var start := MAGIC + [VERSION, STATE_UPDATE] + LePut(0, 2);
    var a, b, p, v := LePut(pkt.sequence, 4), LePut(pkt.satId, 4), Vec64Bytes(pkt.satPos), Vec32Bytes(pkt.satVel);
    var n, t := LePut(Count(pkt), 2), LePut(ClampTotal(pkt.objectTotal), 2);
    assert d == start + a + (b + p + v + n + t + post);
    FieldInContext(start, pkt.sequence, 4, b + p + v + n + t + post);
    assert d == (start + a) + b + (p + v + n + t + post);
    FieldInContext(start + a, pkt.satId, 4, p + v + n + t + post);
    assert d == (start + a + b) + p + (v + n + t + post);
    ReadBackVec64(start + a + b, pkt.satPos, v + n + t + post);
    assert d == (start + a + b + p) + v + (n + t + post);
    ReadBackVec32(start + a + b + p, pkt.satVel, n + t + post);
    assert d == (start + a + b + p + v) + n + (t + post);
    FieldInContext(start + a + b + p + v, Count(pkt), 2, t + post);
    assert d == (start + a + b + p + v + n) + t + post;
    FieldInContext(start + a + b + p + v + n, ClampTotal(pkt.objectTotal), 2, post);
  }

  /** Decoding an encoding gives exactly the normal form, or exactly the first rule it breaks. */
  lemma {:induction false} DecodeEncode(pkt: StatePacket)
    ensures Decode(Encode(pkt)) == Expected(pkt)
  {
    hide HeaderBytes, RecordsBytes, Crc.Framed, Crc.WithCrc, Field32, Field16, ReadVec64, ReadVec32, NormRecords,
      Validate, ReadRecords;
    var n := Count(pkt);
    var rs := pkt.objects[..n];
    var d := Encode(pkt);
    Crc.WithCrcIsFramed(Body(pkt));
    var trailer := d[|Body(pkt)|..];
    assert d == HeaderBytes(pkt) + (RecordsBytes(rs) + trailer) by {
      assert d == d[..|Body(pkt)|] + trailer;
    }
    ReadBackHeader(pkt, RecordsBytes(rs) + trailer);
    assert d == HeaderBytes(pkt) + RecordsBytes(rs) + trailer;
    ReadBackRecords(HeaderBytes(pkt), rs, trailer);
    if n <= ClampTotal(pkt.objectTotal) {
      assert Decode(d) == Validate(ReadPacket(d, n));
      assert ReadPacket(d, n) == Norm(pkt);
    }
  }

  /** Everything the decoder accepts is within every documented limit and already in normal form. */
  lemma {:induction false} DecodedIsNormal(d: bytes)
    requires Decode(d).Ok?
    ensures var p := Decode(d).value;
      && Norm(p) == p && Validate(p) == Ok(p)
      && |p.objects| <= MAX_OBJECTS_PER_PACKET && |p.objects| <= p.objectTotal <= MAX_TRACKED_OBJECTS
      && |d| == HEADER_SIZE + RECORD_SIZE * |p.objects| + 4
  {
    hide Crc.Framed, Field16, Field32, Field64, ReadVec64, ReadVec32, ReadRecord, SatelliteError, RecordsError;
    var p, n := Decode(d).value, Field16(d, 52);
    assert p == ReadPacket(d, n);
    ReadRecordsNormal(d, n);
    assert p.objects[..n] == p.objects;
  }

  lemma {:induction false} ReadRecordsNormal(d: bytes, n: nat)
    requires HEADER_SIZE + RECORD_SIZE * n <= |d|
    ensures NormRecords(ReadRecords(d, n)) == ReadRecords(d, n)
  {
    hide Field32, Field64, ReadVec64, ReadVec32;
    if n != 0 {
      ReadRecordsNormal(d, n - 1);
    }
  }

  /** Re-encoding an accepted datagram and decoding again changes nothing. */
  lemma {:induction false} DecodeEncodeDecode(d: bytes)
    requires Decode(d).Ok?
    ensures Decode(Encode(Decode(d).value)) == Decode(d)
  {
    hide Encode, Decode, Validate, Norm;
    DecodedIsNormal(d);
    DecodeEncode(Decode(d).value);
  }

  predicate GoodRecord(r: ObjectRecord) {
    FiniteVec64(r.pos) && FiniteVec32(r.vel) && Finite32(r.intensity) && VecInRange(r.pos)
  }

  predicate GoodSatellite(pkt: StatePacket) {
    FiniteVec64(pkt.satPos) && FiniteVec32(pkt.satVel) && VecInRange(pkt.satPos)
  }

  /** A packet survives the wire exactly when its counts agree and its values are finite and in range. */
  lemma {:induction false} SurvivesIff(pkt: StatePacket)
    ensures Decode(Encode(pkt)) == Ok(Norm(pkt)) <==>
      && Count(pkt) <= ClampTotal(pkt.objectTotal)
      && GoodSatellite(pkt)
      && (forall i :: 0 <= i < Count(pkt) ==> GoodRecord(pkt.objects[i]))
  {
    hide Encode, Decode, FiniteVec64, FiniteVec32, VecInRange, GoodRecord;
    DecodeEncode(pkt);
    var ns := Norm(pkt).objects;
    RecordsErrorIff(ns);
    forall i | 0 <= i < Count(pkt)
      ensures GoodRecord(ns[i]) == GoodRecord(pkt.objects[i])
    {
      assert ns[i] == NormRecord(pkt.objects[i]);
      NormKeepsChecks(pkt.objects[i]);
    }
    assert (forall i :: 0 <= i < |ns| ==> GoodRecord(ns[i])) <==>
           (forall i :: 0 <= i < Count(pkt) ==> GoodRecord(pkt.objects[i]));
    hide NormRecords, RecordsError;
  }

  lemma NormKeepsChecks(r: ObjectRecord)
    ensures GoodRecord(NormRecord(r)) == GoodRecord(r)
  {
    hide FiniteVec64, FiniteVec32, VecInRange, Finite32;
  }

  lemma {:induction false} RecordsErrorIff(rs: seq<ObjectRecord>)
    ensures RecordsError(rs) == None <==> forall i :: 0 <= i < |rs| ==> GoodRecord(rs[i])
  {
    hide FiniteVec64, FiniteVec32, VecInRange, Finite32;
    if rs != [] {
      RecordsErrorIff(rs[1..]);
      assert forall i :: 1 <= i < |rs| ==> rs[1..][i - 1] == rs[i];
    }
  }

  /** A datagram damaged within four consecutive bytes is never accepted. */
  lemma {:induction false} BurstRejected(pkt: StatePacket, e: bytes, i: nat, k: nat)
    requires k <= 4 && Crc.DifferOnlyIn(Encode(pkt), e, i, k)
    ensures Decode(e).Err?
  {
    hide Crc.Framed, Crc.WithCrc, Body, Crc.DifferOnlyIn, Validate, ReadPacket, Field16;
    Crc.WithCrcIsFramed(Body(pkt));
    Crc.BurstDetected(Encode(pkt), e, i, k);
  }

  // ----- the reserved header field -----

  lemma {:induction false} SameRecord(d: bytes, e: bytes, q: nat)
    requires AlikeButReserved(d, e) && q >= 8 && q + RECORD_SIZE <= |d| - 4
    ensures ReadRecord(d, q) == ReadRecord(e, q)
  {
    hide Field, ReadVec64, ReadVec32, ClampConfidence;
    SameField(d, e, q, 4);
    SameVec64(d, e, q + 8);
    SameVec32(d, e, q + 32);
    SameField(d, e, q + 44, 4);
  }

  lemma {:induction false} SameRecords(d: bytes, e: bytes, n: nat)
    requires AlikeButReserved(d, e) && HEADER_SIZE + RECORD_SIZE * n <= |d| - 4
    ensures ReadRecords(d, n) == ReadRecords(e, n)
  {
    hide ReadRecord, AlikeButReserved;
    SameLength(d, e);
    if n > 0 {
      SameRecords(d, e, n - 1);
      SameRecord(d, e, HEADER_SIZE + RECORD_SIZE * (n - 1));
    }
  }

  /** The reserved header field is not looked at: datagrams that differ only in it and in the CRC decode alike,
      whatever it holds. */
  lemma {:induction false} ReservedIgnored(d: bytes, e: bytes)
    requires AlikeButReserved(d, e) && Crc.Framed(d) && Crc.Framed(e)
    ensures Decode(d) == Decode(e)
  {
    hide Crc.Framed, Field, ReadRecords, Validate, ReadVec64, ReadVec32;
    if |d| >= MIN_PACKET_SIZE {
      assert d[..4] == e[..4];
      SameField(d, e, 8, 4);
      SameField(d, e, 12, 4);
      SameField(d, e, 52, 2);
      SameField(d, e, 54, 2);
      SameVec64(d, e, 16);
      SameVec32(d, e, 40);
      var n := Field16(d, 52);
      if |d| == HEADER_SIZE + RECORD_SIZE * n + 4 {
        SameRecords(d, e, n);
      }
    }
  }

  /** A packet sent with any value in the reserved field is taken like one sent with zero. */
  lemma {:induction false} AnyFlagsAccepted(pkt: StatePacket, x: byte, y: byte)
    ensures Decode(Crc.WithCrc(Body(pkt)[6 := x][7 := y])) == Decode(Encode(pkt))
  {
    hide Crc.WithCrc, Crc.Framed, Decode, HeaderBytes, RecordsBytes;
    var s, t := Body(pkt), Body(pkt)[6 := x][7 := y];
    Crc.WithCrcIsFramed(s);
    Crc.WithCrcIsFramed(t);
    var d, e := Crc.WithCrc(t), Crc.WithCrc(s);
    assert forall i :: 0 <= i < |s| ==> d[i] == d[..|s|][i] && e[i] == e[..|s|][i];
    ReservedIgnored(d, e);
  }

  // ----- the code -----

  /** encode: the header, then the records one field after another, then the CRC of it all. */
  method EncodePacket(pkt: StatePacket) returns (out: bytes)
    ensures out == Encode(pkt)
  {
    hide LePut, Vec64Bytes, Vec32Bytes, Crc.Crc32;
    var count := if |pkt.objects| > MAX_OBJECTS_PER_PACKET then MAX_OBJECTS_PER_PACKET else |pkt.objects|;
    out := EncodeHeader(pkt, count);
    for i := 0 to count
      invariant out == HeaderBytes(pkt) + RecordsBytes(pkt.objects[..i])
    {
      out := EncodeRecord(out, pkt.objects[i]);
      assert pkt.objects[..i + 1][..i] == pkt.objects[..i];
      assert out == HeaderBytes(pkt) + (RecordsBytes(pkt.objects[..i]) + RecordBytes(pkt.objects[i]));
    }
    var crc := Crc.ComputeCrc32(out);
    out := Put(out, crc, 4);
  }

  method EncodeHeader(pkt: StatePacket, count: nat) returns (out: bytes)
    requires count == Count(pkt)
    ensures out == HeaderBytes(pkt)
  {
    hide LePut, Vec64Bytes, Vec32Bytes;
    out := MAGIC + [VERSION, STATE_UPDATE];
    out := Put(out, 0, 2);
    out := Put(out, pkt.sequence, 4);
    out := Put(out, pkt.satId, 4);
    out := PutVec64(out, pkt.satPos);
    out := PutVec32(out, pkt.satVel);
    out := Put(out, count, 2);
    out := Put(out, if pkt.objectTotal > MAX_TRACKED_OBJECTS then MAX_TRACKED_OBJECTS else pkt.objectTotal, 2);
  }

  method EncodeRecord(out: bytes, r: ObjectRecord) returns (out': bytes)
    ensures out' == out + RecordBytes(r)
  {
    hide LePut, Vec64Bytes, Vec32Bytes;
    out' := Put(out, r.id, 4);
    out' := out' + [r.kind];
    out' := out' + [r.flags];
    out' := out' + [ClampConfidence(r.confidence)];
    out' := out' + [0];
    assert out' == out + (LePut(r.id, 4) + [r.kind, r.flags, ClampConfidence(r.confidence), 0]);
    out' := PutVec64(out', r.pos);
    out' := PutVec32(out', r.vel);
    out' := Put(out', r.intensity, 4);
    assert out' == out + RecordBytes(r);
  }

  method DecodeRecord(d: bytes, q: nat) returns (r: ObjectRecord)
    requires q + RECORD_SIZE <= |d|
    ensures r == ReadRecord(d, q)
  {
    hide Field;
    CapacityValues();
    var id := Get(d, q, 4);
    var pos := GetVec64(d, q + 8);
    var vel := GetVec32(d, q + 32);
    var intensity := Get(d, q + 44, 4);
    r := ObjectRecord(id, NormalizeType(d[q + 4]), d[q + 5], ClampConfidence(d[q + 6]), pos, vel, intensity);
  }

  lemma {:induction false} FirstErrorDecides(good: seq<ObjectRecord>, bad: ObjectRecord, rest: seq<ObjectRecord>)
    requires RecordsError(good) == None && RecordError(bad).Some?
    ensures RecordsError(good + [bad] + rest) == RecordError(bad)
  {
    hide RecordError;
    if good == [] {
      assert ([bad] + rest)[0] == bad;
      assert good + [bad] + rest == [bad] + rest;
    } else {
      FirstErrorDecides(good[1..], bad, rest);
      assert (good + [bad] + rest)[1..] == good[1..] + [bad] + rest;
    }
  }

  lemma {:induction false} NoErrorAppend(good: seq<ObjectRecord>, r: ObjectRecord)
    requires RecordsError(good) == None && RecordError(r) == None
    ensures RecordsError(good + [r]) == None
  {
    hide RecordError;
    if good != [] {
      NoErrorAppend(good[1..], r);
      assert (good + [r])[1..] == good[1..] + [r];
    }
  }

  lemma {:induction false} ReadRecordsPrefix(d: bytes, m: nat, n: nat)
    requires m < n && HEADER_SIZE + RECORD_SIZE * n <= |d|
    ensures ReadRecords(d, n)[..m] == ReadRecords(d, m)
    ensures ReadRecords(d, n)[m] == ReadRecord(d, HEADER_SIZE + RECORD_SIZE * m)
  {
    hide ReadRecord;
    if m < n - 1 {
      ReadRecordsPrefix(d, m, n - 1);
    }
  }

  /** decode: all structural checks, then the satellite, then the record loop; a packet only on success. */
  method DecodePacket(d: bytes) returns (r: Result<StatePacket, DecodeError>)
    ensures r == Decode(d)
  {
    hide Field, Crc.Crc32, ReadPacket, Validate;
    if |d| < MIN_PACKET_SIZE { return Err(TooShort); }
    if |d| > MAX_PACKET_SIZE { return Err(TooLong); }
    if d[..4] != MAGIC { return Err(BadMagic); }
    if d[4] != VERSION { return Err(BadVersion); }
    if d[5] != STATE_UPDATE { return Err(BadMsgType); }
    var count := Get(d, 52, 2);
    var total := Get(d, 54, 2);
    if count > MAX_OBJECTS_PER_PACKET || total > MAX_TRACKED_OBJECTS || count > total {
      return Err(TooManyObjects);
    }
    if |d| != HEADER_SIZE + RECORD_SIZE * count + 4 { return Err(BadLength); }
    var wireCrc := Get(d, |d| - 4, 4);
    var crc := Crc.ComputeCrc32(d[..|d| - 4]);
    if crc != wireCrc { return Err(BadCrc); }
    r := DecodeBody(d, count);
  }

  method DecodeBody(d: bytes, count: nat) returns (r: Result<StatePacket, DecodeError>)
    requires HEADER_SIZE + RECORD_SIZE * count <= |d|
    ensures r == Validate(ReadPacket(d, count))
  {
    hide Field, ReadRecord, RecordError;
    CapacityValues();
    var sequence := Get(d, 8, 4);
    var satId := Get(d, 12, 4);
    var satPos := GetVec64(d, 16);
    var satVel := GetVec32(d, 40);
    var total := Get(d, 54, 2);
    var pkt := StatePacket(sequence, satId, satPos, satVel, total, []);
    var bad := SatelliteError(pkt);
    if bad.Some? { return Err(bad.value); }
    for i := 0 to count
      invariant pkt == StatePacket(sequence, satId, satPos, satVel, total, ReadRecords(d, i))
      invariant RecordsError(pkt.objects) == None
    {
      var rec := DecodeRecord(d, HEADER_SIZE + RECORD_SIZE * i);
      var e := RecordError(rec);
      if e.Some? {
        ghost var all := ReadRecords(d, count);
        ReadRecordsPrefix(d, i, count);
        assert all == all[..i] + [all[i]] + all[i + 1..];
        FirstErrorDecides(pkt.objects, rec, all[i + 1..]);
        return Err(e.value);
      }
      NoErrorAppend(pkt.objects, rec);
      pkt := pkt.(objects := pkt.objects + [rec]);
    }
    r := Ok(pkt);
  }
}
