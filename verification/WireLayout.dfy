/** The documented layouts of the two binary datagrams, field by field at their offsets. */
module WireLayout {
  import opened ByteNumbers
  import opened Bytes
  import opened Floats
  import opened Records
  import Crc
  import Olv1Codec
  import Olv2Codec

  // ----- fields of parts -----

  /** A field of a part is the same field of the whole. */
  lemma {:induction false} PartField(d: bytes, q: nat, part: bytes, off: nat, n: nat)
    requires q + |part| <= |d| && d[q..q + |part|] == part && off + n <= |part|
    ensures Field(d, q + off, n) == Field(part, off, n)
  {
    var a, b := d[q + off..q + off + n], part[off..off + n];
    forall k | 0 <= k < n
      ensures a[k] == b[k]
    {
      assert d[q..q + |part|][off + k] == d[q + off + k];
    }
    assert a == b;
  }

  lemma {:induction false} PartByte(d: bytes, q: nat, part: bytes, off: nat)
    requires q + |part| <= |d| && d[q..q + |part|] == part && off < |part|
    ensures d[q + off] == part[off]
  {
    assert d[q..q + |part|][off] == d[q + off];
  }

  predicate Doubles(d: bytes, q: nat, v: Vec64) {
    q + 24 <= |d| && Field(d, q, 8) == v.x && Field(d, q + 8, 8) == v.y && Field(d, q + 16, 8) == v.z
  }

  predicate Floats3(d: bytes, q: nat, v: Vec32) {
    q + 12 <= |d| && Field(d, q, 4) == v.x && Field(d, q + 4, 4) == v.y && Field(d, q + 8, 4) == v.z
  }

  lemma {:induction false} DoublesAt(pre: bytes, v: Vec64, post: bytes)
    ensures Doubles(pre + Vec64Bytes(v) + post, |pre|, v)
  {
    hide Field;
    ReadBackVec64(pre, v, post);
  }

  lemma {:induction false} FloatsAt(pre: bytes, v: Vec32, post: bytes)
    ensures Floats3(pre + Vec32Bytes(v) + post, |pre|, v)
  {
    hide Field;
    ReadBackVec32(pre, v, post);
  }

  function Least(a: nat, b: nat): nat {
    if a < b then a else b
  }

  // ----- OLV1 -----

  /** One record of 48 bytes from `q`. */
  predicate Olv1Record(d: bytes, q: nat, r: ObjectRecord) {
    && q + 48 <= |d| && Field(d, q, 4) == r.id && d[q + 4] == r.kind && d[q + 5] == r.flags
    && d[q + 6] as int == Least(r.confidence as int, 100) && d[q + 7] == 0
    && Doubles(d, q + 8, r.pos) && Floats3(d, q + 32, r.vel) && Field(d, q + 44, 4) == r.intensity
  }

  lemma {:induction false} RecordLayout(r: ObjectRecord)
    ensures Olv1Record(Olv1Codec.RecordBytes(r), 0, r)
  {
    hide LePut, Vec64Bytes, Vec32Bytes, Field, Doubles, Floats3;
    CapacityValues();
    var b := Olv1Codec.RecordBytes(r);
    var meta := [r.kind, r.flags, ClampConfidence(r.confidence), 0];
    var id, pos, vel, intensity := LePut(r.id, 4), Vec64Bytes(r.pos), Vec32Bytes(r.vel), LePut(r.intensity, 4);
    assert b == [] + id + (meta + pos + vel + intensity);
    FieldInContext([], r.id, 4, meta + pos + vel + intensity);
    assert b == (id + meta) + pos + (vel + intensity);
    DoublesAt(id + meta, r.pos, vel + intensity);
    assert b == (id + meta + pos) + vel + intensity;
    FloatsAt(id + meta + pos, r.vel, intensity);
    assert b == (id + meta + pos + vel) + intensity + [];
    FieldInContext(id + meta + pos + vel, r.intensity, 4, []);
    assert b[4..8] == meta;
    assert b[4] == b[4..8][0] && b[5] == b[4..8][1] && b[6] == b[4..8][2] && b[7] == b[4..8][3];
    ConfidenceAtMost100(r.confidence);
  }

  lemma ConfidenceAtMost100(c: byte)
    ensures ClampConfidence(c) as int == Least(c as int, 100)
  {
  }

  /** Vectors of a part are vectors of the whole. */
  lemma {:induction false} PartDoubles(d: bytes, q: nat, part: bytes, off: nat, v: Vec64)
    requires q + |part| <= |d| && d[q..q + |part|] == part && Doubles(part, off, v)
    ensures Doubles(d, q + off, v)
  {
    hide Field;
    PartField(d, q, part, off, 8);
    PartField(d, q, part, off + 8, 8);
    PartField(d, q, part, off + 16, 8);
  }

  lemma {:induction false} PartFloats(d: bytes, q: nat, part: bytes, off: nat, v: Vec32)
    requires q + |part| <= |d| && d[q..q + |part|] == part && Floats3(part, off, v)
    ensures Floats3(d, q + off, v)
  {
    hide Field;
    PartField(d, q, part, off, 4);
    PartField(d, q, part, off + 4, 4);
    PartField(d, q, part, off + 8, 4);
  }

  lemma {:induction false} PartRecord(d: bytes, q: nat, part: bytes, r: ObjectRecord)
    requires |part| == 48 && q + 48 <= |d| && d[q..q + 48] == part && Olv1Record(part, 0, r)
    ensures Olv1Record(d, q, r)
  {
    hide Field, Doubles, Floats3;
    PartField(d, q, part, 0, 4);
    PartByte(d, q, part, 4);
    PartByte(d, q, part, 5);
    PartByte(d, q, part, 6);
    PartByte(d, q, part, 7);
    PartDoubles(d, q, part, 8, r.pos);
    PartFloats(d, q, part, 32, r.vel);
    PartField(d, q, part, 44, 4);
  }

  lemma {:induction false} PartOfRecords(rs: seq<ObjectRecord>, k: nat)
    requires k < |rs|
    ensures Olv1Codec.RecordsBytes(rs)[48 * k..48 * k + 48] == Olv1Codec.RecordBytes(rs[k])
  {
    hide Olv1Codec.RecordBytes;
    var n := |rs| - 1;
    var front := Olv1Codec.RecordsBytes(rs[..n]);
    assert |front| == 48 * n;
    if k < n {
      PartOfRecords(rs[..n], k);
      assert Olv1Codec.RecordsBytes(rs)[48 * k..48 * k + 48] == front[48 * k..48 * k + 48];
    }
  }

  /** The header of 56 bytes. */
  predicate Olv1Header(d: bytes, pkt: StatePacket) {
    && |d| >= 56 && d[..4] == [0x4F, 0x4C, 0x56, 0x31] && d[4] == 1 && d[5] == 1 && d[6] == 0 && d[7] == 0
    && Field(d, 8, 4) == pkt.sequence && Field(d, 12, 4) == pkt.satId
    && Doubles(d, 16, pkt.satPos) && Floats3(d, 40, pkt.satVel)
    && Field(d, 52, 2) == Least(|pkt.objects|, 128) && Field(d, 54, 2) == Least(pkt.objectTotal, 5000)
  }

  lemma {:induction false} Olv1HeaderLayout(pkt: StatePacket, post: bytes)
    ensures Olv1Header(Olv1Codec.HeaderBytes(pkt) + post, pkt)
  {
    hide LePut, Vec64Bytes, Vec32Bytes, Field, Doubles, Floats3;
    CapacityValues();
    var d := Olv1Codec.HeaderBytes(pkt) + post;
    var start: bytes := [0x4F, 0x4C, 0x56, 0x31, 1, 1] + LePut(0, 2);
    var a, b, p, v := LePut(pkt.sequence, 4), LePut(pkt.satId, 4), Vec64Bytes(pkt.satPos), Vec32Bytes(pkt.satVel);
    var c, t := LePut(Olv1Codec.Count(pkt), 2), LePut(Olv1Codec.ClampTotal(pkt.objectTotal), 2);
    ZeroBytes();
    assert d == start + a + (b + p + v + c + t + post);
    FieldInContext(start, pkt.sequence, 4, b + p + v + c + t + post);
    assert d == (start + a) + b + (p + v + c + t + post);
    FieldInContext(start + a, pkt.satId, 4, p + v + c + t + post);
    assert d == (start + a + b) + p + (v + c + t + post);
    DoublesAt(start + a + b, pkt.satPos, v + c + t + post);
    assert d == (start + a + b + p) + v + (c + t + post);
    FloatsAt(start + a + b + p, pkt.satVel, c + t + post);
    assert d == (start + a + b + p + v) + c + (t + post);
    FieldInContext(start + a + b + p + v, Olv1Codec.Count(pkt), 2, t + post);
    assert d == (start + a + b + p + v + c) + t + post;
    FieldInContext(start + a + b + p + v + c, Olv1Codec.ClampTotal(pkt.objectTotal), 2, post);
    assert d[..8] == start;
    assert d[4] == d[..8][4] && d[5] == d[..8][5] && d[6] == d[..8][6] && d[7] == d[..8][7];
    assert d[..4] == start[..4];
  }

  lemma {:induction false} ZeroBytes()
    ensures LePut(0, 2) == [0, 0]
  {
    assert LePut(0, 2) == [0] + LePut(0, 1) && LePut(0, 1) == [0] + LePut(0, 0);
  }

  /** An encoded OLV1 packet, byte by byte as documented. */
  ghost predicate Olv1Datagram(d: bytes, pkt: StatePacket) {
    var n := Least(|pkt.objects|, 128);
    && |d| == 60 + 48 * n && Olv1Header(d, pkt)
    && (forall k :: 0 <= k < n ==> Olv1Record(d, 56 + 48 * k, pkt.objects[k]))
    && Field(d, 56 + 48 * n, 4) == Crc.Crc32(d[..56 + 48 * n])
  }

  lemma {:induction false} Olv1Layout(pkt: StatePacket)
    ensures Olv1Datagram(Olv1Codec.Encode(pkt), pkt)
  {
    hide Olv1Codec.HeaderBytes, Olv1Codec.RecordsBytes, Olv1Codec.RecordBytes, Crc.Crc32, Field, Olv1Record, Olv1Header;
    hide LePut;
    var d, n := Olv1Codec.Encode(pkt), Olv1Codec.Count(pkt);
    var rs, h := pkt.objects[..n], Olv1Codec.HeaderBytes(pkt);
    var body, trailer := Olv1Codec.Body(pkt), LePut(Crc.Crc32(Olv1Codec.Body(pkt)), 4);
    assert d == body + trailer + [];
    CapacityValues();
    FieldInContext(body, Crc.Crc32(body), 4, []);
    assert d[..|body|] == body;
    assert d == h + (Olv1Codec.RecordsBytes(rs) + trailer);
    Olv1HeaderLayout(pkt, Olv1Codec.RecordsBytes(rs) + trailer);
    forall k | 0 <= k < n
      ensures Olv1Record(d, 56 + 48 * k, pkt.objects[k])
    {
      PartOfRecords(rs, k);
      RecordLayout(rs[k]);
      assert d[56 + 48 * k..56 + 48 * k + 48] == Olv1Codec.RecordsBytes(rs)[48 * k..48 * k + 48];
      PartRecord(d, 56 + 48 * k, Olv1Codec.RecordBytes(rs[k]), rs[k]);
    }
  }

  // ----- OLV2 -----

  /** One point of 84 bytes from `q`. */
  predicate Olv2Point(d: bytes, q: nat, p: Olv2Codec.Point) {
    && q + 84 <= |d| && Field(d, q, 8) == p.t && d[q + 8] == p.flags & 3 && d[q + 9] == 0 && d[q + 10] == 0
    && d[q + 11] == 0 && Doubles(d, q + 12, p.satPos) && Doubles(d, q + 36, p.tgtPos)
    && Floats3(d, q + 60, p.satVel) && Floats3(d, q + 72, p.tgtVel)
  }

  lemma {:induction false} PointLayout(p: Olv2Codec.Point)
    ensures Olv2Point(Olv2Codec.PointBytes(p), 0, p)
  {
    hide LePut, Vec64Bytes, Vec32Bytes, Field, Doubles, Floats3;
    CapacityValues();
    var d := Olv2Codec.PointBytes(p);
    var flags: bytes := [p.flags & 3, 0, 0, 0];
    var t, sp, tp, sv, tv := LePut(p.t, 8), Vec64Bytes(p.satPos), Vec64Bytes(p.tgtPos), Vec32Bytes(p.satVel),
      Vec32Bytes(p.tgtVel);
    FlagMask(p.flags);
    assert d == [] + t + (flags + sp + tp + sv + tv);
    FieldInContext([], p.t, 8, flags + sp + tp + sv + tv);
    assert d == (t + flags) + sp + (tp + sv + tv);
    DoublesAt(t + flags, p.satPos, tp + sv + tv);
    assert d == (t + flags + sp) + tp + (sv + tv);
    DoublesAt(t + flags + sp, p.tgtPos, sv + tv);
    assert d == (t + flags + sp + tp) + sv + tv;
    FloatsAt(t + flags + sp + tp, p.satVel, tv);
    assert d == (t + flags + sp + tp + sv) + tv + [];
    FloatsAt(t + flags + sp + tp + sv, p.tgtVel, []);
    assert d[8..12] == flags;
    assert d[8] == d[8..12][0] && d[9] == d[8..12][1] && d[10] == d[8..12][2] && d[11] == d[8..12][3];
  }

  lemma FlagMask(f: byte)
    ensures f & (Olv2Codec.SAT_HAS_VEL | Olv2Codec.TGT_HAS_VEL) == f & 3
  {
  }

  lemma {:induction false} PartPoint(d: bytes, q: nat, part: bytes, p: Olv2Codec.Point)
    requires |part| == 84 && q + 84 <= |d| && d[q..q + 84] == part && Olv2Point(part, 0, p)
    ensures Olv2Point(d, q, p)
  {
    hide Field, Doubles, Floats3;
    PartField(d, q, part, 0, 8);
    PartByte(d, q, part, 8);
    PartByte(d, q, part, 9);
    PartByte(d, q, part, 10);
    PartByte(d, q, part, 11);
    PartDoubles(d, q, part, 12, p.satPos);
    PartDoubles(d, q, part, 36, p.tgtPos);
    PartFloats(d, q, part, 60, p.satVel);
    PartFloats(d, q, part, 72, p.tgtVel);
  }

  lemma {:induction false} PartOfPoints(ps: seq<Olv2Codec.Point>, k: nat)
    requires k < |ps|
    ensures Olv2Codec.PointsBytes(ps)[84 * k..84 * k + 84] == Olv2Codec.PointBytes(ps[k])
  {
    hide Olv2Codec.PointBytes;
    var n := |ps| - 1;
    var front := Olv2Codec.PointsBytes(ps[..n]);
    assert |front| == 84 * n;
    if k < n {
      PartOfPoints(ps[..n], k);
      assert Olv2Codec.PointsBytes(ps)[84 * k..84 * k + 84] == front[84 * k..84 * k + 84];
    }
  }

  /** The header of 24 bytes. */
  predicate Olv2Header(d: bytes, pkt: Olv2Codec.TrackPacket) {
    && |d| >= 24 && d[..4] == [0x4F, 0x4C, 0x56, 0x32] && d[4] == 1 && d[5] == 1 && d[6] == 0 && d[7] == 0
    && Field(d, 8, 4) == pkt.sequence && Field(d, 12, 4) == pkt.trackId && Field(d, 16, 4) == pkt.satId
    && d[20] == pkt.targetType && d[21] == pkt.targetFlags & 2
    && d[22] as int == Least(pkt.confidence as int, 100) && d[23] as int == Least(|pkt.points|, 25)
  }

  lemma {:induction false} Olv2HeaderLayout(pkt: Olv2Codec.TrackPacket, post: bytes)
    ensures Olv2Header(Olv2Codec.HeaderBytes(pkt) + post, pkt)
  {
    hide LePut, Field;
    CapacityValues();
    var d := Olv2Codec.HeaderBytes(pkt) + post;
    var start: bytes := [0x4F, 0x4C, 0x56, 0x32, 1, 1] + LePut(0, 2);
    var a, b, c := LePut(pkt.sequence, 4), LePut(pkt.trackId, 4), LePut(pkt.satId, 4);
    var t := Olv2Codec.TargetBytes(pkt);
    ZeroBytes();
    ByteOfInt(Olv2Codec.Count(pkt));
    ConfidenceAtMost100(pkt.confidence);
    assert d == start + a + (b + c + t + post);
    FieldInContext(start, pkt.sequence, 4, b + c + t + post);
    assert d == (start + a) + b + (c + t + post);
    FieldInContext(start + a, pkt.trackId, 4, c + t + post);
    assert d == (start + a + b) + c + (t + post);
    FieldInContext(start + a + b, pkt.satId, 4, t + post);
    assert d[..8] == start && d[20..24] == t;
    assert d[4] == d[..8][4] && d[5] == d[..8][5] && d[6] == d[..8][6] && d[7] == d[..8][7];
    assert d[20] == d[20..24][0] && d[21] == d[20..24][1] && d[22] == d[20..24][2] && d[23] == d[20..24][3];
    assert d[..4] == start[..4];
  }

  /** An encoded OLV2 packet, byte by byte as documented. */
  ghost predicate Olv2Datagram(d: bytes, pkt: Olv2Codec.TrackPacket) {
    var n := Least(|pkt.points|, 25);
    && |d| == 28 + 84 * n && Olv2Header(d, pkt)
    && (forall k :: 0 <= k < n ==> Olv2Point(d, 24 + 84 * k, pkt.points[k]))
    && Field(d, 24 + 84 * n, 4) == Crc.Crc32(d[..24 + 84 * n])
  }

  lemma {:induction false} Olv2Layout(pkt: Olv2Codec.TrackPacket)
    ensures Olv2Datagram(Olv2Codec.Encode(pkt), pkt)
  {
    hide Olv2Codec.HeaderBytes, Olv2Codec.PointsBytes, Olv2Codec.PointBytes, Crc.Crc32, Field, Olv2Point, Olv2Header;
    hide LePut;
    var d, n := Olv2Codec.Encode(pkt), Olv2Codec.Count(pkt);
    var ps, h := pkt.points[..n], Olv2Codec.HeaderBytes(pkt);
    var body, trailer := Olv2Codec.Body(pkt), LePut(Crc.Crc32(Olv2Codec.Body(pkt)), 4);
    assert d == body + trailer + [];
    CapacityValues();
    FieldInContext(body, Crc.Crc32(body), 4, []);
    assert d[..|body|] == body;
    assert d == h + (Olv2Codec.PointsBytes(ps) + trailer);
    Olv2HeaderLayout(pkt, Olv2Codec.PointsBytes(ps) + trailer);
    forall k | 0 <= k < n
      ensures Olv2Point(d, 24 + 84 * k, pkt.points[k])
    {
      PartOfPoints(ps, k);
      PointLayout(ps[k]);
      assert d[24 + 84 * k..24 + 84 * k + 84] == Olv2Codec.PointsBytes(ps)[84 * k..84 * k + 84];
      PartPoint(d, 24 + 84 * k, Olv2Codec.PointBytes(ps[k]), ps[k]);
    }
  }

  // ----- what a receiver may rely on -----

  /** Whatever OLV1 datagram is accepted: at most 128 objects of at most 5000, known types, confidence at most 100. */
  lemma {:induction false} Olv1Limits(d: bytes)
    requires Olv1Codec.Decode(d).Ok?
    ensures var p := Olv1Codec.Decode(d).value;
      && |p.objects| <= 128 && |p.objects| <= p.objectTotal <= 5000
      && forall i :: 0 <= i < |p.objects| ==> p.objects[i].kind <= 5 && p.objects[i].confidence <= 100
  {
    hide Olv1Codec.Decode, Olv1Codec.Validate;
    Olv1Codec.DecodedIsNormal(d);
    var p := Olv1Codec.Decode(d).value;
    forall i | 0 <= i < |p.objects|
      ensures p.objects[i].kind <= 5 && p.objects[i].confidence <= 100
    {
      assert Olv1Codec.Norm(p).objects[i] == Olv1Codec.NormRecord(p.objects[i]);
    }
    CountWithinTotal(d);
  }

  lemma {:induction false} CountWithinTotal(d: bytes)
    requires Olv1Codec.Decode(d).Ok?
    ensures var p := Olv1Codec.Decode(d).value; |p.objects| <= p.objectTotal
  {
    hide Olv1Codec.Validate, Field16, Crc.Framed, Field32, ReadVec64, ReadVec32, Olv1Codec.ReadRecord;
    ValidKeeps(Olv1Codec.ReadPacket(d, Field16(d, 52)));
  }

  lemma ValidKeeps(p: StatePacket)
    ensures Olv1Codec.Validate(p).Ok? ==> Olv1Codec.Validate(p).value == p
  {
    hide Olv1Codec.SatelliteError, Olv1Codec.RecordsError;
  }

  /** Whatever OLV2 datagram is accepted: one to 25 points, a known type, confidence at most 100. */
  lemma {:induction false} Olv2Limits(d: bytes)
    requires Olv2Codec.Decode(d).Ok?
    ensures var p := Olv2Codec.Decode(d).value;
      1 <= |p.points| <= 25 && p.targetType <= 5 && p.confidence <= 100 && (p.targetFlags == 0 || p.targetFlags == 2)
  {
    hide Olv2Codec.Decode, Olv2Codec.Validate, Olv2Codec.NormPoints;
    Olv2Codec.DecodedIsNormal(d);
    HighlightOnly(Olv2Codec.Decode(d).value.targetFlags);
  }

  lemma HighlightOnly(f: byte)
    ensures f & FLAG_HIGHLIGHT == 0 || f & FLAG_HIGHLIGHT == 2
  {
  }

  // ----- exactly what a receiver accepts, and what it says of the rest -----

  /** The verdict on an OLV1 datagram by the documented rules, in their order. */
  ghost predicate Olv1Verdict(d: bytes, v: Result<StatePacket, Olv1Codec.DecodeError>) {
    if |d| < 60 then v == Err(Olv1Codec.TooShort)
    else if |d| > 6204 then v == Err(Olv1Codec.TooLong)
    else if d[..4] != [0x4F, 0x4C, 0x56, 0x31] then v == Err(Olv1Codec.BadMagic)
    else if d[4] != 1 then v == Err(Olv1Codec.BadVersion)
    else if d[5] != 1 then v == Err(Olv1Codec.BadMsgType)
    else if Field(d, 52, 2) > 128 || Field(d, 54, 2) > 5000 || Field(d, 52, 2) > Field(d, 54, 2)
      then v == Err(Olv1Codec.TooManyObjects)
    else if |d| != 60 + 48 * Field(d, 52, 2) then v == Err(Olv1Codec.BadLength)
    else if Field(d, |d| - 4, 4) != Crc.Crc32(d[..|d| - 4]) then v == Err(Olv1Codec.BadCrc)
    else Olv1Values(Olv1Codec.ReadPacket(d, Field(d, 52, 2)), v)
  }

  /** The satellite's values first, then the records' in order: finite, then in range. */
  ghost predicate Olv1Values(p: StatePacket, v: Result<StatePacket, Olv1Codec.DecodeError>) {
    if !FiniteVec64(p.satPos) || !FiniteVec32(p.satVel) then v == Err(Olv1Codec.NonFinite)
    else if !VecInRange(p.satPos) then v == Err(Olv1Codec.OutOfRange)
    else if forall i :: 0 <= i < |p.objects| ==> GoodRecord(p.objects[i]) then v == Ok(p)
    else exists i :: 0 <= i < |p.objects| && FirstBad(p.objects, i)
                     && v == Err(if FiniteRecord(p.objects[i]) then Olv1Codec.OutOfRange else Olv1Codec.NonFinite)
  }

  predicate FiniteRecord(r: ObjectRecord) {
    FiniteVec64(r.pos) && FiniteVec32(r.vel) && Finite32(r.intensity)
  }

  predicate GoodRecord(r: ObjectRecord) {
    FiniteRecord(r) && VecInRange(r.pos)
  }

  ghost predicate FirstBad(rs: seq<ObjectRecord>, i: int) {
    && 0 <= i < |rs| && !GoodRecord(rs[i]) && forall k :: 0 <= k < i ==> GoodRecord(rs[k])
  }

  lemma {:induction false} RecordsVerdict(rs: seq<ObjectRecord>)
    ensures match Olv1Codec.RecordsError(rs)
      case None => forall i :: 0 <= i < |rs| ==> GoodRecord(rs[i])
      case Some(e) => exists i :: 0 <= i < |rs| && FirstBad(rs, i)
                                  && e == if FiniteRecord(rs[i]) then Olv1Codec.OutOfRange else Olv1Codec.NonFinite
  {
    hide FiniteVec64, FiniteVec32, Finite32, VecInRange;
    if rs != [] {
      if Olv1Codec.RecordError(rs[0]).Some? {
        assert FirstBad(rs, 0);
      } else {
        RecordsVerdict(rs[1..]);
        assert forall k :: 1 <= k < |rs| ==> rs[1..][k - 1] == rs[k];
        if Olv1Codec.RecordsError(rs[1..]).Some? {
          var i :| 0 <= i < |rs| - 1 && FirstBad(rs[1..], i) && Olv1Codec.RecordsError(rs[1..]).value
            == if FiniteRecord(rs[1..][i]) then Olv1Codec.OutOfRange else Olv1Codec.NonFinite;
          assert FirstBad(rs, i + 1);
        }
      }
    }
  }

  lemma {:induction false} ValuesJudged(p: StatePacket)
    ensures Olv1Values(p, Olv1Codec.Validate(p))
  {
    hide FiniteVec64, FiniteVec32, VecInRange, FiniteRecord, Olv1Codec.RecordsError;
    RecordsVerdict(p.objects);
  }

  /** An OLV1 receiver's verdict on any bytes is that of the rules. */
  lemma {:induction false} Olv1Judged(d: bytes)
    ensures Olv1Verdict(d, Olv1Codec.Decode(d))
  {
    hide Field, Crc.Crc32, Olv1Codec.ReadPacket, Olv1Codec.Validate, Olv1Values;
    if |d| >= 60 && 60 + 48 * Field(d, 52, 2) == |d| {
      ValuesJudged(Olv1Codec.ReadPacket(d, Field(d, 52, 2)));
    }
  }

  /** The verdict on an OLV2 datagram by the documented rules, in their order. */
  ghost predicate Olv2Verdict(d: bytes, v: Result<Olv2Codec.TrackPacket, Olv2Codec.DecodeError>) {
    if |d| < 112 then v == Err(Olv2Codec.TooShort)
    else if |d| > 2128 then v == Err(Olv2Codec.TooLong)
    else if d[..4] != [0x4F, 0x4C, 0x56, 0x32] then v == Err(Olv2Codec.BadMagic)
    else if d[4] != 1 then v == Err(Olv2Codec.BadVersion)
    else if d[5] != 1 then v == Err(Olv2Codec.BadMsgType)
    else if !(1 <= d[23] <= 25) then v == Err(Olv2Codec.BadPointCount)
    else if |d| != 28 + 84 * d[23] as int then v == Err(Olv2Codec.BadLength)
    else if Field(d, |d| - 4, 4) != Crc.Crc32(d[..|d| - 4]) then v == Err(Olv2Codec.BadCrc)
    else Olv2Values(Olv2Codec.ReadPacket(d, d[23] as int), v)
  }

  /** The values of the points in order, and only then the order of their times. */
  ghost predicate Olv2Values(p: Olv2Codec.TrackPacket, v: Result<Olv2Codec.TrackPacket, Olv2Codec.DecodeError>) {
    if exists i :: FirstBadPoint(p.points, i)
      then exists i :: FirstBadPoint(p.points, i)
                       && v == Err(if FinitePoint(p.points[i]) then Olv2Codec.OutOfRange else Olv2Codec.NonFinite)
    else if TimesForward(p.points) then v == Ok(p)
    else v == Err(Olv2Codec.BadTime)
  }

  predicate FinitePoint(p: Olv2Codec.Point) {
    Finite64(p.t) && FiniteVec64(p.satPos) && FiniteVec64(p.tgtPos) && FiniteVec32(p.satVel) && FiniteVec32(p.tgtVel)
  }

  predicate GoodPoint(p: Olv2Codec.Point) {
    FinitePoint(p) && VecInRange(p.satPos) && VecInRange(p.tgtPos)
  }

  ghost predicate FirstBadPoint(ps: seq<Olv2Codec.Point>, i: int) {
    0 <= i < |ps| && !GoodPoint(ps[i]) && forall k :: 0 <= k < i ==> GoodPoint(ps[k])
  }

  /** Every time is positive and every later one greater. */
  ghost predicate TimesForward(ps: seq<Olv2Codec.Point>) {
    && (forall i :: 0 <= i < |ps| ==> Key(ps[i].t) > 0)
    && forall i, j :: 0 <= i < j < |ps| ==> Key(ps[i].t) < Key(ps[j].t)
  }

  lemma {:induction false} PointsVerdict(ps: seq<Olv2Codec.Point>)
    ensures match Olv2Codec.PointsError(ps)
      case None => forall i :: !FirstBadPoint(ps, i)
      case Some(e) => exists i :: FirstBadPoint(ps, i)
                                  && e == if FinitePoint(ps[i]) then Olv2Codec.OutOfRange else Olv2Codec.NonFinite
  {
    hide FiniteVec64, FiniteVec32, Finite64, VecInRange;
    if ps != [] {
      if Olv2Codec.PointError(ps[0]).Some? {
        assert FirstBadPoint(ps, 0);
      } else {
        assert forall k :: 1 <= k < |ps| ==> ps[1..][k - 1] == ps[k];
        assert forall i :: FirstBadPoint(ps, i) ==> FirstBadPoint(ps[1..], i - 1);
        PointsVerdict(ps[1..]);
        if Olv2Codec.PointsError(ps[1..]).Some? {
          var i :| FirstBadPoint(ps[1..], i) && Olv2Codec.PointsError(ps[1..]).value
            == if FinitePoint(ps[1..][i]) then Olv2Codec.OutOfRange else Olv2Codec.NonFinite;
          assert ps[1..][i] == ps[i + 1];
          assert FirstBadPoint(ps, i + 1);
        }
      }
    }
  }

  lemma {:induction false} ForwardTimes(ps: seq<Olv2Codec.Point>, j: nat)
    requires Olv2Codec.TimesAscend(ps) && j < |ps|
    ensures forall i :: 0 <= i < j ==> Key(ps[i].t) < Key(ps[j].t)
  {
    hide Key;
    if j > 0 {
      ForwardTimes(ps, j - 1);
    }
  }

  lemma {:induction false} TimesAgree(ps: seq<Olv2Codec.Point>)
    ensures Olv2Codec.TimesAscend(ps) <==> TimesForward(ps)
  {
    hide Key;
    if Olv2Codec.TimesAscend(ps) {
      forall j | 0 <= j < |ps|
        ensures forall i :: 0 <= i < j ==> Key(ps[i].t) < Key(ps[j].t)
      {
        ForwardTimes(ps, j);
      }
    }
  }

  lemma {:induction false} PointValuesJudged(p: Olv2Codec.TrackPacket)
    ensures Olv2Values(p, Olv2Codec.Validate(p))
  {
    hide FinitePoint, FirstBadPoint, TimesForward, Olv2Codec.PointsError, Olv2Codec.TimesAscend;
    PointsVerdict(p.points);
    TimesAgree(p.points);
  }

  /** An OLV2 receiver's verdict on any bytes is that of the rules. */
  lemma {:induction false} Olv2Judged(d: bytes)
    ensures Olv2Verdict(d, Olv2Codec.Decode(d))
  {
    hide Field, Crc.Crc32, Olv2Codec.ReadPacket, Olv2Codec.Validate, Olv2Values;
    if |d| >= 112 && 28 + 84 * d[23] as int == |d| {
      PointValuesJudged(Olv2Codec.ReadPacket(d, d[23] as int));
    }
  }
}
