/** The OLV2 track datagram: encoder, decoder, round trips and damage detection. */
module Olv2Codec {
  import opened ByteNumbers
  import opened Bytes
  import opened Floats
  import opened Records
  import Crc

  const MAGIC: bytes := [0x4F, 0x4C, 0x56, 0x32]
  const VERSION: byte := 1
  const TRACK_UPDATE: byte := 1
  const HEADER_SIZE: nat := 24
  const POINT_SIZE: nat := 84
  const MAX_POINTS: nat := 25
  const MIN_PACKET_SIZE: nat := HEADER_SIZE + POINT_SIZE + 4
  const MAX_PACKET_SIZE: nat := HEADER_SIZE + MAX_POINTS * POINT_SIZE + 4
  const SAT_HAS_VEL: byte := 0x01
  const TGT_HAS_VEL: byte := 0x02

  datatype Point = Point(t: F64, flags: byte, satPos: Vec64, tgtPos: Vec64, satVel: Vec32, tgtVel: Vec32)

  datatype TrackPacket = TrackPacket(sequence: u32, trackId: u32, satId: u32, targetType: byte,
                                     targetFlags: byte, confidence: byte, points: seq<Point>)

  datatype DecodeError = TooShort | TooLong | BadMagic | BadVersion | BadMsgType | BadPointCount
    | BadLength | BadCrc | NonFinite | OutOfRange | BadTime

  // ----- what a packet turns into on the wire -----

  function Count(pkt: TrackPacket): (n: nat)
    ensures n <= MAX_POINTS && n <= |pkt.points|
  {
    if |pkt.points| > MAX_POINTS then MAX_POINTS else |pkt.points|
  }

  function HeaderStart(): (h: bytes)
    ensures |h| == 8 && h[..4] == MAGIC && h[4] == VERSION && h[5] == TRACK_UPDATE
  {
    MAGIC + [VERSION, TRACK_UPDATE] + LePut(0, 2)
  }

  function IdBytes(x: u32, y: u32, z: u32): (b: bytes)
    ensures |b| == 12
  {
    LePut(x, 4) + LePut(y, 4) + LePut(z, 4)
  }

  function TargetBytes(pkt: TrackPacket): (b: bytes)
    ensures |b| == 4
  {
    [pkt.targetType, pkt.targetFlags & FLAG_HIGHLIGHT, ClampConfidence(pkt.confidence), Count(pkt) as byte]
  }

  function HeaderBytes(pkt: TrackPacket): (h: bytes)
    ensures |h| == HEADER_SIZE
  {
    HeaderStart() + IdBytes(pkt.sequence, pkt.trackId, pkt.satId) + TargetBytes(pkt)
  }

  function PointBytes(p: Point): (b: bytes)
    ensures |b| == POINT_SIZE
  {
    LePut(p.t, 8) + [p.flags & (SAT_HAS_VEL | TGT_HAS_VEL), 0, 0, 0]
    + Vec64Bytes(p.satPos) + Vec64Bytes(p.tgtPos) + Vec32Bytes(p.satVel) + Vec32Bytes(p.tgtVel)
  }

  function PointsBytes(ps: seq<Point>): (b: bytes)
    ensures |b| == POINT_SIZE * |ps|
  {
    if ps == [] then [] else PointsBytes(ps[..|ps| - 1]) + PointBytes(ps[|ps| - 1])
  }

  function Body(pkt: TrackPacket): (b: bytes)
    ensures |b| == HEADER_SIZE + POINT_SIZE * Count(pkt)
  {
    HeaderBytes(pkt) + PointsBytes(pkt.points[..Count(pkt)])
  }

  function Encode(pkt: TrackPacket): (d: bytes)
    ensures |d| == HEADER_SIZE + POINT_SIZE * Count(pkt) + 4
  {
    Crc.WithCrc(Body(pkt))
  }

  // ----- what a receiver reads -----

  function ReadPoint(d: bytes, q: nat): Point
    requires q + POINT_SIZE <= |d|
  {
    Point(Field64(d, q), d[q + 8] & (SAT_HAS_VEL | TGT_HAS_VEL), ReadVec64(d, q + 12), ReadVec64(d, q + 36),
          ReadVec32(d, q + 60), ReadVec32(d, q + 72))
  }

  predicate FinitePoint(p: Point) {
    Finite64(p.t) && FiniteVec64(p.satPos) && FiniteVec64(p.tgtPos) && FiniteVec32(p.satVel) && FiniteVec32(p.tgtVel)
  }

  predicate PointInRange(p: Point) {
    VecInRange(p.satPos) && VecInRange(p.tgtPos)
  }

  /** Items 8 and 9 for one point. */
  function PointError(p: Point): Option<DecodeError> {
    if !FinitePoint(p) then Some(NonFinite) else if !PointInRange(p) then Some(OutOfRange) else None
  }

  /** Items 8 and 9 for every point: the first point that fails decides. */
  function PointsError(ps: seq<Point>): Option<DecodeError> {
    if ps == [] then None else
    var e := PointError(ps[0]);
    if e.Some? then e else PointsError(ps[1..])
  }

  /** Item 10: positive and strictly ascending sample times. */
  predicate TimesAscend(ps: seq<Point>) {
    forall i :: 0 <= i < |ps| ==> Key(ps[i].t) > 0 && (i > 0 ==> Key(ps[i - 1].t) < Key(ps[i].t))
  }

  function ReadPoints(d: bytes, n: nat): (ps: seq<Point>)
    requires HEADER_SIZE + POINT_SIZE * n <= |d|
    ensures |ps| == n
  {
    if n == 0 then [] else ReadPoints(d, n - 1) + [ReadPoint(d, HEADER_SIZE + POINT_SIZE * (n - 1))]
  }

  /** The checks on decoded values, in the order the decoder makes them. */
  function Validate(pkt: TrackPacket): Result<TrackPacket, DecodeError> {
    var e := PointsError(pkt.points);
    if e.Some? then Err(e.value) else
    if !TimesAscend(pkt.points) then Err(BadTime) else Ok(pkt)
  }

  function ReadPacket(d: bytes, count: nat): TrackPacket
    requires HEADER_SIZE + POINT_SIZE * count <= |d|
  {
    TrackPacket(Field32(d, 8), Field32(d, 12), Field32(d, 16), NormalizeType(d[20]), d[21] & FLAG_HIGHLIGHT,
                ClampConfidence(d[22]), ReadPoints(d, count))
  }

  function Decode(d: bytes): Result<TrackPacket, DecodeError> {
    if |d| < MIN_PACKET_SIZE then Err(TooShort)
    else if |d| > MAX_PACKET_SIZE then Err(TooLong)
    else if d[..4] != MAGIC then Err(BadMagic)
    else if d[4] != VERSION then Err(BadVersion)
    else if d[5] != TRACK_UPDATE then Err(BadMsgType)
    else
      var count := d[23] as int;
      if count == 0 || count > MAX_POINTS then Err(BadPointCount)
      else if |d| != HEADER_SIZE + POINT_SIZE * count + 4 then Err(BadLength)
      else if !Crc.Framed(d) then Err(BadCrc)
      else Validate(ReadPacket(d, count))
  }

  // ----- what survives encoding -----

  function NormPoint(p: Point): Point {
    p.(flags := p.flags & (SAT_HAS_VEL | TGT_HAS_VEL))
  }

  function NormPoints(ps: seq<Point>): (r: seq<Point>)
    ensures |r| == |ps| && forall i :: 0 <= i < |ps| ==> r[i] == NormPoint(ps[i])
  {
    seq(|ps|, i requires 0 <= i < |ps| => NormPoint(ps[i]))
  }

  /** The packet a receiver can hope for: at most 25 points, reserved bits gone, values clamped. */
  function Norm(pkt: TrackPacket): TrackPacket {
    TrackPacket(pkt.sequence, pkt.trackId, pkt.satId, NormalizeType(pkt.targetType),
                pkt.targetFlags & FLAG_HIGHLIGHT, ClampConfidence(pkt.confidence),
                NormPoints(pkt.points[..Count(pkt)]))
  }

  /** What decoding the encoding must give: the code reports an empty packet as too short. */
  function Expected(pkt: TrackPacket): Result<TrackPacket, DecodeError> {
    if pkt.points == [] then Err(TooShort) else Validate(Norm(pkt))
  }

  // ----- reading back what was written -----

  lemma MaskTwice(f: byte)
    ensures (f & (SAT_HAS_VEL | TGT_HAS_VEL)) & (SAT_HAS_VEL | TGT_HAS_VEL) == f & (SAT_HAS_VEL | TGT_HAS_VEL)
    ensures (f & FLAG_HIGHLIGHT) & FLAG_HIGHLIGHT == f & FLAG_HIGHLIGHT
  {
  }

  lemma {:induction false} ReadBackPoint(pre: bytes, p: Point, post: bytes)
    ensures ReadPoint(pre + PointBytes(p) + post, |pre|) == NormPoint(p)
  {
    hide LePut, Vec64Bytes, Vec32Bytes, ReadVec64, ReadVec32, Field;
    CapacityValues();
    var d := pre + PointBytes(p) + post;
    var flags := [p.flags & (SAT_HAS_VEL | TGT_HAS_VEL), 0, 0, 0];
    var t, sp, tp, sv, tv := LePut(p.t, 8), Vec64Bytes(p.satPos), Vec64Bytes(p.tgtPos),
      Vec32Bytes(p.satVel), Vec32Bytes(p.tgtVel);
    assert d == pre + t + (flags + sp + tp + sv + tv + post);
    FieldInContext(pre, p.t, 8, flags + sp + tp + sv + tv + post);
    assert d == (pre + t) + flags + (sp + tp + sv + tv + post);
    MaskTwice(p.flags);
    assert d == (pre + t + flags) + sp + (tp + sv + tv + post);
    ReadBackVec64(pre + t + flags, p.satPos, tp + sv + tv + post);
    assert d == (pre + t + flags + sp) + tp + (sv + tv + post);
    ReadBackVec64(pre + t + flags + sp, p.tgtPos, sv + tv + post);
    assert d == (pre + t + flags + sp + tp) + sv + (tv + post);
    ReadBackVec32(pre + t + flags + sp + tp, p.satVel, tv + post);
    assert d == (pre + t + flags + sp + tp + sv) + tv + post;
    ReadBackVec32(pre + t + flags + sp + tp + sv, p.tgtVel, post);
  }

  lemma {:induction false} ReadBackPoints(h: bytes, ps: seq<Point>, post: bytes)
    requires |h| == HEADER_SIZE
    ensures ReadPoints(h + PointsBytes(ps) + post, |ps|) == NormPoints(ps)
  {
    hide PointBytes, ReadPoint, NormPoint;
    if ps != [] {
      var n := |ps| - 1;
      var front, last := ps[..n], ps[n];
      assert h + PointsBytes(ps) + post == h + PointsBytes(front) + (PointBytes(last) + post);
      ReadBackPoints(h, front, PointBytes(last) + post);
      assert h + PointsBytes(ps) + post == (h + PointsBytes(front)) + PointBytes(last) + post;
      ReadBackPoint(h + PointsBytes(front), last, post);
    }
  }

  /** The header fields read back from an encoded packet. */
  lemma {:induction false} ReadBackHeader(pkt: TrackPacket, post: bytes)
    ensures var d := HeaderBytes(pkt) + post;
      && d[..4] == MAGIC && d[4] == VERSION && d[5] == TRACK_UPDATE
      && Field32(d, 8) == pkt.sequence && Field32(d, 12) == pkt.trackId && Field32(d, 16) == pkt.satId
      && d[20] == pkt.targetType && d[21] == pkt.targetFlags & FLAG_HIGHLIGHT
      && d[22] == ClampConfidence(pkt.confidence) && d[23] == Count(pkt) as byte
  {
    hide HeaderStart, IdBytes, Field32, ClampConfidence;
    var d := HeaderBytes(pkt) + post;
    var start, tail := HeaderStart(), TargetBytes(pkt);
    assert d == start + IdBytes(pkt.sequence, pkt.trackId, pkt.satId) + (tail + post);
    ReadBackIds(start, pkt.sequence, pkt.trackId, pkt.satId, tail + post);
    assert d[..4] == start[..4];
    assert d[20..24] == tail;
    assert d[20] == d[20..24][0] && d[21] == d[20..24][1] && d[22] == d[20..24][2] && d[23] == d[20..24][3];
  }

  lemma {:induction false} ReadBackIds(start: bytes, x: u32, y: u32, z: u32, post: bytes)
    ensures var d := start + IdBytes(x, y, z) + post;
      Field32(d, |start|) == x && Field32(d, |start| + 4) == y && Field32(d, |start| + 8) == z
  {
    hide LePut, Field;
    CapacityValues();
    var a, b, c := LePut(x, 4), LePut(y, 4), LePut(z, 4);
    var d := start + IdBytes(x, y, z) + post;
    assert d == start + a + (b + c + post);
    FieldInContext(start, x, 4, b + c + post);
    assert d == (start + a) + b + (c + post);
    FieldInContext(start + a, y, 4, c + post);
    assert d == (start + a + b) + c + post;
    FieldInContext(start + a + b, z, 4, post);
  }

  /** Decoding an encoding gives exactly the normal form, or exactly the first rule it breaks. */
  lemma {:induction false} DecodeEncode(pkt: TrackPacket)
    ensures Decode(Encode(pkt)) == Expected(pkt)
  {
    hide HeaderBytes, PointsBytes, Crc.Framed, Crc.WithCrc, Field32, NormPoints, Validate, ReadPoints;
    var n := Count(pkt);
    var ps := pkt.points[..n];
    var d := Encode(pkt);
    Crc.WithCrcIsFramed(Body(pkt));
    var trailer := d[|Body(pkt)|..];
    assert d == HeaderBytes(pkt) + (PointsBytes(ps) + trailer) by {
      assert d == d[..|Body(pkt)|] + trailer;
    }
    ReadBackHeader(pkt, PointsBytes(ps) + trailer);
    assert d == HeaderBytes(pkt) + PointsBytes(ps) + trailer;
    ReadBackPoints(HeaderBytes(pkt), ps, trailer);
    ByteOfInt(n);
    MaskTwice(pkt.targetFlags);
    if pkt.points != [] {
      assert Decode(d) == Validate(ReadPacket(d, n));
      assert ReadPacket(d, n) == Norm(pkt);
    }
  }

  /** Everything the decoder accepts is within every documented limit and already in normal form. */
  lemma {:induction false} DecodedIsNormal(d: bytes)
    requires Decode(d).Ok?
    ensures var p := Decode(d).value;
      && Norm(p) == p && Validate(p) == Ok(p) && 1 <= |p.points| <= MAX_POINTS
      && |d| == HEADER_SIZE + POINT_SIZE * |p.points| + 4
  {
    hide Crc.Framed, Field32, Field64, ReadVec64, ReadVec32;
    var p, n := Decode(d).value, d[23] as int;
    assert p == ReadPacket(d, n);
    MaskTwice(d[21]);
    ReadPointsNormal(d, n);
    assert p.points[..n] == p.points;
  }

  lemma {:induction false} ReadPointsNormal(d: bytes, n: nat)
    requires HEADER_SIZE + POINT_SIZE * n <= |d|
    ensures NormPoints(ReadPoints(d, n)) == ReadPoints(d, n)
  {
    hide Field32, Field64, ReadVec64, ReadVec32;
    if n != 0 {
      ReadPointsNormal(d, n - 1);
      MaskTwice(d[HEADER_SIZE + POINT_SIZE * (n - 1) + 8]);
    }
  }

  /** Re-encoding an accepted datagram and decoding again changes nothing. */
  lemma {:induction false} DecodeEncodeDecode(d: bytes)
    requires Decode(d).Ok?
    ensures Decode(Encode(Decode(d).value)) == Decode(d)
  {
    hide Encode, Decode, Validate, Norm;
    DecodedIsNormal(d);
    DecodeEncode(Decode(d).value);
  }

  /** A packet survives the wire exactly when it has points that are finite, in range and in time order. */
  lemma {:induction false} SurvivesIff(pkt: TrackPacket)
    ensures Decode(Encode(pkt)) == Ok(Norm(pkt)) <==>
      && pkt.points != []
      && (forall i :: 0 <= i < Count(pkt) ==> FinitePoint(pkt.points[i]) && PointInRange(pkt.points[i]))
      && TimesAscend(pkt.points[..Count(pkt)])
  {
    hide Encode, Decode, FinitePoint, PointInRange;
    DecodeEncode(pkt);
    var ps, ns := pkt.points[..Count(pkt)], Norm(pkt).points;
    PointsErrorIff(ns);
    forall i | 0 <= i < |ps|
      ensures FinitePoint(ns[i]) == FinitePoint(pkt.points[i]) && PointInRange(ns[i]) == PointInRange(pkt.points[i])
    {
      assert ns[i] == NormPoint(pkt.points[i]);
      NormKeepsChecks(pkt.points[i]);
    }
    assert (forall i :: 0 <= i < |ns| ==> FinitePoint(ns[i]) && PointInRange(ns[i])) <==>
           (forall i :: 0 <= i < Count(pkt) ==> FinitePoint(pkt.points[i]) && PointInRange(pkt.points[i]));
    NormKeepsTimes(ps);
    hide NormPoints, PointsError, TimesAscend;
    assert Expected(pkt) == Ok(Norm(pkt)) <==> pkt.points != [] && PointsError(ns) == None && TimesAscend(ns);
  }

  lemma {:induction false} NormKeepsTimes(ps: seq<Point>)
    ensures TimesAscend(NormPoints(ps)) <==> TimesAscend(ps)
  {
    hide Key;
    var ns := NormPoints(ps);
    assert forall i :: 0 <= i < |ps| ==> ns[i].t == ps[i].t;
  }

  lemma NormKeepsChecks(p: Point)
    ensures FinitePoint(NormPoint(p)) == FinitePoint(p) && PointInRange(NormPoint(p)) == PointInRange(p)
  {
    hide FiniteVec64, FiniteVec32, VecInRange, Finite64;
  }

  lemma {:induction false} PointsErrorIff(ps: seq<Point>)
    ensures PointsError(ps) == None <==> forall i :: 0 <= i < |ps| ==> FinitePoint(ps[i]) && PointInRange(ps[i])
  {
    hide FinitePoint, PointInRange;
    if ps != [] {
      PointsErrorIff(ps[1..]);
      assert forall i :: 1 <= i < |ps| ==> ps[1..][i - 1] == ps[i];
    }
  }

  /** A datagram damaged within four consecutive bytes is never accepted. */
  lemma {:induction false} BurstRejected(pkt: TrackPacket, e: bytes, i: nat, k: nat)
    requires k <= 4 && Crc.DifferOnlyIn(Encode(pkt), e, i, k)
    ensures Decode(e).Err?
  {
    hide Crc.Framed, Crc.WithCrc, Body, Crc.DifferOnlyIn, Validate, ReadPacket;
    Crc.WithCrcIsFramed(Body(pkt));
    Crc.BurstDetected(Encode(pkt), e, i, k);
  }

  // ----- the reserved header field -----

  lemma {:induction false} SamePoint(d: bytes, e: bytes, q: nat)
    requires AlikeButReserved(d, e) && q >= 8 && q + POINT_SIZE <= |d| - 4
    ensures ReadPoint(d, q) == ReadPoint(e, q)
  {
    hide Field, ReadVec64, ReadVec32;
    SameField(d, e, q, 8);
    SameVec64(d, e, q + 12);
    SameVec64(d, e, q + 36);
    SameVec32(d, e, q + 60);
    SameVec32(d, e, q + 72);
  }

  lemma {:induction false} SamePoints(d: bytes, e: bytes, n: nat)
    requires AlikeButReserved(d, e) && HEADER_SIZE + POINT_SIZE * n <= |d| - 4
    ensures ReadPoints(d, n) == ReadPoints(e, n)
  {
    hide ReadPoint, AlikeButReserved;
    SameLength(d, e);
    if n > 0 {
      SamePoints(d, e, n - 1);
      SamePoint(d, e, HEADER_SIZE + POINT_SIZE * (n - 1));
    }
  }

  /** The reserved header field is not looked at: datagrams that differ only in it and in the CRC decode alike,
      whatever it holds. */
  lemma {:induction false} ReservedIgnored(d: bytes, e: bytes)
    requires AlikeButReserved(d, e) && Crc.Framed(d) && Crc.Framed(e)
    ensures Decode(d) == Decode(e)
  {
    hide Crc.Framed, Field, ReadPoints, Validate;
    if |d| >= MIN_PACKET_SIZE {
      assert d[..4] == e[..4];
      SameField(d, e, 8, 4);
      SameField(d, e, 12, 4);
      SameField(d, e, 16, 4);
      var n := d[23] as int;
      if |d| == HEADER_SIZE + POINT_SIZE * n + 4 {
        SamePoints(d, e, n);
      }
    }
  }

  /** A packet sent with any value in the reserved field is taken like one sent with zero. */
  lemma {:induction false} AnyFlagsAccepted(pkt: TrackPacket, x: byte, y: byte)
    ensures Decode(Crc.WithCrc(Body(pkt)[6 := x][7 := y])) == Decode(Encode(pkt))
  {
    hide Crc.WithCrc, Crc.Framed, Decode, HeaderBytes, PointsBytes;
    var s, t := Body(pkt), Body(pkt)[6 := x][7 := y];
    Crc.WithCrcIsFramed(s);
    Crc.WithCrcIsFramed(t);
    var d, e := Crc.WithCrc(t), Crc.WithCrc(s);
    assert forall i :: 0 <= i < |s| ==> d[i] == d[..|s|][i] && e[i] == e[..|s|][i];
    ReservedIgnored(d, e);
  }

  // ----- the code -----

  /** encode: the header, then the points one field after another, then the CRC of it all. */
  method EncodePacket(pkt: TrackPacket) returns (out: bytes)
    ensures out == Encode(pkt)
  {
    hide LePut, Vec64Bytes, Vec32Bytes, Crc.Crc32;
    var count := if |pkt.points| > MAX_POINTS then MAX_POINTS else |pkt.points|;
    out := EncodeHeader(pkt, count);
    for i := 0 to count
      invariant out == HeaderBytes(pkt) + PointsBytes(pkt.points[..i])
    {
      out := EncodePoint(out, pkt.points[i]);
      assert pkt.points[..i + 1][..i] == pkt.points[..i];
      assert out == HeaderBytes(pkt) + (PointsBytes(pkt.points[..i]) + PointBytes(pkt.points[i]));
    }
    var crc := Crc.ComputeCrc32(out);
    out := Put(out, crc, 4);
  }

  method EncodeHeader(pkt: TrackPacket, count: nat) returns (out: bytes)
    requires count == Count(pkt)
    ensures out == HeaderBytes(pkt)
  {
    hide LePut;
    out := MAGIC + [VERSION, TRACK_UPDATE];
    out := Put(out, 0, 2);
    out := Put(out, pkt.sequence, 4);
    out := Put(out, pkt.trackId, 4);
    out := Put(out, pkt.satId, 4);
    out := out + [pkt.targetType];
    out := out + [pkt.targetFlags & FLAG_HIGHLIGHT];
    out := out + [ClampConfidence(pkt.confidence)];
    out := out + [count as byte];
  }

  method EncodePoint(out: bytes, p: Point) returns (out': bytes)
    ensures out' == out + PointBytes(p)
  {
    hide LePut, Vec64Bytes, Vec32Bytes;
    out' := Put(out, p.t, 8);
    out' := out' + [p.flags & (SAT_HAS_VEL | TGT_HAS_VEL)];
    out' := out' + [0, 0, 0];
    assert out' == out + (LePut(p.t, 8) + [p.flags & (SAT_HAS_VEL | TGT_HAS_VEL), 0, 0, 0]);
    out' := PutVec64(out', p.satPos);
    out' := PutVec64(out', p.tgtPos);
    out' := PutVec32(out', p.satVel);
    out' := PutVec32(out', p.tgtVel);
    assert out' == out + PointBytes(p);
  }

  method DecodePoint(d: bytes, q: nat) returns (p: Point)
    requires q + POINT_SIZE <= |d|
    ensures p == ReadPoint(d, q)
  {
    CapacityValues();
    var t := Get(d, q, 8);
    var satPos := GetVec64(d, q + 12);
    var tgtPos := GetVec64(d, q + 36);
    var satVel := GetVec32(d, q + 60);
    var tgtVel := GetVec32(d, q + 72);
    p := Point(t, d[q + 8] & (SAT_HAS_VEL | TGT_HAS_VEL), satPos, tgtPos, satVel, tgtVel);
  }

  lemma {:induction false} FirstErrorDecides(good: seq<Point>, bad: Point, rest: seq<Point>)
    requires PointsError(good) == None && PointError(bad).Some?
    ensures PointsError(good + [bad] + rest) == PointError(bad)
  {
    hide PointError;
    if good == [] {
      assert ([bad] + rest)[0] == bad;
      assert good + [bad] + rest == [bad] + rest;
    } else {
      FirstErrorDecides(good[1..], bad, rest);
      assert (good + [bad] + rest)[1..] == good[1..] + [bad] + rest;
    }
  }

  lemma {:induction false} NoErrorAppend(good: seq<Point>, p: Point)
    requires PointsError(good) == None && PointError(p) == None
    ensures PointsError(good + [p]) == None
  {
    hide PointError;
    if good != [] {
      NoErrorAppend(good[1..], p);
      assert (good + [p])[1..] == good[1..] + [p];
    }
  }

  lemma {:induction false} ReadPointsPrefix(d: bytes, m: nat, n: nat)
    requires m < n && HEADER_SIZE + POINT_SIZE * n <= |d|
    ensures ReadPoints(d, n)[..m] == ReadPoints(d, m)
    ensures ReadPoints(d, n)[m] == ReadPoint(d, HEADER_SIZE + POINT_SIZE * m)
  {
    hide ReadPoint;
    if m < n - 1 {
      ReadPointsPrefix(d, m, n - 1);
    }
  }

  /** decode: all structural checks, then the point loop, then the time loop; a packet only on success. */
  method DecodePacket(d: bytes) returns (r: Result<TrackPacket, DecodeError>)
    ensures r == Decode(d)
  {
    hide Field, Crc.Crc32, ReadPacket, Validate;
    if |d| < MIN_PACKET_SIZE { return Err(TooShort); }
    if |d| > MAX_PACKET_SIZE { return Err(TooLong); }
    if d[..4] != MAGIC { return Err(BadMagic); }
    if d[4] != VERSION { return Err(BadVersion); }
    if d[5] != TRACK_UPDATE { return Err(BadMsgType); }
    var count := d[23] as int;
    if count == 0 || count > MAX_POINTS { return Err(BadPointCount); }
    if |d| != HEADER_SIZE + POINT_SIZE * count + 4 { return Err(BadLength); }
    var wireCrc := Get(d, |d| - 4, 4);
    var crc := Crc.ComputeCrc32(d[..|d| - 4]);
    if crc != wireCrc { return Err(BadCrc); }
    r := DecodeBody(d, count);
  }

  method DecodeBody(d: bytes, count: nat) returns (r: Result<TrackPacket, DecodeError>)
    requires HEADER_SIZE + POINT_SIZE * count <= |d|
    ensures r == Validate(ReadPacket(d, count))
  {
    hide Field, ReadPoint, PointError, NormPoint;
    CapacityValues();
    var sequence := Get(d, 8, 4);
    var trackId := Get(d, 12, 4);
    var satId := Get(d, 16, 4);
    var points := [];
    for i := 0 to count
      invariant points == ReadPoints(d, i) && PointsError(points) == None
    {
      var p := DecodePoint(d, HEADER_SIZE + POINT_SIZE * i);
      var e := CheckPoint(p);
      if e.Some? {
        ghost var all := ReadPoints(d, count);
        ReadPointsPrefix(d, i, count);
        assert all == all[..i] + [all[i]] + all[i + 1..];
        FirstErrorDecides(points, p, all[i + 1..]);
        return Err(e.value);
      }
      NoErrorAppend(points, p);
      points := points + [p];
    }
    var ordered := CheckTimes(points);
    if !ordered { return Err(BadTime); }
    r := Ok(TrackPacket(sequence, trackId, satId, NormalizeType(d[20]), d[21] & FLAG_HIGHLIGHT,
                        ClampConfidence(d[22]), points));
  }

  method CheckPoint(p: Point) returns (e: Option<DecodeError>)
    ensures e == PointError(p)
  {
    if !FinitePoint(p) { return Some(NonFinite); }
    if !VecInRange(p.satPos) || !VecInRange(p.tgtPos) { return Some(OutOfRange); }
    e := None;
  }

  method CheckTimes(points: seq<Point>) returns (ok: bool)
    ensures ok == TimesAscend(points)
  {
    for i := 0 to |points|
      invariant TimesAscend(points[..i])
    {
      if Key(points[i].t) <= 0 { return false; }
      if i > 0 && Key(points[i].t) <= Key(points[i - 1].t) { return false; }
    }
    assert points[..|points|] == points;
    ok := true;
  }
}
