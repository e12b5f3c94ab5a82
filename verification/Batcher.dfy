/** The simulator's OLV2 batcher: buffered frames transposed into one datagram per track. */
module Batcher {
  import opened Bytes
  import opened Floats
  import opened Records
  import opened Collections
  import opened SortedKeys
  import opened Frames
  import opened Olv2Codec

  /** A frame and the epoch time it was sampled at. */
  datatype Sample = Sample(t: F64, frame: Frame)

  datatype Accumulator = Accumulator(points: seq<Point>, newest: ObjectRecord, newestSat: u32)

  type Tracks = map<int, Accumulator>

  function PointOf(s: Sample, r: ObjectRecord): Point {
    var moving := HasVelocity(r);
    Point(s.t, if moving then SAT_HAS_VEL | TGT_HAS_VEL else SAT_HAS_VEL, s.frame.sat.pos, r.pos,
          s.frame.sat.vel, if moving then r.vel else ZERO_VEC32)
  }

  // ----- the transposition, track by track -----

  /** The points the first `n` objects of a sample give to a track. */
  function SamplePoints(s: Sample, n: nat, id: int): seq<Point>
    requires n <= |s.frame.objects|
  {
    if n == 0 then [] else
    var r := s.frame.objects[n - 1];
    SamplePoints(s, n - 1, id) + if r.id == id then [PointOf(s, r)] else []
  }

  /** The points a run of samples gives to a track, in order. */
  function PointsFor(ss: seq<Sample>, id: int): seq<Point> {
    if ss == [] then [] else
    var last := ss[|ss| - 1];
    PointsFor(ss[..|ss| - 1], id) + SamplePoints(last, |last.frame.objects|, id)
  }

  // ----- the accumulation the code performs -----

  function AddRecord(tracks: Tracks, s: Sample, r: ObjectRecord): Tracks {
    var before := if r.id in tracks then tracks[r.id].points else [];
    tracks[r.id := Accumulator(before + [PointOf(s, r)], r, s.frame.sat.id)]
  }

  function AddRecords(tracks: Tracks, s: Sample, n: nat): Tracks
    requires n <= |s.frame.objects|
  {
    if n == 0 then tracks else AddRecord(AddRecords(tracks, s, n - 1), s, s.frame.objects[n - 1])
  }

  function TracksOf(ss: seq<Sample>): Tracks {
    if ss == [] then map[] else
    var last := ss[|ss| - 1];
    AddRecords(TracksOf(ss[..|ss| - 1]), last, |last.frame.objects|)
  }

  function PacketOf(acc: Accumulator, id: u32, sequence: u32): TrackPacket {
    TrackPacket(sequence, id, acc.newestSat, acc.newest.kind, acc.newest.flags & FLAG_HIGHLIGHT,
                acc.newest.confidence, acc.points)
  }

  function Keys(tracks: Tracks): set<int> {
    set id | id in tracks
  }

  /** All keys are 32-bit ids. */
  predicate IdKeys(tracks: Tracks) {
    forall id :: id in tracks ==> 0 <= id < TWO32
  }

  lemma {:induction false} AddRecordsIds(tracks: Tracks, s: Sample, n: nat)
    requires n <= |s.frame.objects| && IdKeys(tracks)
    ensures IdKeys(AddRecords(tracks, s, n))
  {
    if n != 0 {
      AddRecordsIds(tracks, s, n - 1);
    }
  }

  lemma {:induction false} TracksIds(ss: seq<Sample>)
    ensures IdKeys(TracksOf(ss))
  {
    hide AddRecords;
    if ss != [] {
      var last := ss[|ss| - 1];
      TracksIds(ss[..|ss| - 1]);
      AddRecordsIds(TracksOf(ss[..|ss| - 1]), last, |last.frame.objects|);
    }
  }

  /** One packet per listed id, numbered consecutively from `sequence`, wrapping at 2^32. */
  function PacketsFor(tracks: Tracks, ids: seq<int>, sequence: u32): (pkts: seq<TrackPacket>)
    requires IdKeys(tracks) && forall i :: 0 <= i < |ids| ==> ids[i] in tracks
    ensures |pkts| == |ids|
    ensures forall i :: 0 <= i < |ids| ==> pkts[i] == PacketOf(tracks[ids[i]], ids[i], (sequence + i) % TWO32)
  {
    seq(|ids|, i requires 0 <= i < |ids| => PacketOf(tracks[ids[i]], ids[i], (sequence + i) % TWO32))
  }

  /** The packets of one flush: one per track of the samples, ascending by id. */
  function FlushPackets(ss: seq<Sample>, sequence: u32): seq<TrackPacket> {
    TracksIds(ss);
    var ids := Sorted(Keys(TracksOf(ss)));
    assert forall i :: 0 <= i < |ids| ==> ids[i] in ids;
    PacketsFor(TracksOf(ss), ids, sequence)
  }

  // ----- the class -----

  class Olv2Batcher {
    const pointsPerDatagram: nat
    var frames: seq<Sample>

    /** The batch size is clamped to what one datagram can carry. */
    constructor (points: nat)
      ensures frames == [] && 1 <= pointsPerDatagram <= MAX_POINTS
      ensures 1 <= points <= MAX_POINTS ==> pointsPerDatagram == points
    {
      pointsPerDatagram := if points < 1 then 1 else if points > MAX_POINTS then MAX_POINTS else points;
      frames := [];
    }

    method Push(frame: Frame, t: F64)
      modifies this
      ensures frames == old(frames) + [Sample(t, frame)]
    {
      frames := frames + [Sample(t, frame)];
    }

    predicate Ready()
      reads this
    {
      |frames| >= pointsPerDatagram
    }

    predicate Empty()
      reads this
    {
      frames == []
    }

    /** flush: walk the frames, accumulate per object, emit one datagram per track, clear the buffer. */
    method Flush(sequence: u32) returns (datagrams: seq<bytes>, sequence': u32)
      modifies this
      ensures frames == []
      ensures datagrams == Each(FlushPackets(old(frames), sequence), Encode)
      ensures sequence' == (sequence + |datagrams|) % TWO32
    {
      hide TracksOf, PacketsFor, Encode, Sorted;
      if frames == [] {
        NoTracks();
        return [], sequence;
      }
      var tracks := Accumulate(frames);
      TracksIds(frames);
      datagrams, sequence' := EmitAll(tracks, sequence);
      frames := [];
    }
  }

  lemma {:induction false} NoTracks()
    ensures TracksOf([]) == map[] && Sorted(Keys(map[])) == []
  {
    SetsEqual(Keys(map[]), {});
  }

  /** The nested loops over frames and their objects. */
  method Accumulate(frames: seq<Sample>) returns (tracks: Tracks)
    ensures tracks == TracksOf(frames)
  {
    hide PointOf;
    tracks := map[];
    for i := 0 to |frames|
      invariant tracks == TracksOf(frames[..i])
    {
      var s := frames[i];
      ghost var before := tracks;
      for j := 0 to |s.frame.objects|
        invariant tracks == AddRecords(before, s, j)
      {
        var rec := s.frame.objects[j];
        var points := if rec.id in tracks then tracks[rec.id].points else [];
        points := points + [PointOf(s, rec)];
        tracks := tracks[rec.id := Accumulator(points, rec, s.frame.sat.id)];
      }
      assert frames[..i + 1][..i] == frames[..i];
    }
    assert frames[..|frames|] == frames;
  }

  /** The loop over the ordered map: number, fill and encode one packet per track. */
  method EmitAll(tracks: Tracks, sequence: u32) returns (datagrams: seq<bytes>, sequence': u32)
    requires IdKeys(tracks)
    ensures var ids := Sorted(Keys(tracks));
      && (forall i :: 0 <= i < |ids| ==> ids[i] in tracks)
      && datagrams == Each(PacketsFor(tracks, ids, sequence), Encode)
      && sequence' == (sequence + |datagrams|) % TWO32
  {
    hide Encode, PacketOf, PacketsFor, Sorted, Each;
    var ids := Sorted(Keys(tracks));
    assert forall i :: 0 <= i < |ids| ==> ids[i] in ids;
    ghost var pkts := PacketsFor(tracks, ids, sequence);
    datagrams := [];
    sequence' := sequence;
    for k := 0 to |ids|
      invariant |datagrams| == k && sequence' == (sequence + k) % TWO32
      invariant forall i :: 0 <= i < k ==> datagrams[i] == Encode(pkts[i])
    {
      var id := ids[k];
      var datagram := EncodePacket(PacketOf(tracks[id], id, sequence'));
      datagrams := datagrams + [datagram];
      NextSequence(sequence, k);
      sequence' := (sequence' + 1) % TWO32;
    }
    assert datagrams == Each(pkts, Encode);
  }

  // ----- the code's accumulation is the transposition -----

  /** A track's accumulator holds exactly the points for its id; a track exists when there is a point. */
  ghost predicate Transposes(tracks: Tracks, points: seq<Point>, id: int) {
    if points == [] then id !in tracks else id in tracks && tracks[id].points == points
  }

  lemma {:induction false} AddRecordsTransposes(tracks: Tracks, points: seq<Point>, s: Sample, n: nat, id: int)
    requires n <= |s.frame.objects| && Transposes(tracks, points, id)
    ensures Transposes(AddRecords(tracks, s, n), points + SamplePoints(s, n, id), id)
  {
    hide PointOf;
    if n == 0 {
      assert points + SamplePoints(s, n, id) == points;
    } else {
      AddRecordsTransposes(tracks, points, s, n - 1, id);
      var r, before := s.frame.objects[n - 1], points + SamplePoints(s, n - 1, id);
      assert points + SamplePoints(s, n, id) == before + if r.id == id then [PointOf(s, r)] else [];
    }
  }

  lemma {:induction false} TracksTranspose(ss: seq<Sample>, id: int)
    ensures Transposes(TracksOf(ss), PointsFor(ss, id), id)
  {
    hide AddRecords, SamplePoints;
    if ss != [] {
      var front, last := ss[..|ss| - 1], ss[|ss| - 1];
      TracksTranspose(front, id);
      AddRecordsTransposes(TracksOf(front), PointsFor(front, id), last, |last.frame.objects|, id);
    }
  }

  // ----- the header comes from the newest frame -----

  /** Object `i` of sample `j` is the last of its id in the newest sample that contains the id. */
  ghost predicate IsNewest(ss: seq<Sample>, id: int, j: nat, i: nat) {
    && j < |ss| && i < |ss[j].frame.objects| && ss[j].frame.objects[i].id == id
    && (forall k :: i < k < |ss[j].frame.objects| ==> ss[j].frame.objects[k].id != id)
    && (forall k :: j < k < |ss| ==> NotIn(ss[k], id))
  }

  ghost predicate NotIn(s: Sample, id: int) {
    forall k :: 0 <= k < |s.frame.objects| ==> s.frame.objects[k].id != id
  }

  /** The newest record and satellite id of a track are those of the newest sighting. */
  ghost predicate HeaderHolds(tracks: Tracks, ss: seq<Sample>, id: int) {
    id in tracks ==> exists j: nat, i: nat :: IsNewest(ss, id, j, i) && TakenFrom(tracks[id], ss, j, i)
  }

  ghost predicate TakenFrom(acc: Accumulator, ss: seq<Sample>, j: nat, i: nat) {
    && j < |ss| && i < |ss[j].frame.objects|
    && acc.newest == ss[j].frame.objects[i] && acc.newestSat == ss[j].frame.sat.id
  }

  /** While a sample is walked: either its first `n` objects hold the id, or the track is as before. */
  lemma {:induction false} WalkHeader(tracks: Tracks, s: Sample, n: nat, id: int) returns (i: int)
    requires n <= |s.frame.objects|
    ensures var t := AddRecords(tracks, s, n);
      if i < 0 then (forall k :: 0 <= k < n ==> s.frame.objects[k].id != id)
                    && (id in t <==> id in tracks) && (id in t ==> t[id] == tracks[id])
      else && i < n && s.frame.objects[i].id == id && (forall k :: i < k < n ==> s.frame.objects[k].id != id)
           && id in t && t[id].newest == s.frame.objects[i] && t[id].newestSat == s.frame.sat.id
  {
    hide PointOf;
    i := -1;
    if n != 0 {
      i := WalkHeader(tracks, s, n - 1, id);
      if s.frame.objects[n - 1].id == id {
        i := n - 1;
      }
    }
  }

  lemma {:induction false} NewestStays(ss: seq<Sample>, s: Sample, id: int, j: nat, i: nat)
    requires IsNewest(ss, id, j, i) && NotIn(s, id)
    ensures IsNewest(ss + [s], id, j, i)
  {
    hide NotIn;
  }

  lemma {:induction false} TracksHeader(ss: seq<Sample>, id: int)
    ensures HeaderHolds(TracksOf(ss), ss, id)
  {
    hide AddRecords, IsNewest;
    if ss != [] {
      var n := |ss| - 1;
      var front, last := ss[..n], ss[n];
      TracksHeader(front, id);
      var k := WalkHeader(TracksOf(front), last, |last.frame.objects|, id);
      assert ss == front + [last];
      if k < 0 {
        if id in TracksOf(front) {
          var j: nat, i: nat :| IsNewest(front, id, j, i) && TakenFrom(TracksOf(front)[id], front, j, i);
          NewestStays(front, last, id, j, i);
          assert TakenFrom(TracksOf(front)[id], ss, j, i);
        }
      } else {
        NewestLast(ss, id, k);
        assert TakenFrom(TracksOf(ss)[id], ss, n, k);
      }
    }
  }

  lemma {:induction false} NewestLast(ss: seq<Sample>, id: int, i: nat)
    requires ss != [] && var f := ss[|ss| - 1].frame;
      i < |f.objects| && f.objects[i].id == id && forall k :: i < k < |f.objects| ==> f.objects[k].id != id
    ensures IsNewest(ss, id, |ss| - 1, i)
  {
  }

  /** The header fields of a packet are those of object `i` of sample `j`, and of its satellite. */
  predicate HeaderFrom(p: TrackPacket, ss: seq<Sample>, j: nat, i: nat) {
    && j < |ss| && i < |ss[j].frame.objects|
    && p.targetType == ss[j].frame.objects[i].kind
    && p.targetFlags == ss[j].frame.objects[i].flags & FLAG_HIGHLIGHT
    && p.confidence == ss[j].frame.objects[i].confidence
    && p.satId == ss[j].frame.sat.id
  }

  /** Type, highlight bit, confidence and satellite id of every packet of a flush come from the newest buffered
      frame that contains its id. */
  lemma {:induction false} FlushHeaders(ss: seq<Sample>, sequence: u32, k: nat)
    requires k < |FlushPackets(ss, sequence)|
    ensures var p := FlushPackets(ss, sequence)[k];
      exists j: nat, i: nat :: IsNewest(ss, p.trackId, j, i) && HeaderFrom(p, ss, j, i)
  {
    hide TracksOf, Sorted, IsNewest;
    TracksIds(ss);
    var tracks := TracksOf(ss);
    var ids := Sorted(Keys(tracks));
    var p := FlushPackets(ss, sequence)[k];
    assert ids[k] in ids;
    assert p == PacketOf(tracks[ids[k]], ids[k], (sequence + k) % TWO32);
    TracksHeader(ss, ids[k]);
    var j: nat, i: nat :| IsNewest(ss, ids[k], j, i) && TakenFrom(tracks[ids[k]], ss, j, i);
    assert HeaderFrom(p, ss, j, i);
  }

  /** A flush emits, ascending by id, one packet for exactly the ids seen, each with all its points in order. */
  lemma {:induction false} FlushIsTransposition(ss: seq<Sample>, sequence: u32)
    ensures var pkts := FlushPackets(ss, sequence);
      && (forall i, j :: 0 <= i < j < |pkts| ==> pkts[i].trackId < pkts[j].trackId)
      && (forall i :: 0 <= i < |pkts| ==> pkts[i].points == PointsFor(ss, pkts[i].trackId) && pkts[i].points != []
                                          && pkts[i].sequence == (sequence + i) % TWO32)
      && (forall id :: PointsFor(ss, id) != [] ==> exists i :: 0 <= i < |pkts| && pkts[i].trackId == id)
  {
    hide TracksOf, PointsFor, Sorted;
    TracksIds(ss);
    var tracks := TracksOf(ss);
    var ids := Sorted(Keys(tracks));
    var pkts := FlushPackets(ss, sequence);
    forall id
      ensures Transposes(tracks, PointsFor(ss, id), id)
    {
      TracksTranspose(ss, id);
    }
    forall i | 0 <= i < |pkts|
      ensures pkts[i].trackId == ids[i] && ids[i] in tracks
      ensures pkts[i].points == PointsFor(ss, pkts[i].trackId) && pkts[i].points != []
    {
      assert ids[i] in ids;
    }
    forall id | PointsFor(ss, id) != []
      ensures exists i :: 0 <= i < |pkts| && pkts[i].trackId == id
    {
      assert id in ids;
      var i :| 0 <= i < |ids| && ids[i] == id;
      assert pkts[i].trackId == id;
    }
  }
}
