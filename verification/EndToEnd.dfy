/** From the simulator's frames to the broadcast trail points: every sample exactly once and in order. */
module EndToEnd {
  import opened Bytes
  import opened Floats
  import opened Records
  import opened Collections
  import opened Frames
  import opened Store
  import opened Olv2Codec
  import opened Batcher
  import opened Pipeline
  import Olv2Source

  // ----- the sending loop -----

  /** The batcher's buffer and shared counter; `flushed` and `packets` record what has been sent. */
  datatype Sender = Sender(size: nat, buffer: seq<Sample>, sequence: u32, flushed: seq<Sample>,
                           packets: seq<TrackPacket>)

  function FlushSender(s: Sender): Sender {
    var pkts := FlushPackets(s.buffer, s.sequence);
    Sender(s.size, [], (s.sequence + |pkts|) % TWO32, s.flushed + s.buffer, s.packets + pkts)
  }

  /** One cycle: buffer the frame, flush when ready. */
  function SendSample(s: Sender, x: Sample): Sender {
    var t := s.(buffer := s.buffer + [x]);
    if |t.buffer| >= t.size then FlushSender(t) else t
  }

  function SendAll(size: nat, sequence: u32, xs: seq<Sample>): Sender {
    if xs == [] then Sender(size, [], sequence, [], [])
    else SendSample(SendAll(size, sequence, xs[..|xs| - 1]), xs[|xs| - 1])
  }

  /** The flush of a partial batch at the end of the run. */
  function Finish(s: Sender): Sender {
    if s.buffer == [] then s else FlushSender(s)
  }

  /** The simulator's loop over its batcher sends exactly these datagrams. */
  method Transmit(points: nat, sequence: u32, xs: seq<Sample>) returns (datagrams: seq<bytes>)
    requires 1 <= points <= MAX_POINTS
    ensures datagrams == Each(Finish(SendAll(points, sequence, xs)).packets, Encode)
  {
    hide Encode, FlushPackets;
    var batcher := new Olv2Batcher(points);
    var next := sequence;
    datagrams := [];
    for i := 0 to |xs|
      invariant batcher.pointsPerDatagram == points
      invariant var s := SendAll(points, sequence, xs[..i]);
        batcher.frames == s.buffer && next == s.sequence && datagrams == Each(s.packets, Encode) && s.size == points
    {
      assert xs[..i + 1][..i] == xs[..i];
      batcher.Push(xs[i].frame, xs[i].t);
      assert Sample(xs[i].t, xs[i].frame) == xs[i];
      if batcher.Ready() {
        var more;
        more, next := batcher.Flush(next);
        datagrams := datagrams + more;
      }
    }
    assert xs[..|xs|] == xs;
    if !batcher.Empty() {
      var more;
      more, next := batcher.Flush(next);
      datagrams := datagrams + more;
    }
  }

  // ----- what the run promises -----

  predicate GoodObject(r: ObjectRecord) {
    FiniteVec64(r.pos) && VecInRange(r.pos) && (HasVelocity(r) ==> FiniteVec32(r.vel))
  }

  /** Finite in-range values, a positive time, and no id twice. */
  ghost predicate GoodSample(x: Sample) {
    && Finite64(x.t) && Key(x.t) > 0
    && FiniteVec64(x.frame.sat.pos) && VecInRange(x.frame.sat.pos) && FiniteVec32(x.frame.sat.vel)
    && (forall i :: 0 <= i < |x.frame.objects| ==> GoodObject(x.frame.objects[i]))
    && (forall i, j :: 0 <= i < j < |x.frame.objects| ==> x.frame.objects[i].id != x.frame.objects[j].id)
  }

  /** Good samples with strictly increasing times. */
  ghost predicate GoodRun(xs: seq<Sample>) {
    && (forall i :: 0 <= i < |xs| ==> GoodSample(xs[i]))
    && (forall i, j :: 0 <= i < j < |xs| ==> Key(xs[i].t) < Key(xs[j].t))
  }

  /** The record of an id among the first `n` objects of a frame. */
  function Find(f: Frame, n: nat, id: int): Option<ObjectRecord>
    requires n <= |f.objects|
  {
    if n == 0 then None else
    if f.objects[n - 1].id == id then Some(f.objects[n - 1]) else Find(f, n - 1, id)
  }

  function Sighting(x: Sample, id: int): seq<TrailPoint> {
    match Find(x.frame, |x.frame.objects|, id)
    case None => []
    case Some(r) => [TrailPoint(r.id, x.t, r.pos)]
  }

  /** The time and position of every sample that contains the id, in order. */
  function Sightings(xs: seq<Sample>, id: int): seq<TrailPoint> {
    if xs == [] then [] else Sightings(xs[..|xs| - 1], id) + Sighting(xs[|xs| - 1], id)
  }

  /** The points of one id in a log. */
  function ForId(log: seq<TrailPoint>, id: int): seq<TrailPoint> {
    if log == [] then [] else
    var last := log[|log| - 1];
    ForId(log[..|log| - 1], id) + if last.id == id then [last] else []
  }

  // ----- one batch -----

  lemma {:induction false} FindBounds(f: Frame, n: nat, id: int)
    requires n <= |f.objects|
    ensures var r := Find(f, n, id);
      && (r.Some? ==> exists i :: 0 <= i < n && f.objects[i] == r.value && r.value.id == id)
      && (r.None? ==> forall i :: 0 <= i < n ==> f.objects[i].id != id)
  {
    if n != 0 && f.objects[n - 1].id != id {
      FindBounds(f, n - 1, id);
    }
  }

  /** With distinct ids a sample gives a track at most one point. */
  lemma {:induction false} OnePoint(x: Sample, n: nat, id: int)
    requires GoodSample(x) && n <= |x.frame.objects|
    ensures SamplePoints(x, n, id) == match Find(x.frame, n, id) case None => [] case Some(r) => [PointOf(x, r)]
  {
    hide PointOf, GoodObject;
    if n != 0 {
      OnePoint(x, n - 1, id);
      FindBounds(x.frame, n - 1, id);
    }
  }

  predicate GoodPoint(p: Point) {
    FinitePoint(p) && PointInRange(p) && NormPoint(p) == p && Olv2Source.SatelliteHasVelocity(p)
  }

  lemma GoodPointOf(x: Sample, r: ObjectRecord)
    requires GoodSample(x) && GoodObject(r)
    ensures GoodPoint(PointOf(x, r))
  {
    hide FiniteVec64, VecInRange, Finite64;
  }

  /** What a track's points look like for a good run of samples. */
  ghost predicate GoodPoints(ps: seq<Point>, xs: seq<Sample>) {
    && |ps| <= |xs|
    && (forall k :: 0 <= k < |ps| ==> GoodPoint(ps[k]) && Key(xs[0].t) <= Key(ps[k].t) <= Key(xs[|xs| - 1].t))
    && (forall k :: 0 < k < |ps| ==> Key(ps[k - 1].t) < Key(ps[k].t))
  }

  function AsTrail(id: u32, ps: seq<Point>): (trail: seq<TrailPoint>)
    ensures |trail| == |ps| && forall i :: 0 <= i < |ps| ==> trail[i] == TrailPoint(id, ps[i].t, ps[i].tgtPos)
  {
    seq(|ps|, i requires 0 <= i < |ps| => TrailPoint(id, ps[i].t, ps[i].tgtPos))
  }

  /** What one more sample adds to a track. */
  lemma {:induction false} OneMoreSample(xs: seq<Sample>, id: u32)
    requires GoodRun(xs) && xs != []
    ensures var front, x := xs[..|xs| - 1], xs[|xs| - 1];
      || (PointsFor(xs, id) == PointsFor(front, id) && Sightings(xs, id) == Sightings(front, id))
      || exists r :: GoodObject(r) && PointsFor(xs, id) == PointsFor(front, id) + [PointOf(x, r)]
                     && Sightings(xs, id) == Sightings(front, id) + [TrailPoint(id, x.t, r.pos)]
  {
    hide GoodObject, PointOf, Find, Key, SamplePoints;
    var x := xs[|xs| - 1];
    var r := Find(x.frame, |x.frame.objects|, id);
    OnePoint(x, |x.frame.objects|, id);
    FindBounds(x.frame, |x.frame.objects|, id);
    if r.Some? {
      FoundIsGood(x, id);
    }
  }

  lemma {:induction false} GoodPointsGrow(ps: seq<Point>, front: seq<Sample>, x: Sample, r: ObjectRecord)
    requires GoodRun(front + [x]) && GoodPoints(ps, front) && GoodObject(r)
    ensures GoodPoints(ps + [PointOf(x, r)], front + [x])
  {
    hide GoodSample, GoodPoint, GoodObject, Key;
    var xs := front + [x];
    assert xs[|front|] == x;
    GoodPointOf(x, r);
    assert ps != [] ==> front != [] && front[|front| - 1] == xs[|front| - 1];
  }

  lemma {:induction false} GoodPointsStay(ps: seq<Point>, front: seq<Sample>, x: Sample)
    requires GoodRun(front + [x]) && GoodPoints(ps, front)
    ensures GoodPoints(ps, front + [x])
  {
    hide GoodSample, GoodPoint, Key;
    var xs := front + [x];
    assert ps != [] ==> xs[|front| - 1] == front[|front| - 1] && xs[0] == front[0];
  }

  /** A track's points are good, strictly ascending, and the sightings of its id. */
  lemma {:induction false} BatchPoints(xs: seq<Sample>, id: u32)
    requires GoodRun(xs)
    ensures GoodPoints(PointsFor(xs, id), xs)
    ensures AsTrail(id, PointsFor(xs, id)) == Sightings(xs, id)
  {
    hide GoodSample, GoodPoints, GoodObject, PointOf;
    if xs == [] {
      assert GoodPoints([], []) by { NoPoints(); }
    } else {
      var front, x := xs[..|xs| - 1], xs[|xs| - 1];
      var ps := PointsFor(front, id);
      assert xs == front + [x];
      GoodPrefix(xs);
      BatchPoints(front, id);
      OneMoreSample(xs, id);
      if PointsFor(xs, id) == ps && Sightings(xs, id) == Sightings(front, id) {
        GoodPointsStay(ps, front, x);
      } else {
        var r :| GoodObject(r) && PointsFor(xs, id) == ps + [PointOf(x, r)]
          && Sightings(xs, id) == Sightings(front, id) + [TrailPoint(id, x.t, r.pos)];
        GoodPointsGrow(ps, front, x, r);
        PointFields(x, r);
        assert AsTrail(id, ps + [PointOf(x, r)]) == AsTrail(id, ps) + [TrailPoint(id, x.t, r.pos)];
      }
    }
  }

  lemma NoPoints()
    ensures GoodPoints([], [])
  {
  }

  lemma PointFields(x: Sample, r: ObjectRecord)
    ensures PointOf(x, r).t == x.t && PointOf(x, r).tgtPos == r.pos
  {
  }

  lemma {:induction false} FoundIsGood(x: Sample, id: int)
    requires GoodSample(x) && Find(x.frame, |x.frame.objects|, id).Some?
    ensures GoodObject(Find(x.frame, |x.frame.objects|, id).value)
  {
    hide GoodObject, Find;
    FindBounds(x.frame, |x.frame.objects|, id);
  }

  /** A packet of a batch survives the wire with all its points. */
  lemma {:induction false} PacketSurvives(pkt: TrackPacket, xs: seq<Sample>)
    requires GoodRun(xs) && |xs| <= MAX_POINTS && GoodPoints(pkt.points, xs) && pkt.points != []
    ensures Decode(Encode(pkt)) == Ok(Norm(pkt)) && Norm(pkt).points == pkt.points && Norm(pkt).trackId == pkt.trackId
    ensures TimesAscend(pkt.points)
  {
    hide Encode, Decode, Key, FinitePoint, PointInRange;
    var ps := pkt.points;
    assert ps[..Count(pkt)] == ps;
    assert TimesAscend(ps) by {
      forall i | 0 <= i < |ps|
        ensures Key(ps[i].t) > 0
      {
        assert GoodSample(xs[0]);
        assert Key(xs[0].t) > 0 by { hide GoodObject; }
      }
    }
    assert forall i :: 0 <= i < |ps| ==> GoodPoint(ps[i]);
    SurvivesIff(pkt);
    assert NormPoints(ps) == ps;
  }

  // ----- filtering -----

  lemma {:induction false} ForIdAppend(a: seq<TrailPoint>, b: seq<TrailPoint>, id: int)
    ensures ForId(a + b, id) == ForId(a, id) + ForId(b, id)
  {
    if b == [] {
      assert a + b == a;
    } else {
      var n := |b| - 1;
      assert (a + b)[..|a + b| - 1] == a + b[..n];
      ForIdAppend(a, b[..n], id);
    }
  }

  lemma {:induction false} ForIdUniform(log: seq<TrailPoint>, own: int, id: int)
    requires forall i :: 0 <= i < |log| ==> log[i].id == own
    ensures ForId(log, id) == if own == id then log else []
  {
    if log != [] {
      ForIdUniform(log[..|log| - 1], own, id);
      assert log == log[..|log| - 1] + [log[|log| - 1]];
    }
  }

  /** The trail points of a run of packets, in order. */
  function AllTrails(pkts: seq<TrackPacket>): seq<TrailPoint> {
    if pkts == [] then [] else AllTrails(pkts[..|pkts| - 1]) + Olv2Source.TrailOf(pkts[|pkts| - 1])
  }

  lemma JoinLast(a: seq<TrailPoint>, b: seq<TrailPoint>, c: seq<TrailPoint>)
    ensures a + b + c == a + (b + c)
  {
  }

  lemma {:induction false} AllTrailsAppend(a: seq<TrackPacket>, b: seq<TrackPacket>)
    ensures AllTrails(a + b) == AllTrails(a) + AllTrails(b)
  {
    hide Olv2Source.TrailOf;
    if b == [] {
      assert a + b == a;
    } else {
      var n := |b| - 1;
      var all := a + b;
      assert all[..|all| - 1] == a + b[..n] && all[|all| - 1] == b[n];
      AllTrailsAppend(a, b[..n]);
      JoinLast(AllTrails(a), AllTrails(b[..n]), Olv2Source.TrailOf(b[n]));
    }
  }

  /** Packets of distinct tracks: the log of one id is the trail of its own packet. */
  lemma {:induction false} DistinctTracks(pkts: seq<TrackPacket>, id: int)
    requires forall i, j :: 0 <= i < j < |pkts| ==> pkts[i].trackId < pkts[j].trackId
    ensures forall i :: 0 <= i < |pkts| && pkts[i].trackId == id ==>
      ForId(AllTrails(pkts), id) == Olv2Source.TrailOf(pkts[i])
    ensures (forall i :: 0 <= i < |pkts| ==> pkts[i].trackId != id) ==> ForId(AllTrails(pkts), id) == []
  {
    hide ForId;
    if pkts == [] {
      assert ForId([], id) == [] by { ForIdEmpty(id); }
    } else {
      var n := |pkts| - 1;
      DistinctTracks(pkts[..n], id);
      var trail := Olv2Source.TrailOf(pkts[n]);
      ForIdAppend(AllTrails(pkts[..n]), trail, id);
      ForIdUniform(trail, pkts[n].trackId, id);
      assert forall i :: 0 <= i < n ==> pkts[..n][i] == pkts[i];
    }
  }

  lemma ForIdEmpty(id: int)
    ensures ForId([], id) == []
  {
  }

  // ----- the sender -----

  function NormAll(pkts: seq<TrackPacket>): (ns: seq<TrackPacket>)
    ensures |ns| == |pkts| && forall i :: 0 <= i < |pkts| ==> ns[i] == Norm(pkts[i])
  {
    seq(|pkts|, i requires 0 <= i < |pkts| => Norm(pkts[i]))
  }

  /** Packets a receiver accepts one after another: nonempty, and per track strictly later than all before. */
  ghost predicate InSequence(ps: seq<TrackPacket>) {
    && (forall i :: 0 <= i < |ps| ==> ps[i].points != [] && TimesAscend(ps[i].points))
    && (forall i, j :: 0 <= i < j < |ps| && ps[i].trackId == ps[j].trackId ==>
          Key(Olv2Source.Newest(ps[i]).t) < Key(ps[j].points[0].t))
  }

  /** No packet is newer than the last flushed sample. */
  ghost predicate NotBeyond(ps: seq<TrackPacket>, flushed: seq<Sample>) {
    forall i :: 0 <= i < |ps| ==>
      (ps[i].points != [] && flushed != [] && Key(Olv2Source.Newest(ps[i]).t) <= Key(flushed[|flushed| - 1].t))
  }

  ghost predicate Survive(pkts: seq<TrackPacket>) {
    forall i :: 0 <= i < |pkts| ==> Decode(Encode(pkts[i])) == Ok(Norm(pkts[i]))
  }

  /** Every packet ends in a point that carries the satellite's velocity. */
  ghost predicate SendsVelocity(ps: seq<TrackPacket>) {
    forall i :: 0 <= i < |ps| ==> ps[i].points != [] && Olv2Source.SatelliteHasVelocity(Olv2Source.Newest(ps[i]))
  }

  ghost predicate SenderOk(s: Sender, id: u32) {
    && Survive(s.packets)
    && SendsVelocity(NormAll(s.packets))
    && InSequence(NormAll(s.packets))
    && NotBeyond(NormAll(s.packets), s.flushed)
    && ForId(AllTrails(NormAll(s.packets)), id) == Sightings(s.flushed, id)
  }

  lemma {:induction false} SightingsAppend(a: seq<Sample>, b: seq<Sample>, id: int)
    ensures Sightings(a + b, id) == Sightings(a, id) + Sightings(b, id)
  {
    hide Sighting;
    if b == [] {
      assert a + b == a;
    } else {
      var n := |b| - 1;
      assert (a + b)[..|a + b| - 1] == a + b[..n];
      SightingsAppend(a, b[..n], id);
    }
  }

  /** The trail points of one flushed batch, per id. */
  lemma {:induction false} FlushedTrails(b: seq<Sample>, sequence: u32, id: u32)
    requires GoodRun(b) && |b| <= MAX_POINTS
    ensures ForId(AllTrails(NormAll(FlushPackets(b, sequence))), id) == Sightings(b, id)
  {
    hide FlushPackets, PointsFor, GoodRun, Norm, Decode, Encode, PacketGood, AllTrails, ForId, Sightings;
    FlushIsTransposition(b, sequence);
    var pkts := FlushPackets(b, sequence);
    var ns := NormAll(pkts);
    forall i | 0 <= i < |pkts|
      ensures ns[i].trackId == pkts[i].trackId && ns[i].points == pkts[i].points
    {
      FlushedPacket(b, sequence, i);
      assert PacketGood(pkts[i], ns[i], b);
      PacketKept(pkts[i], ns[i], b);
    }
    DistinctTracks(ns, id);
    BatchPoints(b, id);
    if i :| 0 <= i < |ns| && ns[i].trackId == id {
      assert Olv2Source.TrailOf(ns[i]) == AsTrail(id, PointsFor(b, id));
    } else {
      assert PointsFor(b, id) == [];
    }
  }

  lemma PacketKept(pkt: TrackPacket, norm: TrackPacket, b: seq<Sample>)
    requires PacketGood(pkt, norm, b)
    ensures norm.trackId == pkt.trackId && norm.points == pkt.points
  {
  }

  /** The packets of one flushed batch. */
  lemma {:induction false} FlushedBatch(b: seq<Sample>, sequence: u32, id: u32)
    requires GoodRun(b) && |b| <= MAX_POINTS
    ensures var pkts := FlushPackets(b, sequence);
      && Survive(pkts) && SendsVelocity(NormAll(pkts)) && InSequence(NormAll(pkts)) && NotBeyond(NormAll(pkts), b)
      && ForId(AllTrails(NormAll(pkts)), id) == Sightings(b, id)
      && forall i :: 0 <= i < |pkts| ==> Key(b[0].t) <= Key(NormAll(pkts)[i].points[0].t)
  {
    hide FlushPackets, PointsFor, GoodRun, Norm, Decode, Encode, Key, TimesAscend, AllTrails, ForId, Sightings;
    hide GoodPoint;
    FlushedTrails(b, sequence, id);
    FlushIsTransposition(b, sequence);
    var pkts := FlushPackets(b, sequence);
    var ns := NormAll(pkts);
    forall i | 0 <= i < |pkts|
      ensures PacketGood(pkts[i], ns[i], b)
    {
      FlushedPacket(b, sequence, i);
    }
  }

  /** The receiver decodes the packet, which carries points of the batch in time order and a velocity. */
  ghost predicate PacketGood(pkt: TrackPacket, norm: TrackPacket, b: seq<Sample>) {
    && Decode(Encode(pkt)) == Ok(norm) && norm.trackId == pkt.trackId && norm.points == pkt.points
    && norm.points != [] && TimesAscend(norm.points) && GoodPoints(norm.points, b)
    && Olv2Source.SatelliteHasVelocity(Olv2Source.Newest(norm))
  }

  lemma {:induction false} FlushedPacket(b: seq<Sample>, sequence: u32, i: nat)
    requires GoodRun(b) && |b| <= MAX_POINTS && i < |FlushPackets(b, sequence)|
    ensures var pkt := FlushPackets(b, sequence)[i]; PacketGood(pkt, Norm(pkt), b)
  {
    hide FlushPackets, PointsFor, GoodRun, Norm, Decode, Encode, Key, TimesAscend, GoodPoints;
    hide Olv2Source.SatelliteHasVelocity;
    FlushIsTransposition(b, sequence);
    var pkt := FlushPackets(b, sequence)[i];
    BatchPoints(b, pkt.trackId);
    PacketSurvives(pkt, b);
    NewestIsGood(Norm(pkt).points, b);
  }

  lemma {:induction false} NewestIsGood(ps: seq<Point>, xs: seq<Sample>)
    requires GoodPoints(ps, xs) && ps != []
    ensures Olv2Source.SatelliteHasVelocity(ps[|ps| - 1])
  {
    hide Key, FinitePoint, PointInRange, NormPoint;
    assert GoodPoint(ps[|ps| - 1]);
  }

  lemma {:induction false} FlushKeepsOk(s: Sender, id: u32)
    requires SenderOk(s, id) && GoodRun(s.flushed + s.buffer) && |s.buffer| <= MAX_POINTS && s.buffer != []
    ensures SenderOk(FlushSender(s), id)
  {
    hide FlushPackets, Norm, Decode, Encode, Key, TimesAscend, AllTrails, ForId, Sightings, GoodSample;
    var b, all := s.buffer, s.flushed + s.buffer;
    forall i | 0 <= i < |b|
      ensures b[i] == all[|s.flushed| + i]
    {
    }
    assert GoodRun(b);
    FlushedBatch(b, s.sequence, id);
    var pkts := FlushPackets(b, s.sequence);
    var old', new' := NormAll(s.packets), NormAll(pkts);
    var ns := NormAll(s.packets + pkts);
    assert ns == old' + new';
    AllTrailsAppend(old', new');
    ForIdAppend(AllTrails(old'), AllTrails(new'), id);
    SightingsAppend(s.flushed, b, id);
    if s.flushed != [] {
      assert all[|s.flushed| - 1] == s.flushed[|s.flushed| - 1] && all[|s.flushed|] == b[0];
    }
    assert all[|all| - 1] == b[|b| - 1];
    assert s.flushed != [] ==> Key(s.flushed[|s.flushed| - 1].t) < Key(all[|all| - 1].t);
    JoinSequences(old', new', s.flushed, b);
  }

  lemma JoinSequences(a: seq<TrackPacket>, c: seq<TrackPacket>, flushed: seq<Sample>, b: seq<Sample>)
    requires InSequence(a) && InSequence(c) && NotBeyond(a, flushed) && NotBeyond(c, b) && b != []
    requires forall i :: 0 <= i < |c| ==> Key(b[0].t) <= Key(c[i].points[0].t)
    requires flushed != [] ==> Key(flushed[|flushed| - 1].t) < Key(b[0].t)
    requires flushed != [] ==> Key(flushed[|flushed| - 1].t) < Key(b[|b| - 1].t)
    ensures InSequence(a + c) && NotBeyond(a + c, flushed + b)
  {
    hide Key, TimesAscend;
  }

  lemma {:induction false} GoodPrefix(xs: seq<Sample>)
    requires GoodRun(xs) && xs != []
    ensures GoodRun(xs[..|xs| - 1])
  {
    hide GoodSample, Key;
  }

  lemma {:induction false} SenderStaysOk(size: nat, sequence: u32, xs: seq<Sample>, id: u32)
    requires 1 <= size <= MAX_POINTS && GoodRun(xs)
    ensures var s := SendAll(size, sequence, xs);
      SenderOk(s, id) && s.flushed + s.buffer == xs && |s.buffer| < size && s.size == size
  {
    hide GoodRun, FlushPackets, ForId, AllTrails, Sightings, SenderOk;
    if xs == [] {
      NothingSent(size, sequence, id);
    } else {
      var n := |xs| - 1;
      GoodPrefix(xs);
      SenderStaysOk(size, sequence, xs[..n], id);
      var s := SendAll(size, sequence, xs[..n]);
      var t := s.(buffer := s.buffer + [xs[n]]);
      assert t.flushed + t.buffer == xs;
      SameHistory(s, t, id);
      if |t.buffer| >= size {
        FlushKeepsOk(t, id);
        assert FlushSender(t).flushed == xs;
      }
    }
  }

  lemma {:induction false} NothingSent(size: nat, sequence: u32, id: u32)
    ensures SenderOk(Sender(size, [], sequence, [], []), id)
  {
    ForIdEmpty(id);
    assert NormAll([]) == [];
    assert AllTrails([]) == [] && Sightings([], id) == [];
  }

  lemma SameHistory(s: Sender, t: Sender, id: u32)
    requires SenderOk(s, id) && t.packets == s.packets && t.flushed == s.flushed
    ensures SenderOk(t, id)
  {
    hide Survive, InSequence, NotBeyond, ForId, AllTrails, Sightings, NormAll;
  }

  lemma {:induction false} FinishOk(size: nat, sequence: u32, xs: seq<Sample>, id: u32)
    requires 1 <= size <= MAX_POINTS && GoodRun(xs)
    ensures var s := Finish(SendAll(size, sequence, xs)); SenderOk(s, id) && s.flushed == xs
  {
    hide GoodSample, SenderOk, SendAll, FlushPackets;
    SenderStaysOk(size, sequence, xs, id);
    var s := SendAll(size, sequence, xs);
    if s.buffer != [] {
      FlushKeepsOk(s, id);
    } else {
      assert s.flushed + s.buffer == s.flushed;
    }
  }

  // ----- the receiver -----

  /** The datagrams that arrive during a run, in order. */
  function Delivered(actions: seq<Action>): seq<bytes> {
    if actions == [] then [] else
    var last := actions[|actions| - 1];
    Delivered(actions[..|actions| - 1]) + if last.Arrive? then [last.d] else []
  }

  /** No accepted batch pushes the pending queue past its bound. */
  ghost predicate NoOverflow(states: seq<System>, actions: seq<Action>)
    requires IsRun(states, actions)
  {
    forall i :: 0 <= i < |actions| && actions[i].Settle? ==> FitsQueue(states[i])
  }

  predicate FitsQueue(sys: System)
    requires sys.inflight.Some?
  {
    var o := Classify(sys.receiver, sys.inflight.value);
    o.MergeTrack? ==> |sys.store.pending| + |o.u.trail| <= MAX_PENDING_TRAIL_POINTS
  }

  /** Datagram for datagram, `ds` decodes to `ps`. */
  ghost predicate DecodesTo(ds: seq<bytes>, ps: seq<TrackPacket>) {
    |ds| == |ps| && forall i :: 0 <= i < |ds| ==> Decode(ds[i]) == Ok(ps[i])
  }

  /** After `m` settled datagrams the log is the trails of the first `m` packets. */
  ghost predicate ReceivedAll(sys: System, ps: seq<TrackPacket>, m: nat) {
    && m <= |ps| && sys.receiver.Olv2?
    && TrailLog(sys) == AllTrails(ps[..m])
    && forall id :: id in sys.receiver.tracker.lastT ==>
         exists j :: 0 <= j < m && ps[j].trackId == id && ps[j].points != []
                     && sys.receiver.tracker.lastT[id] == Olv2Source.Newest(ps[j]).t
  }

  lemma {:induction false} SettleReceives(sys: System, wall: int, mono: int, ps: seq<TrackPacket>, m: nat)
    requires sys.inflight.Some? && ReceivedAll(sys, ps, m) && m < |ps| && InSequence(ps)
    requires Decode(sys.inflight.value) == Ok(ps[m]) && FitsQueue(sys)
    ensures ReceivedAll(Next(sys, Settle(wall, mono)), ps, m + 1)
  {
    hide Key, Decode, TimesAscend, AllTrails, Olv2Source.SatelliteOf, Olv2Source.TargetOf, ReplacesSatellite;
    var pkt, tr := ps[m], sys.receiver.tracker;
    assert !Olv2Source.StaleBatch(tr, pkt) by {
      if pkt.trackId in tr.lastT {
        var j :| 0 <= j < m && ps[j].trackId == pkt.trackId && ps[j].points != []
          && tr.lastT[pkt.trackId] == Olv2Source.Newest(ps[j]).t;
      }
    }
    var next := Next(sys, Settle(wall, mono));
    var trail := Olv2Source.TrailOf(pkt);
    assert next.store.pending == sys.store.pending + trail;
    assert TrailLog(next) == TrailLog(sys) + trail;
    assert ps[..m + 1][..m] == ps[..m];
    assert AllTrails(ps[..m + 1]) == AllTrails(ps[..m]) + trail by { LastTrail(ps[..m + 1]); }
    forall id | id in next.receiver.tracker.lastT
      ensures exists j :: 0 <= j < m + 1 && ps[j].trackId == id && ps[j].points != []
                     && next.receiver.tracker.lastT[id] == Olv2Source.Newest(ps[j]).t
    {
      if id == pkt.trackId {
        assert ps[m].trackId == id;
      } else {
        var j :| 0 <= j < m && ps[j].trackId == id && ps[j].points != []
          && tr.lastT[id] == Olv2Source.Newest(ps[j]).t;
      }
    }
  }

  lemma LastTrail(pkts: seq<TrackPacket>)
    requires pkts != []
    ensures AllTrails(pkts) == AllTrails(pkts[..|pkts| - 1]) + Olv2Source.TrailOf(pkts[|pkts| - 1])
  {
  }

  /** How many of the delivered datagrams have been settled. */
  function Settled(sys: System, actions: seq<Action>): int {
    |Delivered(actions)| - if sys.inflight.Some? then 1 else 0
  }

  /** In-order lossless delivery, whatever the interleaving with snapshots. */
  lemma {:induction false} RunReceives(states: seq<System>, actions: seq<Action>, ds: seq<bytes>,
                                       ps: seq<TrackPacket>, k: nat)
    requires IsRun(states, actions) && Starts(states[0]) && states[0].receiver.Olv2? && NoOverflow(states, actions)
    requires Delivered(actions) == ds && DecodesTo(ds, ps) && InSequence(ps) && k <= |actions|
    ensures var sent, m := Delivered(actions[..k]), Settled(states[k], actions[..k]);
      && sent <= ds && 0 <= m && ReceivedAll(states[k], ps, m)
      && (states[k].inflight.Some? ==> states[k].inflight.value == ds[m])
  {
    hide InSequence, Next, FitsQueue, AllTrails, Classify, AfterDatagram, DropExpired, DropOld, Rows, Decode;
    DeliveredPrefix(actions, k);
    if k == 0 {
      assert TrailLog(states[0]) == AllTrails(ps[..0]) by { NoTrails(ps); }
    } else {
      RunReceives(states, actions, ds, ps, k - 1);
      var sys, a := states[k - 1], actions[k - 1];
      var m := Settled(sys, actions[..k - 1]);
      assert actions[..k][..k - 1] == actions[..k - 1];
      DeliveredPrefix(actions, k - 1);
      match a
      case Arrive(d) =>
        ArriveKeeps(sys, d, ps, m);
      case Settle(wall, mono) =>
        SettleReceives(sys, wall, mono, ps, m);
        assert Next(sys, a).inflight.None? by { NextInflight(sys, a); }
      case Broadcast(mono) =>
        BroadcastKeeps(sys, mono, ps, m);
    }
  }

  lemma NoTrails(ps: seq<TrackPacket>)
    ensures AllTrails(ps[..0]) == []
  {
  }

  lemma NextInflight(sys: System, a: Action)
    requires Enabled(sys, a)
    ensures Next(sys, a).inflight ==
      match a case Arrive(d) => Some(d) case Settle(_, _) => None case Broadcast(_) => sys.inflight
  {
    hide Classify, AfterDatagram, AfterOutcome, AfterReceived, AfterSnapshot, SnapshotOf;
  }

  lemma ArriveKeeps(sys: System, d: bytes, ps: seq<TrackPacket>, m: nat)
    requires sys.inflight.None? && ReceivedAll(sys, ps, m)
    ensures ReceivedAll(Next(sys, Arrive(d)), ps, m) && Next(sys, Arrive(d)).inflight == Some(d)
  {
    hide AllTrails;
  }

  lemma {:induction false} BroadcastKeeps(sys: System, mono: int, ps: seq<TrackPacket>, m: nat)
    requires ReceivedAll(sys, ps, m)
    ensures ReceivedAll(Next(sys, Broadcast(mono)), ps, m) && Next(sys, Broadcast(mono)).inflight == sys.inflight
  {
    hide AllTrails, DropExpired, DropOld, Rows;
    assert TrailLog(Next(sys, Broadcast(mono))) == TrailLog(sys);
  }

  lemma {:induction false} DeliveredPrefix(actions: seq<Action>, k: nat)
    requires k <= |actions|
    ensures Delivered(actions[..k]) <= Delivered(actions)
    ensures k < |actions| && actions[k].Arrive? ==> Delivered(actions[..k]) + [actions[k].d] <= Delivered(actions)
    decreases |actions|
  {
    if k == |actions| {
      assert actions[..k] == actions;
    } else {
      var n := |actions| - 1;
      assert actions[..n][..k] == actions[..k];
      if k < n {
        DeliveredPrefix(actions[..n], k);
      }
    }
  }

  // ----- the theorem -----

  /** Ideal network, any interleaving of snapshots, no queue overflow: the reported and waiting trail points of
      each id are exactly the time and position of every flushed frame that contains it, in order. */
  lemma {:induction false} ExactlyOnce(size: nat, sequence: u32, xs: seq<Sample>, s: Sender, states: seq<System>,
                                       actions: seq<Action>, id: u32)
    requires 1 <= size <= MAX_POINTS && GoodRun(xs)
    requires s == SendAll(size, sequence, xs) || s == Finish(SendAll(size, sequence, xs))
    requires IsRun(states, actions) && Starts(states[0]) && states[0].receiver.Olv2? && NoOverflow(states, actions)
    requires Delivered(actions) == Each(s.packets, Encode) && states[|actions|].inflight.None?
    ensures ForId(TrailLog(states[|actions|]), id) == Sightings(s.flushed, id)
    ensures states[|actions|].store.pending == [] ==> ForId(states[|actions|].reported, id) == Sightings(s.flushed, id)
    ensures s == Finish(SendAll(size, sequence, xs)) ==> s.flushed == xs
  {
    hide GoodRun, SendAll, Finish, IsRun, Starts, NoOverflow, InSequence, AllTrails, ForId, Sightings, Encode, Decode;
    hide Delivered;
    SenderStaysOk(size, sequence, xs, id);
    FinishOk(size, sequence, xs, id);
    var ds, ps, k := Each(s.packets, Encode), NormAll(s.packets), |actions|;
    assert SenderOk(s, id);
    assert DecodesTo(ds, ps);
    assert |states| == k + 1 by { RunLength(states, actions); }
    RunReceives(states, actions, ds, ps, k);
    assert actions[..k] == actions;
    assert ps[..|ps|] == ps;
    var last := states[k];
    if last.store.pending == [] {
      assert TrailLog(last) == last.reported;
    }
  }

  lemma RunLength(states: seq<System>, actions: seq<Action>)
    requires IsRun(states, actions)
    ensures |states| == |actions| + 1
  {
    hide Next, Enabled;
  }
}
