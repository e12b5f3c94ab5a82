/** From the simulator's frames to the rows and the satellite of an OLV2 broadcast. */
module TrackRows {
  import opened Bytes
  import opened Floats
  import opened Records
  import opened Collections
  import opened Frames
  import opened Store
  import opened Olv2Codec
  import opened Batcher
  import opened Pipeline
  import opened EndToEnd
  import opened Olv2Rows
  import RunHistory
  import H = StoreHistory

  // ----- what the points of a track carry -----

  /** A record seen in a sample. */
  datatype Seen = Seen(x: Sample, r: ObjectRecord)

  function SeenIn(x: Sample, id: int): seq<Seen> {
    match Find(x.frame, |x.frame.objects|, id)
    case None => []
    case Some(r) => [Seen(x, r)]
  }

  /** Every record of an id, with the sample it was seen in. */
  function AllSeen(xs: seq<Sample>, id: int): seq<Seen> {
    if xs == [] then [] else AllSeen(xs[..|xs| - 1], id) + SeenIn(xs[|xs| - 1], id)
  }

  /** A point carries the sample's time and satellite, and the record's position, with its velocity if it has one. */
  predicate Carries(p: Point, v: Seen) {
    && p.t == v.x.t && p.satPos == v.x.frame.sat.pos && p.satVel == v.x.frame.sat.vel
    && p.flags & 1 != 0 && p.tgtPos == v.r.pos
    && (p.flags & 2 != 0 <==> HasVelocity(v.r))
    && p.tgtVel == (if HasVelocity(v.r) then v.r.vel else ZERO_VEC32)
  }

  ghost predicate AllCarry(ps: seq<Point>, vs: seq<Seen>) {
    |ps| == |vs| && forall k :: 0 <= k < |ps| ==> Carries(ps[k], vs[k])
  }

  lemma PointCarries(x: Sample, r: ObjectRecord)
    ensures Carries(PointOf(x, r), Seen(x, r))
  {
  }

  lemma {:induction false} CarryJoin(a: seq<Point>, b: seq<Point>, v: seq<Seen>, w: seq<Seen>)
    requires AllCarry(a, v) && AllCarry(b, w)
    ensures AllCarry(a + b, v + w)
  {
    hide Carries;
  }

  /** The points of a batch for a track carry exactly the records of its id, in order. */
  lemma {:induction false} PointsCarrySeen(xs: seq<Sample>, id: u32)
    requires GoodRun(xs)
    ensures AllCarry(PointsFor(xs, id), AllSeen(xs, id))
  {
    hide GoodSample, PointOf, Carries, Find, SamplePoints;
    if xs != [] {
      var front, x := xs[..|xs| - 1], xs[|xs| - 1];
      GoodPrefix(xs);
      PointsCarrySeen(front, id);
      OnePoint(x, |x.frame.objects|, id);
      var r := Find(x.frame, |x.frame.objects|, id);
      if r.Some? {
        PointCarries(x, r.value);
      }
      CarryJoin(PointsFor(front, id), SamplePoints(x, |x.frame.objects|, id), AllSeen(front, id), SeenIn(x, id));
    }
  }

  // ----- what the packets carry -----

  /** The points of one track in some packets, in order. */
  function PointsOf(ps: seq<TrackPacket>, id: int): seq<Point> {
    if ps == [] then [] else
    var last := ps[|ps| - 1];
    PointsOf(ps[..|ps| - 1], id) + if last.trackId == id then last.points else []
  }

  lemma {:induction false} PointsOfJoin(a: seq<TrackPacket>, b: seq<TrackPacket>, id: int)
    ensures PointsOf(a + b, id) == PointsOf(a, id) + PointsOf(b, id)
    decreases |b|
  {
    if b == [] {
      assert a + b == a;
    } else {
      var n, all := |b| - 1, a + b;
      assert all[..|all| - 1] == a + b[..n] && all[|all| - 1] == b[n];
      PointsOfJoin(a, b[..n], id);
    }
  }

  lemma {:induction false} AllSeenJoin(a: seq<Sample>, b: seq<Sample>, id: int)
    ensures AllSeen(a + b, id) == AllSeen(a, id) + AllSeen(b, id)
    decreases |b|
  {
    hide SeenIn;
    if b == [] {
      assert a + b == a;
    } else {
      var n, all := |b| - 1, a + b;
      assert all[..|all| - 1] == a + b[..n] && all[|all| - 1] == b[n];
      AllSeenJoin(a, b[..n], id);
    }
  }

  /** Of packets of distinct tracks, one gives the points. */
  lemma {:induction false} DistinctPoints(ps: seq<TrackPacket>, id: int)
    requires forall i, j :: 0 <= i < j < |ps| ==> ps[i].trackId < ps[j].trackId
    ensures forall i :: 0 <= i < |ps| && ps[i].trackId == id ==> PointsOf(ps, id) == ps[i].points
    ensures (forall i :: 0 <= i < |ps| ==> ps[i].trackId != id) ==> PointsOf(ps, id) == []
  {
    if ps != [] {
      var n := |ps| - 1;
      DistinctPoints(ps[..n], id);
      assert forall i :: 0 <= i < n ==> ps[..n][i] == ps[i];
    }
  }

  /** The header of a packet, in the receiver's normal form, is that of a record and its satellite. */
  predicate HeaderOf(p: TrackPacket, v: Seen) {
    && p.targetType == NormalizeType(v.r.kind) && p.confidence == ClampConfidence(v.r.confidence)
    && (p.targetFlags & 2 != 0 <==> v.r.flags & 2 != 0)
    && p.satId == v.x.frame.sat.id
  }

  /** A packet's newest point and its header are of one record, the newest of its id in `xs`. */
  ghost predicate FromNewest(p: TrackPacket, xs: seq<Sample>) {
    var vs := AllSeen(xs, p.trackId);
    && p.points != [] && vs != [] && Carries(p.points[|p.points| - 1], vs[|vs| - 1]) && HeaderOf(p, vs[|vs| - 1])
  }

  lemma {:induction false} FindIs(f: Frame, n: nat, id: int, i: nat)
    requires i < n <= |f.objects| && f.objects[i].id == id && forall k :: i < k < n ==> f.objects[k].id != id
    ensures Find(f, n, id) == Some(f.objects[i])
  {
    if i < n - 1 {
      FindIs(f, n - 1, id, i);
    }
  }

  lemma {:induction false} NewestIsLastSeen(xs: seq<Sample>, id: int, j: nat, i: nat)
    requires IsNewest(xs, id, j, i)
    ensures var vs := AllSeen(xs, id); vs != [] && vs[|vs| - 1] == Seen(xs[j], xs[j].frame.objects[i])
  {
    hide Find;
    var n := |xs| - 1;
    var f := xs[n].frame;
    if j < n {
      assert NotIn(xs[n], id);
      FindBounds(f, |f.objects|, id);
      assert IsNewest(xs[..n], id, j, i);
      NewestIsLastSeen(xs[..n], id, j, i);
    } else {
      FindIs(f, |f.objects|, id, i);
    }
  }

  lemma NormKeepsHeader(p: TrackPacket, r: ObjectRecord)
    requires p.targetType == r.kind && p.targetFlags == r.flags & FLAG_HIGHLIGHT && p.confidence == r.confidence
    ensures var n := Norm(p);
      && n.targetType == NormalizeType(r.kind) && n.confidence == ClampConfidence(r.confidence)
      && (n.targetFlags & 2 != 0 <==> r.flags & 2 != 0)
      && n.satId == p.satId && n.trackId == p.trackId
  {
    hide NormPoints;
  }

  /** Every packet of a flush shows the newest record of its id in the batch. */
  lemma {:induction false} FlushedFromNewest(b: seq<Sample>, sequence: u32, i: nat)
    requires GoodRun(b) && |b| <= MAX_POINTS && i < |FlushPackets(b, sequence)|
    ensures FromNewest(Norm(FlushPackets(b, sequence)[i]), b)
  {
    hide FlushPackets, PointsFor, GoodRun, Norm, AllSeen, Carries, IsNewest, NormalizeType, ClampConfidence, PacketGood;
    FlushIsTransposition(b, sequence);
    FlushHeaders(b, sequence, i);
    var p := FlushPackets(b, sequence)[i];
    FlushedPacket(b, sequence, i);
    PacketKept(p, Norm(p), b);
    PointsCarrySeen(b, p.trackId);
    var j: nat, k: nat :| IsNewest(b, p.trackId, j, k) && HeaderFrom(p, b, j, k);
    NewestIsLastSeen(b, p.trackId, j, k);
    NormKeepsHeader(p, b[j].frame.objects[k]);
  }

  // ----- the sender -----

  function LastPacket(ps: seq<TrackPacket>, id: int): Option<TrackPacket> {
    if ps == [] then None else
    var last := ps[|ps| - 1];
    if last.trackId == id then Some(last) else LastPacket(ps[..|ps| - 1], id)
  }

  /** The packets of an id carry all of its flushed records, and the last shows the newest. */
  ghost predicate TrackOk(ps: seq<TrackPacket>, flushed: seq<Sample>, id: u32) {
    && AllCarry(PointsOf(ps, id), AllSeen(flushed, id))
    && match LastPacket(ps, id)
       case None => AllSeen(flushed, id) == []
       case Some(p) => p.trackId == id && FromNewest(p, flushed)
  }

  lemma {:induction false} LastPacketJoin(a: seq<TrackPacket>, b: seq<TrackPacket>, id: int)
    ensures LastPacket(a + b, id) == if LastPacket(b, id).Some? then LastPacket(b, id) else LastPacket(a, id)
    decreases |b|
  {
    if b == [] {
      assert a + b == a;
    } else {
      var n, all := |b| - 1, a + b;
      assert all[..|all| - 1] == a + b[..n] && all[|all| - 1] == b[n];
      LastPacketJoin(a, b[..n], id);
    }
  }

  lemma {:induction false} LastPacketIs(ps: seq<TrackPacket>, id: int)
    ensures match LastPacket(ps, id)
      case None => forall i :: 0 <= i < |ps| ==> ps[i].trackId != id
      case Some(p) => exists i :: 0 <= i < |ps| && ps[i] == p && p.trackId == id
                                  && forall j :: i < j < |ps| ==> ps[j].trackId != id
  {
    if ps != [] {
      var n := |ps| - 1;
      LastPacketIs(ps[..n], id);
      if ps[n].trackId != id && LastPacket(ps[..n], id).Some? {
        var i :| 0 <= i < n && ps[..n][i] == LastPacket(ps[..n], id).value
          && forall j :: i < j < n ==> ps[..n][j].trackId != id;
        assert ps[i] == LastPacket(ps, id).value;
        assert forall j :: i < j < n ==> ps[j].trackId == ps[..n][j].trackId;
      }
    }
  }

  /** One flushed batch. */
  lemma {:induction false} BatchTrackOk(b: seq<Sample>, sequence: u32, id: u32)
    requires GoodRun(b) && |b| <= MAX_POINTS
    ensures TrackOk(NormAll(FlushPackets(b, sequence)), b, id)
  {
    hide FlushPackets, PointsFor, GoodRun, Norm, AllSeen, AllCarry, FromNewest, PacketGood, PointsOf, LastPacket;
    FlushIsTransposition(b, sequence);
    var pkts := FlushPackets(b, sequence);
    var ns := NormAll(pkts);
    forall i | 0 <= i < |pkts|
      ensures ns[i].trackId == pkts[i].trackId && ns[i].points == pkts[i].points && FromNewest(ns[i], b)
    {
      FlushedPacket(b, sequence, i);
      PacketKept(pkts[i], ns[i], b);
      FlushedFromNewest(b, sequence, i);
    }
    DistinctPoints(ns, id);
    PointsCarrySeen(b, id);
    LastPacketIs(ns, id);
    if LastPacket(ns, id).None? {
      assert PointsFor(b, id) == [];
      NothingCarried(AllSeen(b, id));
    } else {
      var i :| 0 <= i < |ns| && ns[i] == LastPacket(ns, id).value && ns[i].trackId == id;
    }
  }

  lemma NothingCarried(vs: seq<Seen>)
    ensures AllCarry([], vs) ==> vs == []
  {
  }

  lemma {:induction false} TrackOkJoin(a: seq<TrackPacket>, b: seq<TrackPacket>, xs: seq<Sample>, ys: seq<Sample>,
                                       id: u32)
    requires TrackOk(a, xs, id) && TrackOk(b, ys, id)
    ensures TrackOk(a + b, xs + ys, id)
  {
    hide AllSeen, PointsOf, LastPacket, Carries, HeaderOf;
    PointsOfJoin(a, b, id);
    AllSeenJoin(xs, ys, id);
    CarryJoin(PointsOf(a, id), PointsOf(b, id), AllSeen(xs, id), AllSeen(ys, id));
    LastPacketJoin(a, b, id);
    assert AllSeen(ys, id) == [] ==> AllSeen(xs, id) + AllSeen(ys, id) == AllSeen(xs, id);
  }

  lemma {:induction false} FlushKeepsTrack(s: Sender, id: u32)
    requires TrackOk(NormAll(s.packets), s.flushed, id) && GoodRun(s.flushed + s.buffer) && |s.buffer| <= MAX_POINTS
    ensures var t := FlushSender(s); TrackOk(NormAll(t.packets), t.flushed, id)
  {
    hide FlushPackets, Norm, TrackOk, GoodSample, Key;
    var b, all := s.buffer, s.flushed + s.buffer;
    assert forall i :: 0 <= i < |b| ==> b[i] == all[|s.flushed| + i];
    BatchTrackOk(b, s.sequence, id);
    var pkts := FlushPackets(b, s.sequence);
    assert NormAll(s.packets + pkts) == NormAll(s.packets) + NormAll(pkts);
    TrackOkJoin(NormAll(s.packets), NormAll(pkts), s.flushed, b, id);
  }

  lemma NoTrack(id: u32)
    ensures TrackOk([], [], id)
  {
  }

  lemma {:induction false} SenderTrackOk(size: nat, sequence: u32, xs: seq<Sample>, id: u32)
    requires 1 <= size <= MAX_POINTS && GoodRun(xs)
    ensures var s := SendAll(size, sequence, xs);
      TrackOk(NormAll(s.packets), s.flushed, id) && s.flushed + s.buffer == xs && |s.buffer| < size && s.size == size
  {
    hide GoodRun, FlushPackets, TrackOk;
    if xs == [] {
      NoTrack(id);
      assert NormAll([]) == [];
    } else {
      var n := |xs| - 1;
      GoodPrefix(xs);
      SenderTrackOk(size, sequence, xs[..n], id);
      var s := SendAll(size, sequence, xs[..n]);
      var t := s.(buffer := s.buffer + [xs[n]]);
      assert t.flushed + t.buffer == xs;
      if |t.buffer| >= size {
        FlushKeepsTrack(t, id);
        assert FlushSender(t).flushed == xs;
      }
    }
  }

  /** What has been sent of a track: every point carries its record and sample, and the last packet shows the newest
      flushed record. */
  lemma {:induction false} SentTracks(size: nat, sequence: u32, xs: seq<Sample>, s: Sender, id: u32)
    requires 1 <= size <= MAX_POINTS && GoodRun(xs)
    requires s == SendAll(size, sequence, xs) || s == Finish(SendAll(size, sequence, xs))
    ensures TrackOk(NormAll(s.packets), s.flushed, id)
  {
    hide GoodRun, SendAll, FlushPackets, TrackOk;
    SenderTrackOk(size, sequence, xs, id);
    if s != SendAll(size, sequence, xs) {
      FlushKeepsTrack(SendAll(size, sequence, xs), id);
    }
  }

  // ----- what a lossless receiver accepts -----

  function Packets(hs: seq<Heard>): (ps: seq<TrackPacket>)
    ensures |ps| == |hs| && forall i :: 0 <= i < |ps| ==> ps[i] == hs[i].pkt
  {
    seq(|hs|, i requires 0 <= i < |hs| => hs[i].pkt)
  }

  lemma {:induction false} NextIsLater(hs: seq<Heard>, ps: seq<TrackPacket>)
    requires |hs| < |ps| && Packets(hs) == ps[..|hs|] && InSequence(ps)
    ensures ps[|hs|].points != [] && Later(hs, ps[|hs|])
  {
    hide Key, TimesAscend;
    assert forall i :: 0 <= i < |hs| ==> Packets(hs)[i] == ps[i];
  }

  /** All delivered datagrams but the one in flight have been accepted. */
  ghost predicate AllHeard(sent: seq<bytes>, inflight: Option<bytes>, hs: seq<Heard>, ps: seq<TrackPacket>) {
    && |hs| <= |ps| && Packets(hs) == ps[..|hs|]
    && |sent| == |hs| + (if inflight.Some? then 1 else 0) && (inflight.Some? ==> inflight.value == sent[|hs|])
  }

  /** Delivered in order and without loss, every packet is accepted. */
  lemma {:induction false} AllAccepted(states: seq<System>, actions: seq<Action>, ps: seq<TrackPacket>, k: nat)
    requires IsRun(states, actions) && Starts(states[0]) && DecodesTo(Delivered(actions), ps) && InSequence(ps)
    requires k <= |actions|
    ensures AllHeard(Delivered(actions[..k]), states[k].inflight, Accepted(states, actions, k), ps)
    decreases k
  {
    hide InSequence, Next, Enabled, Later, Decode, Starts, AllHeard, Accepted, Delivered;
    if k == 0 {
      StartsIdle(states, actions, ps);
    } else {
      AllAccepted(states, actions, ps, k - 1);
      StepInFlight(states[k - 1], actions[k - 1]);
      DeliveredPrefix(actions, k);
      OneMoreAction(states, actions, k);
      StepHeard(Delivered(actions), Delivered(actions[..k - 1]), Delivered(actions[..k]), states[k - 1].inflight,
                states[k].inflight, Accepted(states, actions, k - 1), Accepted(states, actions, k), ps, actions[k - 1]);
    }
  }

  /** What one step delivers and accepts. */
  ghost predicate HeardStep(a: Action, inflight: Option<bytes>, hs: seq<Heard>, hs': seq<Heard>) {
    if !a.Settle? then hs' == hs else
    && inflight.Some?
    && var r := Decode(inflight.value);
       hs' == if r.Ok? && r.value.points != [] && Later(hs, r.value) then hs + [Heard(r.value, a.mono)] else hs
  }

  lemma {:induction false} OneMoreAction(states: seq<System>, actions: seq<Action>, k: nat)
    requires IsRun(states, actions) && 0 < k <= |actions|
    ensures Delivered(actions[..k])
      == Delivered(actions[..k - 1]) + if actions[k - 1].Arrive? then [actions[k - 1].d] else []
    ensures HeardStep(actions[k - 1], states[k - 1].inflight, Accepted(states, actions, k - 1),
                      Accepted(states, actions, k))
  {
    hide Next, Enabled, Decode, Later;
    StepInFlight(states[k - 1], actions[k - 1]);
    assert actions[..k][..k - 1] == actions[..k - 1];
  }

  lemma {:induction false} StepHeard(all: seq<bytes>, sent: seq<bytes>, sent': seq<bytes>, inflight: Option<bytes>,
                                     inflight': Option<bytes>, hs: seq<Heard>, hs': seq<Heard>, ps: seq<TrackPacket>,
                                     a: Action)
    requires AllHeard(sent, inflight, hs, ps) && DecodesTo(all, ps) && InSequence(ps) && sent' <= all
    requires inflight' == match a case Arrive(d) => Some(d) case Settle(_, _) => None case Broadcast(_) => inflight
    requires (a.Arrive? ==> inflight.None?) && (a.Settle? ==> inflight.Some?)
    requires sent' == sent + (if a.Arrive? then [a.d] else []) && HeardStep(a, inflight, hs, hs')
    ensures AllHeard(sent', inflight', hs', ps)
  {
    hide InSequence, Later, Decode;
    if a.Settle? {
      assert Decode(inflight.value) == Ok(ps[|hs|]);
      NextIsLater(hs, ps);
      assert Packets(hs') == ps[..|hs'|];
    }
  }

  lemma StartsIdle(states: seq<System>, actions: seq<Action>, ps: seq<TrackPacket>)
    requires IsRun(states, actions) && Starts(states[0])
    ensures AllHeard(Delivered(actions[..0]), states[0].inflight, Accepted(states, actions, 0), ps)
  {
    hide Next, Enabled;
  }

  lemma {:induction false} StepInFlight(sys: System, a: Action)
    requires Enabled(sys, a)
    ensures Next(sys, a).inflight ==
      match a case Arrive(d) => Some(d) case Settle(_, _) => None case Broadcast(_) => sys.inflight
    ensures (a.Arrive? ==> sys.inflight.None?) && (a.Settle? ==> sys.inflight.Some?)
  {
    NextInflight(sys, a);
    hide Next;
  }

  /** When everything sent has been settled, exactly the sent packets have been accepted, in order. */
  lemma {:induction false} SentIsAccepted(size: nat, sequence: u32, xs: seq<Sample>, s: Sender, states: seq<System>,
                                          actions: seq<Action>)
    requires 1 <= size <= MAX_POINTS && GoodRun(xs)
    requires s == SendAll(size, sequence, xs) || s == Finish(SendAll(size, sequence, xs))
    requires IsRun(states, actions) && Starts(states[0])
    requires Delivered(actions) == Each(s.packets, Encode) && states[|actions|].inflight.None?
    ensures Packets(Accepted(states, actions, |actions|)) == NormAll(s.packets)
  {
    hide GoodRun, SendAll, Finish, IsRun, Starts, InSequence, AllTrails, ForId, Sightings, Encode, Decode, Accepted;
    hide Delivered, SendsVelocity, NotBeyond;
    SenderStaysOk(size, sequence, xs, 0);
    FinishOk(size, sequence, xs, 0);
    var ps, n := NormAll(s.packets), |actions|;
    assert SenderOk(s, 0);
    assert DecodesTo(Delivered(actions), ps);
    assert |states| == n + 1 by { RunLength(states, actions); }
    AllAccepted(states, actions, ps, n);
    assert actions[..n] == actions && ps[..|ps|] == ps;
  }

  lemma {:induction false} LastOfIsLastPacket(hs: seq<Heard>, id: int)
    ensures match LastOf(hs, id)
      case None => LastPacket(Packets(hs), id) == None
      case Some(h) => LastPacket(Packets(hs), id) == Some(h.pkt)
  {
    if hs != [] {
      LastOfIsLastPacket(hs[..|hs| - 1], id);
      assert Packets(hs)[..|hs| - 1] == Packets(hs[..|hs| - 1]);
    }
  }

  // ----- the rows -----

  /** A row shows a record: where it is, how it moves if it says so, and what it is in the receiver's normal form. */
  predicate RowOfRecord(o: ObjectRecord, r: ObjectRecord) {
    && o.id == r.id && o.pos == r.pos && (HasVelocity(o) <==> HasVelocity(r))
    && o.vel == (if HasVelocity(r) then r.vel else ZERO_VEC32)
    && o.kind == NormalizeType(r.kind) && o.confidence == ClampConfidence(r.confidence)
    && (o.flags & 2 != 0 <==> r.flags & 2 != 0)
  }

  lemma {:induction false} SeenHasId(xs: seq<Sample>, id: int, k: nat)
    requires k < |AllSeen(xs, id)|
    ensures var v := AllSeen(xs, id)[k];
      v.r.id == id && exists j :: 0 <= j < |xs| && xs[j] == v.x && v.x.frame.objects != []
  {
    hide Find;
    var n := |xs| - 1;
    if k < |AllSeen(xs[..n], id)| {
      SeenHasId(xs[..n], id, k);
      var j :| 0 <= j < n && xs[..n][j] == AllSeen(xs, id)[k].x;
      assert xs[j] == AllSeen(xs, id)[k].x;
    } else {
      FindBounds(xs[n].frame, |xs[n].frame.objects|, id);
      assert xs[n] == AllSeen(xs, id)[k].x;
    }
  }

  /** The row of a packet shows the record the packet was made from. */
  lemma {:induction false} RowFromNewest(o: ObjectRecord, p: TrackPacket, xs: seq<Sample>)
    requires RowShows(o, p) && FromNewest(p, xs)
    ensures var vs := AllSeen(xs, p.trackId); vs != [] && RowOfRecord(o, vs[|vs| - 1].r)
  {
    hide AllSeen, NormalizeType, ClampConfidence;
    var vs := AllSeen(xs, p.trackId);
    SeenHasId(xs, p.trackId, |vs| - 1);
  }

  /** From the simulator to the rows: under in-order lossless delivery, whatever is broadcast in between, a snapshot
      shows for each id the newest flushed record of that id, one row for each id whose last datagram has not expired,
      and no other rows. */
  lemma {:induction false} LosslessRows(size: nat, sequence: u32, xs: seq<Sample>, s: Sender, states: seq<System>,
                                        actions: seq<Action>, expiry: int, m: int)
    requires 1 <= size <= MAX_POINTS && GoodRun(xs)
    requires s == SendAll(size, sequence, xs) || s == Finish(SendAll(size, sequence, xs))
    requires IsRun(states, actions) && Starts(states[0]) && states[0].store == Initial(expiry)
    requires states[0].receiver.Olv2? && states[|actions|].inflight.None?
    requires Delivered(actions) == Each(s.packets, Encode)
    requires H.ClocksAdvance(RunHistory.Events(states, actions, |actions|) + [H.Snap(m)])
    ensures var hs, rows := Accepted(states, actions, |actions|), SnapshotOf(states[|actions|].store, m).objects;
      && (forall i, j :: 0 <= i < j < |rows| ==> rows[i].id < rows[j].id)
      && (forall i :: 0 <= i < |rows| ==> ShowsNewest(rows[i], s.flushed))
      && (forall id: u32 :: LastOf(hs, id).Some? <==> AllSeen(s.flushed, id) != [])
      && (forall id :: var h := LastOf(hs, id); h.Some? && m - h.value.mono <= expiry ==>
            exists i :: 0 <= i < |rows| && rows[i].id == id)
  {
    hide GoodRun, SendAll, Finish, IsRun, Starts, Encode, Accepted, Delivered, TrackOk, SnapshotOf, AllSeen, LastOf;
    hide RunHistory.Events, H.ClocksAdvance, RowShows, RowOfRecord, Packets;
    var n := |actions|;
    assert |states| == n + 1 by { RunLength(states, actions); }
    SentIsAccepted(size, sequence, xs, s, states, actions);
    RowsShowHeard(states, actions, n, expiry, m);
    var hs, rows := Accepted(states, actions, n), SnapshotOf(states[n].store, m).objects;
    forall i | 0 <= i < |rows|
      ensures ShowsNewest(rows[i], s.flushed)
    {
      assert Showing(rows[i], hs, m, expiry);
      LosslessTrack(size, sequence, xs, s, hs, rows[i].id);
      RowIdIsTrack(rows[i], LastOf(hs, rows[i].id).value.pkt);
      RowFromNewest(rows[i], LastOf(hs, rows[i].id).value.pkt, s.flushed);
    }
    forall id: u32
      ensures LastOf(hs, id).Some? <==> AllSeen(s.flushed, id) != []
    {
      LosslessTrack(size, sequence, xs, s, hs, id);
    }
  }

  lemma RowIdIsTrack(o: ObjectRecord, p: TrackPacket)
    requires RowShows(o, p)
    ensures o.id == p.trackId
  {
  }

  /** The row shows the newest flushed record of its id. */
  ghost predicate ShowsNewest(o: ObjectRecord, flushed: seq<Sample>) {
    var vs := AllSeen(flushed, o.id);
    vs != [] && RowOfRecord(o, vs[|vs| - 1].r)
  }

  /** The last datagram accepted of a track is made from the newest flushed record, if there is one. */
  lemma {:induction false} LosslessTrack(size: nat, sequence: u32, xs: seq<Sample>, s: Sender, hs: seq<Heard>, id: u32)
    requires 1 <= size <= MAX_POINTS && GoodRun(xs)
    requires s == SendAll(size, sequence, xs) || s == Finish(SendAll(size, sequence, xs))
    requires Packets(hs) == NormAll(s.packets)
    ensures match LastOf(hs, id)
      case None => AllSeen(s.flushed, id) == []
      case Some(h) => h.pkt.trackId == id && FromNewest(h.pkt, s.flushed) && AllSeen(s.flushed, id) != []
  {
    hide GoodRun, SendAll, Finish, AllSeen, Packets, LastOf, LastPacket, AllCarry, Carries, HeaderOf;
    SentTracks(size, sequence, xs, s, id);
    LastOfIsLastPacket(hs, id);
  }

  // ----- the satellite -----

  /** The newest sample with an object. */
  ghost predicate NewestWithObject(xs: seq<Sample>, j: nat) {
    j < |xs| && xs[j].frame.objects != [] && forall k :: j < k < |xs| ==> xs[k].frame.objects == []
  }

  lemma {:induction false} ObjectIsSeen(xs: seq<Sample>, k: nat, id: int)
    requires k < |xs| && exists i :: 0 <= i < |xs[k].frame.objects| && xs[k].frame.objects[i].id == id
    ensures exists i :: 0 <= i < |AllSeen(xs, id)| && AllSeen(xs, id)[i].x == xs[k]
  {
    hide Find;
    var n := |xs| - 1;
    FindBounds(xs[k].frame, |xs[k].frame.objects|, id);
    if k < n {
      ObjectIsSeen(xs[..n], k, id);
      var i :| 0 <= i < |AllSeen(xs[..n], id)| && AllSeen(xs[..n], id)[i].x == xs[..n][k];
      assert AllSeen(xs, id)[i].x == xs[k];
    } else {
      assert AllSeen(xs, id)[|AllSeen(xs[..n], id)|].x == xs[k];
    }
  }

  /** Records are seen in the order of their samples. */
  lemma {:induction false} SeenInOrder(xs: seq<Sample>, id: int, i: nat)
    requires GoodRun(xs) && i < |AllSeen(xs, id)|
    ensures var vs := AllSeen(xs, id); Key(vs[i].x.t) <= Key(vs[|vs| - 1].x.t)
    ensures xs != [] && Key(AllSeen(xs, id)[i].x.t) <= Key(xs[|xs| - 1].t)
  {
    hide Find, GoodSample, Key;
    var n := |xs| - 1;
    GoodPrefix(xs);
    if i < |AllSeen(xs[..n], id)| {
      SeenInOrder(xs[..n], id, i);
      assert xs[..n][n - 1] == xs[n - 1];
    }
  }

  /** The accepted datagram with the newest sample time is made from the newest flushed sample with an object. */
  lemma {:induction false} NewestIsFlushed(size: nat, sequence: u32, xs: seq<Sample>, s: Sender, hs: seq<Heard>, i: nat)
    returns (j: nat)
    requires 1 <= size <= MAX_POINTS && GoodRun(xs) && GoodRun(s.flushed)
    requires s == SendAll(size, sequence, xs) || s == Finish(SendAll(size, sequence, xs))
    requires Packets(hs) == NormAll(s.packets) && NewestHeard(hs, i)
    requires forall k :: 0 <= k < |hs| ==>
      var h := LastOf(hs, hs[k].pkt.trackId);
      h.Some? && h.value.pkt.points != [] && Key(LastPoint(hs[k].pkt).t) <= Key(LastPoint(h.value.pkt).t)
    requires LastOf(hs, hs[i].pkt.trackId) == Some(hs[i])
    ensures NewestWithObject(s.flushed, j)
    ensures LastPoint(hs[i].pkt).satPos == s.flushed[j].frame.sat.pos
    ensures LastPoint(hs[i].pkt).flags & 1 != 0 && LastPoint(hs[i].pkt).satVel == s.flushed[j].frame.sat.vel
    ensures hs[i].pkt.satId == s.flushed[j].frame.sat.id
  {
    hide SendAll, Finish, AllSeen, Packets, LastOf, Key, GoodSample;
    var fl, id := s.flushed, hs[i].pkt.trackId;
    LosslessTrack(size, sequence, xs, s, hs, id);
    var vs := AllSeen(fl, id);
    SeenHasId(fl, id, |vs| - 1);
    j :| 0 <= j < |fl| && fl[j] == vs[|vs| - 1].x;
    forall k | j < k < |fl|
      ensures fl[k].frame.objects == []
    {
      if fl[k].frame.objects != [] {
        var other := fl[k].frame.objects[0].id;
        ObjectIsSeen(fl, k, other);
        var l :| 0 <= l < |AllSeen(fl, other)| && AllSeen(fl, other)[l].x == fl[k];
        SeenInOrder(fl, other, l);
        LosslessTrack(size, sequence, xs, s, hs, other);
        HeardOf(hs, other);
        assert false;
      }
    }
  }

  lemma {:induction false} HeardOf(hs: seq<Heard>, id: int)
    ensures LastOf(hs, id).Some? ==> exists i :: 0 <= i < |hs| && hs[i] == LastOf(hs, id).value
  {
    LastOfHeard(hs, id);
  }

  lemma {:induction false} LastOfAt(hs: seq<Heard>, id: int)
    ensures LastOf(hs, id).None? ==> forall k :: 0 <= k < |hs| ==> hs[k].pkt.trackId != id
    ensures LastOf(hs, id).Some? ==>
      exists l :: 0 <= l < |hs| && hs[l] == LastOf(hs, id).value && hs[l].pkt.trackId == id
                  && forall k :: l < k < |hs| ==> hs[k].pkt.trackId != id
  {
    if hs != [] {
      var n := |hs| - 1;
      LastOfAt(hs[..n], id);
      assert forall k :: 0 <= k < n ==> hs[..n][k] == hs[k];
      if hs[n].pkt.trackId == id {
        assert hs[n] == LastOf(hs, id).value;
      }
    }
  }

  /** The newest datagram heard is the last of its track, and the last of a track is its newest. */
  lemma {:induction false} NewestIsLastOf(hs: seq<Heard>, i: nat)
    requires InSequence(Packets(hs)) && NewestHeard(hs, i)
    ensures LastOf(hs, hs[i].pkt.trackId) == Some(hs[i])
  {
    hide Key, InSequence;
    var id := hs[i].pkt.trackId;
    LastOfAt(hs, id);
    var l :| 0 <= l < |hs| && hs[l] == LastOf(hs, id).value && hs[l].pkt.trackId == id
      && forall k :: l < k < |hs| ==> hs[k].pkt.trackId != id;
    if i < l {
      SequenceRises(Packets(hs), i, l);
    }
  }

  lemma {:induction false} SequenceRises(ps: seq<TrackPacket>, i: nat, l: nat)
    requires InSequence(ps) && i < l < |ps| && ps[i].trackId == ps[l].trackId
    ensures ps[i].points != [] && ps[l].points != [] && Key(LastPoint(ps[i]).t) < Key(LastPoint(ps[l]).t)
  {
    hide Key;
    Ascending(ps[l].points, |ps[l].points| - 1);
  }

  /** From the simulator to the satellite: under in-order lossless delivery, whatever is broadcast in between, a
      snapshot shows the satellite of the newest flushed sample that has an object, or none if there is no such
      sample. */
  lemma {:induction false} LosslessSatellite(size: nat, sequence: u32, xs: seq<Sample>, s: Sender, states: seq<System>,
                                             actions: seq<Action>, expiry: int, m: int) returns (j: nat)
    requires 1 <= size <= MAX_POINTS && GoodRun(xs)
    requires s == SendAll(size, sequence, xs) || s == Finish(SendAll(size, sequence, xs))
    requires IsRun(states, actions) && Starts(states[0]) && states[0].store == Initial(expiry)
    requires states[0].receiver.Olv2? && states[|actions|].inflight.None?
    requires Delivered(actions) == Each(s.packets, Encode)
    ensures var sat := SnapshotOf(states[|actions|].store, m).satellite;
      if forall k :: 0 <= k < |s.flushed| ==> s.flushed[k].frame.objects == [] then sat == None
      else NewestWithObject(s.flushed, j) && sat.Some? && SatelliteOfFrame(sat.value, s.flushed[j].frame)
  {
    hide GoodRun, SendAll, Finish, IsRun, Starts, Encode, Accepted, Delivered, TrackOk, SnapshotOf, AllSeen, LastOf;
    hide Packets, InSequence, Key, NewestHeard, NewestWithObject;
    var n := |actions|;
    assert |states| == n + 1 by { RunLength(states, actions); }
    SentIsAccepted(size, sequence, xs, s, states, actions);
    var hs := Accepted(states, actions, n);
    var i := SatelliteShowsHeard(states, actions, n, expiry, m);
    j := 0;
    if hs == [] {
      forall k | 0 <= k < |s.flushed|
        ensures s.flushed[k].frame.objects == []
      {
        NothingSentOf(size, sequence, xs, s, hs, k);
      }
    } else {
      SentInOrder(size, sequence, xs, s);
      NewestIsLastOf(hs, i);
      NewestExists(hs, i);
      AllBelowLast(states, actions, n);
      j := NewestIsFlushed(size, sequence, xs, s, hs, i);
      assert s.flushed[j].frame.objects != [] by { NewestHasObject(s.flushed, j); }
    }
  }

  predicate SatelliteOfFrame(sat: Satellite, f: Frame) {
    sat.id == f.sat.id && sat.pos == f.sat.pos && sat.vel == f.sat.vel
  }

  lemma NewestExists(hs: seq<Heard>, i: nat)
    requires NewestHeard(hs, i)
    ensures i < |hs| && forall k :: 0 <= k < |hs| ==> hs[k].pkt.points != []
  {
  }

  lemma NewestHasObject(xs: seq<Sample>, j: nat)
    requires NewestWithObject(xs, j)
    ensures j < |xs| && xs[j].frame.objects != []
  {
  }

  lemma {:induction false} AllBelowLast(states: seq<System>, actions: seq<Action>, n: nat)
    requires IsRun(states, actions) && n <= |actions|
    requires forall k :: 0 <= k < |Accepted(states, actions, n)| ==> Accepted(states, actions, n)[k].pkt.points != []
    ensures var hs := Accepted(states, actions, n);
      forall k :: 0 <= k < |hs| ==>
        var h := LastOf(hs, hs[k].pkt.trackId);
        h.Some? && h.value.pkt.points != [] && Key(LastPoint(hs[k].pkt).t) <= Key(LastPoint(h.value.pkt).t)
  {
    hide IsRun, Accepted, LastOf, Key;
    var hs := Accepted(states, actions, n);
    forall k | 0 <= k < |hs|
      ensures var h := LastOf(hs, hs[k].pkt.trackId);
        h.Some? && h.value.pkt.points != [] && Key(LastPoint(hs[k].pkt).t) <= Key(LastPoint(h.value.pkt).t)
    {
      LastOfIsNewest(states, actions, n, k, |hs[k].pkt.points| - 1);
    }
  }

  lemma {:induction false} SentInOrder(size: nat, sequence: u32, xs: seq<Sample>, s: Sender)
    requires 1 <= size <= MAX_POINTS && GoodRun(xs)
    requires s == SendAll(size, sequence, xs) || s == Finish(SendAll(size, sequence, xs))
    ensures InSequence(NormAll(s.packets)) && GoodRun(s.flushed)
  {
    hide GoodSample, SendAll, Finish, InSequence, SenderOk, Key;
    SenderStaysOk(size, sequence, xs, 0);
    FinishOk(size, sequence, xs, 0);
    assert SenderOk(s, 0);
    OkInSequence(s);
    var t := SendAll(size, sequence, xs);
    assert forall k :: 0 <= k < |t.flushed| ==> t.flushed[k] == xs[k];
  }

  lemma OkInSequence(s: Sender)
    requires SenderOk(s, 0)
    ensures InSequence(NormAll(s.packets))
  {
    hide InSequence, NormAll, Survive, SendsVelocity, NotBeyond, AllTrails, ForId, Sightings;
  }

  /** When nothing was accepted no flushed sample has an object. */
  lemma {:induction false} NothingSentOf(size: nat, sequence: u32, xs: seq<Sample>, s: Sender, hs: seq<Heard>, k: nat)
    requires 1 <= size <= MAX_POINTS && GoodRun(xs)
    requires s == SendAll(size, sequence, xs) || s == Finish(SendAll(size, sequence, xs))
    requires Packets(hs) == NormAll(s.packets) && hs == [] && k < |s.flushed|
    ensures s.flushed[k].frame.objects == []
  {
    hide GoodRun, SendAll, Finish, AllSeen, Packets, FromNewest;
    if s.flushed[k].frame.objects != [] {
      var id := s.flushed[k].frame.objects[0].id;
      ObjectIsSeen(s.flushed, k, id);
      LosslessTrack(size, sequence, xs, s, hs, id);
    }
  }
}
