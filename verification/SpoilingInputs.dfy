/** Datagrams that are accepted and make the next broadcast unreadable, each as a run. */
module SpoilingInputs {
  import opened Bytes
  import opened Floats
  import opened Records
  import opened Printf
  import opened Store
  import opened StateMessage
  import opened MessageRoundTrip
  import opened SpoiledFrames
  import opened Pipeline
  import opened Broadcasts
  import opened DisBroadcasts
  import ClientMessage
  import DisIds
  import DisSource
  import DisWire
  import Olv2Codec
  import Olv2Source

  // ----- DIS mode: any value that is not finite -----

  predicate FiniteBody(e: DisWire.EntityState) {
    FiniteVec64(e.pos) && FiniteVec32(e.vel)
  }

  lemma {:induction false} NonFinitePosition(p: Vec64)
    requires !FiniteVec64(p)
    ensures !ClientMessage.All(ClientMessage.PositionShown(p), Spells)
  {
    hide Lead;
    var s := ClientMessage.PositionShown(p);
    NotFiniteNoNumber(p.x);
    NotFiniteNoNumber(p.y);
    NotFiniteNoNumber(p.z);
    hide Shown64, Finite64;
    assert s[0] == Shown64(p.x, 1) && s[1] == Shown64(p.y, 1) && s[2] == Shown64(p.z, 1);
    assert !Spells(s[0]) || !Spells(s[1]) || !Spells(s[2]);
  }

  lemma NotFiniteNoNumber(b: F64)
    ensures Finite64(b) || !Shown64(b, 1).Fixed?
  {
  }

  /** A record made from such a PDU spoils the frame. */
  lemma {:induction false} RecordSpoils(e: DisWire.EntityState)
    requires !FiniteBody(e)
    ensures !ClientMessage.All(ClientMessage.RowShown(DisSource.RecordOf(e)), Spells)
  {
    hide ClientMessage.All, ClientMessage.RowShown, ClientMessage.PositionShown, ClientMessage.VelocityShown, Spells;
    hide FiniteVec64, FiniteVec32, DisIds.Fold, DisSource.MapObjectType, Shown32;
    var o := DisSource.RecordOf(e);
    AllFloats(o, Spells);
    VelocitySpellsIff(e.vel);
    if !FiniteVec64(e.pos) {
      NonFinitePosition(e.pos);
    }
  }

  lemma {:induction false} SatelliteSpoils(s: Satellite)
    requires !FiniteVec64(s.pos) || !FiniteVec32(s.vel)
    ensures !ClientMessage.All(ClientMessage.SatelliteShown(s), Spells)
  {
    hide ClientMessage.All, ClientMessage.PositionShown, ClientMessage.VelocityShown, Spells, FiniteVec64, FiniteVec32;
    AllSplits(ClientMessage.PositionShown(s.pos), ClientMessage.VelocityShown(s.vel), Spells);
    VelocitySpellsIff(s.vel);
    if !FiniteVec64(s.pos) {
      NonFinitePosition(s.pos);
    }
  }

  /** What settling an accepted PDU leaves in the store. */
  lemma {:induction false} AcceptedIsStored(sys: System, wall: int, mono: int, e: DisWire.EntityState)
    requires sys.receiver.Dis? && InStep(sys) && sys.inflight.Some?
    requires DisSource.Judge(sys.receiver.cfg, sys.receiver.dis, sys.inflight.value) == DisSource.Accepted(e)
    ensures var s, t := sys.store, Next(sys, Settle(wall, mono)).store;
      && t.stats.accepted == s.stats.accepted + 1 && t.expiry == s.expiry
      && (if e.id == sys.receiver.cfg.satellite
          then t.satellite.Some? && t.satellite.value.pos == e.pos && t.satellite.value.vel == e.vel
          else var rec := DisSource.RecordOf(e); rec.id in t.objects && t.objects[rec.id] == Stored(rec, mono))
  {
    hide DisSource.Judge, DisIds.Fold, DisSource.RecordOf, Rejects, Upsert;
    DisNeverRejected(sys);
    UpsertOne(sys.store.objects, DisSource.RecordOf(e), mono);
  }

  lemma UpsertOne(objects: Table, rec: ObjectRecord, mono: int)
    ensures var t := Upsert(objects, [rec], mono); rec.id in t && t[rec.id] == Stored(rec, mono)
  {
  }

  /** In any DIS run, once a PDU with an infinite or undefined value has been accepted, broadcasts are not JSON
      until it is replaced or expires. */
  lemma {:induction false} NonFinitePduSpoilsFrame(states: seq<System>, actions: seq<Action>, k: nat,
                                                   e: DisWire.EntityState, m: int, b: Broadcast)
    requires IsRun(states, actions) && Starts(states[0]) && states[0].receiver.Dis? && k < |actions| < TWO64
    requires actions[k].Settle? && states[k].inflight.Some? && states[k].receiver.Dis?
    requires DisSource.Judge(states[k].receiver.cfg, states[k].receiver.dis, states[k].inflight.value)
             == DisSource.Accepted(e)
    requires !FiniteBody(e) && GoodBroadcast(b) && m - actions[k].mono <= states[k].store.expiry
    ensures states[k + 1].store.stats.accepted == states[k].store.stats.accepted + 1
    ensures ClientMessage.ParseStateMessage(BroadcastText(states[k + 1], m, b))
      == Err(ClientMessage.NotJson)
  {
    hide Next, Enabled, Starts, InStep, Balanced, DisSource.Judge, GoodBroadcast, ClientMessage.ParseStateMessage;
    hide BroadcastText, Spells, ClientMessage.All, ClientMessage.RowShown, ClientMessage.SatelliteShown;
    hide DisSource.RecordOf, FiniteVec64, FiniteVec32;
    AccountingHolds(states, actions, k);
    var a := actions[k];
    AcceptedIsStored(states[k], a.wall, a.mono, e);
    DisBroadcastUnreadableIff(states, actions, k + 1, m, b);
    var s := states[k + 1].store;
    if e.id == states[k].receiver.cfg.satellite {
      SatelliteSpoils(s.satellite.value);
    } else {
      RecordSpoils(e);
      assert s.objects[DisSource.RecordOf(e).id].obj == DisSource.RecordOf(e);
    }
  }

  // ----- runs of one datagram -----

  /** The run that receives one datagram. */
  function OneDatagram(expiry: int, r: Receiver, d: bytes, wall: int, mono: int): seq<System> {
    var s0 := System(Initial(expiry), r, None, [], 0);
    var s1 := Next(s0, Arrive(d));
    [s0, s1, Next(s1, Settle(wall, mono))]
  }

  lemma {:induction false} OneDatagramRuns(expiry: int, r: Receiver, d: bytes, wall: int, mono: int)
    requires FreshReceiver(r)
    ensures var run, actions := OneDatagram(expiry, r, d, wall, mono), [Arrive(d), Settle(wall, mono)];
      && IsRun(run, actions) && Starts(run[0]) && run[0].receiver == r
      && run[1] == System(AfterReceived(Initial(expiry), |d|), r, Some(d), [], 0)
  {
    hide Next;
    var run, actions := OneDatagram(expiry, r, d, wall, mono), [Arrive(d), Settle(wall, mono)];
    var s0 := System(Initial(expiry), r, None, [], 0);
    ArriveLeavesInFlight(s0, d);
    assert run[0] == s0 && run[1] == Next(s0, Arrive(d)) && run[2] == Next(run[1], Settle(wall, mono));
    assert Enabled(run[0], actions[0]) && Enabled(run[1], actions[1]);
    assert actions[0] == Arrive(d) && actions[1] == Settle(wall, mono);
  }

  lemma ArriveLeavesInFlight(s0: System, d: bytes)
    requires s0.inflight.None?
    ensures Next(s0, Arrive(d)) == s0.(store := AfterReceived(s0.store, |d|), inflight := Some(d))
  {
  }

  /** Positive infinity. */
  const INFINITY: F64 := 0x7FF0_0000_0000_0000

  /** The bytes of an Entity State PDU of any entity whose first coordinate is infinite. */
  function InfinitePdu(cfg: DisSource.Config, id: DisIds.EntityId): bytes {
    DisWire.Marshal(DisWire.Pdu(if cfg.exercise.Some? then cfg.exercise.value else 1, 0, InfiniteState(id)))
  }

  function InfiniteState(id: DisIds.EntityId): DisWire.EntityState {
    DisWire.EntityState(id, 1, 5, Vec64(INFINITY, 0, 0), ZERO_VEC32)
  }

  lemma {:induction false} InfinitePduAccepted(cfg: DisSource.Config, id: DisIds.EntityId)
    ensures DisSource.Judge(cfg, DisSource.Fresh(), InfinitePdu(cfg, id)) == DisSource.Accepted(InfiniteState(id))
  {
    hide DisIds.Pack48, DisSource.Ticks, DisWire.Unmarshal, DisWire.HeaderBytes, DisWire.EntityBytes;
    hide DisWire.MotionBytes;
    DisWire.UnmarshalMarshal(
      DisWire.Pdu(if cfg.exercise.Some? then cfg.exercise.value else 1, 0, InfiniteState(id)));
  }

  /** Nothing stops an infinite coordinate in DIS mode: for any entity, satellite or not, the 144-byte PDU is
      accepted and the next broadcast is not JSON. */
  lemma {:induction false} InfinitePduSpoilsFrame(cfg: DisSource.Config, id: DisIds.EntityId, expiry: int, wall: int,
                                                  mono: int, m: int, b: Broadcast)
    requires GoodBroadcast(b) && m - mono <= expiry
    ensures var d, r := InfinitePdu(cfg, id), Dis(cfg, DisSource.Fresh());
      var run := OneDatagram(expiry, r, d, wall, mono);
      && |d| == 144 && DisWire.Unmarshal(d) == Some(InfiniteState(id))
      && IsRun(run, [Arrive(d), Settle(wall, mono)]) && Starts(run[0]) && run[2].store.stats.accepted == 1
      && ClientMessage.ParseStateMessage(BroadcastText(run[2], m, b)) == Err(ClientMessage.NotJson)
  {
    hide ClientMessage.ParseStateMessage, GoodBroadcast, BroadcastText, Next, Enabled, InfinitePdu, DisSource.Judge;
    hide DisWire.Unmarshal;
    var d, r := InfinitePdu(cfg, id), Dis(cfg, DisSource.Fresh());
    InfiniteBytes(cfg, id);
    OneDatagramRuns(expiry, r, d, wall, mono);
    InfinitePduAccepted(cfg, id);
    NonFinitePduSpoilsFrame(OneDatagram(expiry, r, d, wall, mono), [Arrive(d), Settle(wall, mono)], 1,
                            InfiniteState(id), m, b);
  }

  lemma {:induction false} InfiniteBytes(cfg: DisSource.Config, id: DisIds.EntityId)
    ensures |InfinitePdu(cfg, id)| == 144 && DisWire.Unmarshal(InfinitePdu(cfg, id)) == Some(InfiniteState(id))
  {
    hide DisWire.Unmarshal;
    DisWire.UnmarshalMarshal(
      DisWire.Pdu(if cfg.exercise.Some? then cfg.exercise.value else 1, 0, InfiniteState(id)));
  }

  // ----- OLV2 mode -----

  function Olv2Run(pkt: Olv2Codec.TrackPacket, estimate: Olv2Source.Estimator, expiry: int, wall: int, mono: int):
    seq<System> {
    OneDatagram(expiry, Olv2(Olv2Source.Tracker(map[], None), estimate), Olv2Codec.Encode(pkt), wall, mono)
  }

  /** The run that receives the packet, when it is accepted. */
  lemma {:induction false} AcceptedOnItsOwn(pkt: Olv2Codec.TrackPacket, estimate: Olv2Source.Estimator, expiry: int,
                                            wall: int, mono: int)
    requires Olv2Codec.Decode(Olv2Codec.Encode(pkt)) == Ok(pkt) && 1 <= |pkt.points| <= Olv2Codec.MAX_POINTS
    ensures var run := Olv2Run(pkt, estimate, expiry, wall, mono);
      && IsRun(run, [Arrive(Olv2Codec.Encode(pkt)), Settle(wall, mono)])
      && Starts(run[0]) && run[0].receiver.Olv2? && run[2].store.stats.accepted == 1
      && run[2].store.satellite == Some(Olv2Source.SatelliteOf(pkt, estimate))
      && run[2].store.pending == Olv2Source.TrailOf(pkt)
  {
    hide Olv2Codec.Decode, Olv2Codec.Encode, Olv2Source.SatelliteOf, Olv2Source.TargetOf;
    var d, r := Olv2Codec.Encode(pkt), Olv2(Olv2Source.Tracker(map[], None), estimate);
    OneDatagramRuns(expiry, r, d, wall, mono);
    assert [] + Olv2Source.TrailOf(pkt) == Olv2Source.TrailOf(pkt);
  }

  /** One point at 2^150 seconds. */
  function LongTimePacket(): Olv2Codec.TrackPacket {
    Olv2Codec.TrackPacket(0, 0, 0, 0, 0, 0,
                          [Olv2Codec.Point(LONG_TIME, 0, ZERO_VEC64, ZERO_VEC64, ZERO_VEC32, ZERO_VEC32)])
  }

  lemma {:induction false} LongTimeSurvives()
    ensures Olv2Codec.Decode(Olv2Codec.Encode(LongTimePacket())) == Ok(LongTimePacket())
  {
    hide Olv2Codec.Decode, Olv2Codec.Encode;
    var pkt := LongTimePacket();
    Olv2Codec.SurvivesIff(pkt);
    assert Olv2Codec.Norm(pkt).points == pkt.points;
  }

  /** The claim that validation bounds every printed value fails for sample times: this datagram is accepted, and
      the next broadcast is not JSON. */
  lemma {:induction false} AcceptedTimeSpoilsFrame(estimate: Olv2Source.Estimator, expiry: int, wall: int, mono: int,
                                                   m: int, b: Broadcast)
    requires GoodBroadcast(b)
    ensures var run := Olv2Run(LongTimePacket(), estimate, expiry, wall, mono);
      && IsRun(run, [Arrive(Olv2Codec.Encode(LongTimePacket())), Settle(wall, mono)])
      && Starts(run[0]) && run[2].store.stats.accepted == 1
      && ClientMessage.ParseStateMessage(BroadcastText(run[2], m, b)) == Err(ClientMessage.NotJson)
  {
    hide ClientMessage.ParseStateMessage, GoodBroadcast, BroadcastText, Next, Enabled, Olv2Run, BarePoint;
    hide Olv2Codec.Decode, Olv2Codec.Encode;
    var pkt := LongTimePacket();
    LongTimeSurvives();
    LongTimeIsBare();
    AcceptedOnItsOwn(pkt, estimate, expiry, wall, mono);
    var run := Olv2Run(pkt, estimate, expiry, wall, mono);
    Olv2BroadcastUnreadableIff(run, [Arrive(Olv2Codec.Encode(pkt)), Settle(wall, mono)], 2, m, b);
    assert run[2].store.pending[0].t == LONG_TIME;
  }

  /** A datagram without satellite velocities whose estimate overflows is accepted, and the broadcasts that show
      its satellite are not JSON. */
  lemma {:induction false} EstimateSpoilsFrame(pkt: Olv2Codec.TrackPacket, estimate: Olv2Source.Estimator,
                                               expiry: int, wall: int, mono: int, m: int, b: Broadcast)
    requires GoodBroadcast(b)
    requires Olv2Codec.Decode(Olv2Codec.Encode(pkt)) == Ok(pkt) && 2 <= |pkt.points| <= Olv2Codec.MAX_POINTS
    requires var p := pkt.points[|pkt.points| - 1];
      !Olv2Source.SatelliteHasVelocity(p) && !FiniteVec32(estimate(pkt.points[|pkt.points| - 2], p))
    ensures var run := Olv2Run(pkt, estimate, expiry, wall, mono);
      && IsRun(run, [Arrive(Olv2Codec.Encode(pkt)), Settle(wall, mono)])
      && Starts(run[0]) && run[2].store.stats.accepted == 1
      && ClientMessage.ParseStateMessage(BroadcastText(run[2], m, b)) == Err(ClientMessage.NotJson)
  {
    hide ClientMessage.ParseStateMessage, GoodBroadcast, BroadcastText, Next, Enabled, Olv2Run, BarePoint;
    hide Olv2Codec.Decode, Olv2Codec.Encode, FiniteVec32;
    AcceptedOnItsOwn(pkt, estimate, expiry, wall, mono);
    var run := Olv2Run(pkt, estimate, expiry, wall, mono);
    Olv2BroadcastUnreadableIff(run, [Arrive(Olv2Codec.Encode(pkt)), Settle(wall, mono)], 2, m, b);
  }

  /** A difference quotient of 2^129 or more has no finite binary32. */
  ghost predicate Overflows(estimate: Olv2Source.Estimator) {
    forall p: Olv2Codec.Point, q: Olv2Codec.Point ::
      Olv2Codec.FinitePoint(p) && Olv2Codec.FinitePoint(q) && Key(p.t) < Key(q.t)
      && Floats.Value(q.satPos.x) - Floats.Value(p.satPos.x)
         >= Pow2(129) * (Floats.Value(q.t) - Floats.Value(p.t))
      ==> !Finite32(estimate(p, q).x)
  }

  /** The pattern of one meter. */
  const ONE: F64 := 0x3FF0_0000_0000_0000

  /** Two samples a meter and 2^-1074 seconds apart, without velocities. */
  function ClosePacket(): Olv2Codec.TrackPacket {
    Olv2Codec.TrackPacket(0, 0, 0, 0, 0, 0,
      [Olv2Codec.Point(1, 0, ZERO_VEC64, ZERO_VEC64, ZERO_VEC32, ZERO_VEC32),
       Olv2Codec.Point(2, 0, Vec64(ONE, 0, 0), ZERO_VEC64, ZERO_VEC32, ZERO_VEC32)])
  }

  lemma {:induction false} ClosePacketSurvives()
    ensures Olv2Codec.Decode(Olv2Codec.Encode(ClosePacket())) == Ok(ClosePacket())
  {
    hide Olv2Codec.Decode, Olv2Codec.Encode;
    var pkt := ClosePacket();
    Olv2Codec.SurvivesIff(pkt);
    assert Olv2Codec.Norm(pkt).points == pkt.points;
  }

  lemma {:induction false} OneMeter()
    ensures Floats.Value(ONE) == Pow2(1074) && Floats.Value(0) == 0 && Floats.Value(1) == 1 && Floats.Value(2) == 2
  {
    hide Pow2;
    Pow2Of52();
    Pow2Add(52, 1022);
  }

  /** If such a quotient overflows, two samples close in time are accepted and the next broadcast is not JSON. */
  lemma {:induction false} CloseSamplesSpoilFrame(estimate: Olv2Source.Estimator, expiry: int, wall: int, mono: int,
                                                  m: int, b: Broadcast)
    requires GoodBroadcast(b) && Overflows(estimate)
    ensures var run := Olv2Run(ClosePacket(), estimate, expiry, wall, mono);
      && IsRun(run, [Arrive(Olv2Codec.Encode(ClosePacket())), Settle(wall, mono)])
      && Starts(run[0]) && run[2].store.stats.accepted == 1
      && ClientMessage.ParseStateMessage(BroadcastText(run[2], m, b)) == Err(ClientMessage.NotJson)
  {
    hide ClientMessage.ParseStateMessage, GoodBroadcast, BroadcastText, Next, Enabled, Olv2Run, Pow2, Floats.Value;
    hide Olv2Codec.Decode, Olv2Codec.Encode;
    ClosePacketSurvives();
    OneMeter();
    Pow2Monotone(129, 1074);
    var p, q := ClosePacket().points[0], ClosePacket().points[1];
    assert Olv2Codec.FinitePoint(p) && Olv2Codec.FinitePoint(q);
    assert !Finite32(estimate(p, q).x);
    EstimateSpoilsFrame(ClosePacket(), estimate, expiry, wall, mono, m, b);
  }
}
