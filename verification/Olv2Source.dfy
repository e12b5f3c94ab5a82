/** The OLV2 input source: decode, per-track staleness, translation to a store update. */
module Olv2Source {
  import opened Bytes
  import opened Floats
  import opened Records
  import opened Store
  import opened Olv2Codec

  /** Estimates a satellite velocity from the two newest samples; its rounding is not modelled. */
  type Estimator = (Point, Point) -> Vec32

  /** Newest accepted sample time per track, and the satellite of the last accepted datagram. */
  datatype Tracker = Tracker(lastT: map<int, F64>, lastSatId: Option<u32>)

  /** Item 11: the batch does not start after everything accepted for its track. */
  predicate StaleBatch(tr: Tracker, pkt: TrackPacket)
    requires pkt.points != []
  {
    pkt.trackId in tr.lastT && Key(pkt.points[0].t) <= Key(tr.lastT[pkt.trackId])
  }

  function Newest(pkt: TrackPacket): Point
    requires pkt.points != []
  {
    pkt.points[|pkt.points| - 1]
  }

  predicate TargetHasVelocity(p: Point) {
    p.flags & TGT_HAS_VEL != 0
  }

  predicate SatelliteHasVelocity(p: Point) {
    p.flags & SAT_HAS_VEL != 0
  }

  function TargetOf(pkt: TrackPacket): ObjectRecord
    requires pkt.points != []
  {
    var p := Newest(pkt);
    ObjectRecord(pkt.trackId, pkt.targetType,
                 (pkt.targetFlags & FLAG_HIGHLIGHT) | (if TargetHasVelocity(p) then FLAG_HAS_VELOCITY else 0),
                 pkt.confidence, p.tgtPos, if TargetHasVelocity(p) then p.tgtVel else ZERO_VEC32, 0)
  }

  function SatelliteOf(pkt: TrackPacket, estimate: Estimator): Satellite
    requires pkt.points != []
  {
    var p, n := Newest(pkt), |pkt.points|;
    Satellite(pkt.satId, pkt.sequence, p.satPos,
              if SatelliteHasVelocity(p) then p.satVel
              else if n >= 2 then estimate(pkt.points[n - 2], p)
              else ZERO_VEC32)
  }

  /** Every point of the datagram as a trail point, in wire order. */
  function TrailOf(pkt: TrackPacket): (trail: seq<TrailPoint>)
    ensures |trail| == |pkt.points|
    ensures forall i :: 0 <= i < |trail| ==> trail[i] == TrailPoint(pkt.trackId, pkt.points[i].t, pkt.points[i].tgtPos)
  {
    seq(|pkt.points|, i requires 0 <= i < |pkt.points| =>
      TrailPoint(pkt.trackId, pkt.points[i].t, pkt.points[i].tgtPos))
  }

  function UpdateOf(pkt: TrackPacket, estimate: Estimator): TrackUpdate
    requires pkt.points != []
  {
    TrackUpdate(SatelliteOf(pkt, estimate), Newest(pkt).t, TargetOf(pkt), TrailOf(pkt))
  }

  /** The one thing that happens to a datagram. */
  function Classify(tr: Tracker, estimate: Estimator, d: bytes): Outcome {
    var r := Decode(d);
    if r.Err? then Drop(Malformed) else
    DecodedIsNormal(d);
    if StaleBatch(tr, r.value) then Drop(Stale) else MergeTrack(UpdateOf(r.value, estimate))
  }

  function AfterDatagram(tr: Tracker, d: bytes): Tracker {
    var r := Decode(d);
    if r.Err? then tr else
    DecodedIsNormal(d);
    if StaleBatch(tr, r.value) then tr
    else Tracker(tr.lastT[r.value.trackId := Newest(r.value).t], Some(r.value.satId))
  }

  class Olv2InputSource {
    const store: StateStore
    const estimate: Estimator
    var lastT: map<int, F64>
    var lastSatId: Option<u32>

    ghost function Model(): Tracker
      reads this
    {
      Tracker(lastT, lastSatId)
    }

    constructor (store: StateStore, estimate: Estimator)
      ensures Model() == Tracker(map[], None) && this.store == store && this.estimate == estimate
    {
      this.store := store;
      this.estimate := estimate;
      lastT := map[];
      lastSatId := None;
    }

    /** processDatagram: count, decode, staleness, translate, apply, remember the newest time. */
    method ProcessDatagram(d: bytes, wall: int, mono: int)
      modifies this, store
      ensures Model() == AfterDatagram(old(Model()), d)
      ensures store.Model() == AfterOutcome(AfterReceived(old(store.Model()), |d|),
                                            Classify(old(Model()), estimate, d), wall, mono)
    {
      hide Decode, AfterTrack, AfterDropped, AfterReceived;
      store.CountReceived(|d|);
      var r := DecodePacket(d);
      if r.Err? {
        store.CountDropped(Malformed);
        return;
      }
      DecodedIsNormal(d);
      var pkt := r.value;
      if pkt.trackId in lastT && Key(pkt.points[0].t) <= Key(lastT[pkt.trackId]) {
        store.CountDropped(Stale);
        return;
      }
      var u := Translate(pkt, estimate);
      lastSatId := Some(pkt.satId);
      store.ApplyTrack(u, wall, mono);
      lastT := lastT[pkt.trackId := Newest(pkt).t];
    }
  }

  /** The update is filled in step by step from the newest point, the last two, and all of them. */
  method Translate(pkt: TrackPacket, estimate: Estimator) returns (u: TrackUpdate)
    requires pkt.points != []
    ensures u == UpdateOf(pkt, estimate)
  {
    var n := |pkt.points|;
    var p := pkt.points[n - 1];
    var flags := pkt.targetFlags & FLAG_HIGHLIGHT;
    var targetVel := ZERO_VEC32;
    if TargetHasVelocity(p) {
      flags := flags | FLAG_HAS_VELOCITY;
      targetVel := p.tgtVel;
    } else {
      assert flags | 0 == flags;
    }
    var target := ObjectRecord(pkt.trackId, pkt.targetType, flags, pkt.confidence, p.tgtPos, targetVel, 0);
    var satVel := ZERO_VEC32;
    if SatelliteHasVelocity(p) {
      satVel := p.satVel;
    } else if n >= 2 {
      satVel := estimate(pkt.points[n - 2], p);
    }
    var trail := [];
    for i := 0 to n
      invariant |trail| == i
      invariant forall k :: 0 <= k < i ==> trail[k] == TrailPoint(pkt.trackId, pkt.points[k].t, pkt.points[k].tgtPos)
    {
      trail := trail + [TrailPoint(pkt.trackId, pkt.points[i].t, pkt.points[i].tgtPos)];
    }
    u := TrackUpdate(Satellite(pkt.satId, pkt.sequence, p.satPos, satVel), p.t, target, trail);
  }
}
