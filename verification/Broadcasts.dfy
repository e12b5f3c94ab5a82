/** From the first datagram to the viewer: every broadcast of every run, in each of the three modes. */
module Broadcasts {
  import opened Bytes
  import opened Floats
  import opened Records
  import opened Decimal
  import opened Json
  import opened Printf
  import opened Store
  import opened StateMessage
  import opened ClientMessage
  import opened MessageRoundTrip
  import opened SnapshotFits
  import opened SpoiledFrames
  import opened Pipeline
  import Olv1Codec
  import Olv2Codec
  import DisSource
  import Olv2Source

  // ----- what the store holds -----

  /** Everything the store holds passed a decoder's checks, but for the satellite's velocity. */
  ghost predicate StoreDecoded(s: Store.State) {
    && (s.satellite.Some? ==> VecInRange(s.satellite.value.pos))
    && (forall id :: id in s.objects ==> DecodedObject(s.objects[id].obj))
    && AllTrailDecoded(s.pending)
  }

  predicate AllTrailDecoded(points: seq<TrailPoint>) {
    forall i :: 0 <= i < |points| ==> DecodedTrail(points[i])
  }

  /** The velocity of the stored satellite is finite. */
  predicate VelocityFinite(s: Store.State) {
    s.satellite.Some? ==> FiniteVec32(s.satellite.value.vel)
  }

  /** An OLV1 source never queues trail points, and sends every velocity. */
  ghost predicate Olv1Holds(sys: System) {
    sys.receiver.Olv1? ==> sys.store.pending == [] && VelocityFinite(sys.store)
  }

  lemma {:induction false} UpsertDecoded(objects: Table, records: seq<ObjectRecord>, mono: int)
    requires forall id :: id in objects ==> DecodedObject(objects[id].obj)
    requires forall i :: 0 <= i < |records| ==> DecodedObject(records[i])
    ensures forall id :: id in Upsert(objects, records, mono) ==> DecodedObject(Upsert(objects, records, mono)[id].obj)
  {
    hide DecodedObject;
    if records != [] {
      UpsertDecoded(objects, records[..|records| - 1], mono);
    }
  }

  lemma {:induction false} ApplyDecoded(s: Store.State, d: bytes, wall: int, mono: int)
    requires StoreDecoded(s) && Olv1Codec.Decode(d).Ok?
    ensures var t := AfterApply(s, Olv1Codec.Decode(d).value, wall, mono);
      StoreDecoded(t) && (VelocityFinite(s) ==> VelocityFinite(t))
  {
    hide Olv1Codec.Decode, Olv1Codec.Norm, Rejects, Upsert, VecInRange, FiniteVec32, FiniteVec64, Finite32;
    hide DecodedTrail;
    var pkt := Olv1Codec.Decode(d).value;
    Olv1Codec.DecodedIsNormal(d);
    Olv1Codec.RecordsErrorIff(pkt.objects);
    hide Olv1Codec.RecordsError;
    assert forall i :: 0 <= i < |pkt.objects| ==> Olv1Codec.GoodRecord(pkt.objects[i]);
    UpsertDecoded(s.objects, pkt.objects, mono);
  }

  lemma {:induction false} UpdateDecoded(d: bytes, estimate: Olv2Source.Estimator)
    requires Olv2Codec.Decode(d).Ok? && Olv2Codec.Decode(d).value.points != []
    ensures var u := Olv2Source.UpdateOf(Olv2Codec.Decode(d).value, estimate);
      VecInRange(u.satellite.pos) && DecodedObject(u.target) && AllTrailDecoded(u.trail)
  {
    hide Olv2Codec.Decode, Olv2Codec.Norm, VecInRange, FiniteVec64, Key, Finite64;
    var pkt := Olv2Codec.Decode(d).value;
    Olv2Codec.DecodedIsNormal(d);
    Olv2Codec.PointsErrorIff(pkt.points);
    hide Olv2Codec.PointsError;
    var p := Olv2Source.Newest(pkt);
    assert Olv2Codec.FinitePoint(p) && Olv2Codec.PointInRange(p);
    ZeroIsFinite();
    hide FiniteVec32, Finite32;
    forall i | 0 <= i < |pkt.points|
      ensures DecodedTrail(Olv2Source.TrailOf(pkt)[i])
    {
      assert Olv2Codec.FinitePoint(pkt.points[i]) && Olv2Codec.PointInRange(pkt.points[i]);
    }
  }

  lemma ZeroIsFinite()
    ensures FiniteVec32(ZERO_VEC32) && Finite32(0)
  {
  }

  lemma TrackDecoded(s: Store.State, u: TrackUpdate, wall: int, mono: int)
    requires StoreDecoded(s) && VecInRange(u.satellite.pos) && DecodedObject(u.target) && AllTrailDecoded(u.trail)
    ensures StoreDecoded(AfterTrack(s, u, wall, mono))
  {
    hide VecInRange, DecodedObject, DecodedTrail, ReplacesSatellite;
  }

  lemma {:induction false} NextKeepsDecoded(sys: System, a: Action)
    requires Enabled(sys, a) && StoreDecoded(sys.store) && Olv1Holds(sys) && !sys.receiver.Dis?
    ensures StoreDecoded(Next(sys, a).store) && Olv1Holds(Next(sys, a))
  {
    hide VecInRange, DecodedObject, DecodedTrail, AfterTrack, Olv1Codec.Decode, Olv2Codec.Decode;
    hide Olv2Source.StaleBatch, Olv2Source.UpdateOf, DropOld, Rows, Rejects, Upsert, FiniteVec32;
    if a.Settle? {
      var d := sys.inflight.value;
      if sys.receiver.Olv1? {
        if Olv1Codec.Decode(d).Ok? {
          ApplyDecoded(sys.store, d, a.wall, a.mono);
        }
      } else if Olv2Codec.Decode(d).Ok? {
        Olv2Codec.DecodedIsNormal(d);
        UpdateDecoded(d, sys.receiver.estimate);
        TrackDecoded(sys.store, Olv2Source.UpdateOf(Olv2Codec.Decode(d).value, sys.receiver.estimate), a.wall, a.mono);
      }
    }
  }

  /** A receiver never changes its mode. */
  lemma NextKeepsMode(sys: System, a: Action)
    requires Enabled(sys, a)
    ensures var r, t := sys.receiver, Next(sys, a).receiver;
      (r.Olv1? <==> t.Olv1?) && (r.Olv2? <==> t.Olv2?) && (r.Dis? <==> t.Dis?)
  {
    hide Classify, AfterOutcome, AfterReceived, AfterSnapshot, SnapshotOf, Olv2Source.AfterDatagram;
    hide DisSource.AfterDatagram;
  }

  lemma {:induction false} ModeStays(states: seq<System>, actions: seq<Action>, k: nat)
    requires IsRun(states, actions) && k <= |actions|
    ensures var r, t := states[0].receiver, states[k].receiver;
      (r.Olv1? <==> t.Olv1?) && (r.Olv2? <==> t.Olv2?) && (r.Dis? <==> t.Dis?)
  {
    hide Next, Enabled;
    if k != 0 {
      ModeStays(states, actions, k - 1);
      NextKeepsMode(states[k - 1], actions[k - 1]);
    }
  }

  lemma {:induction false} RunsStayDecoded(states: seq<System>, actions: seq<Action>, k: nat)
    requires IsRun(states, actions) && Starts(states[0]) && k <= |actions| && !states[0].receiver.Dis?
    ensures StoreDecoded(states[k].store) && Olv1Holds(states[k])
  {
    hide Next, Enabled;
    if k != 0 {
      hide Starts, Olv1Holds;
      RunsStayDecoded(states, actions, k - 1);
      ModeStays(states, actions, k - 1);
      NextKeepsDecoded(states[k - 1], actions[k - 1]);
    }
  }

  lemma {:induction false} SnapshotDecoded(s: Store.State, mono: int)
    requires StoreDecoded(s)
    ensures FromDecoders(SnapshotOf(s, mono))
  {
    hide VecInRange, DecodedObject, DecodedTrail, DropOld, Rows;
    var kept := DropExpired(s.objects, s.expiry, mono);
    var ids := RowsAreRecords(kept);
    var rows := SnapshotOf(s, mono).objects;
    forall i | 0 <= i < |rows|
      ensures DecodedObject(rows[i])
    {
      KeptAre(s.objects, s.expiry, mono, ids[i]);
      assert rows[i] == s.objects[ids[i]].obj;
    }
  }

  /** A rate is read back, whatever is in the store. */
  lemma {:induction false} RateReadsBack(s: Store.State, mono: int)
    requires |s.acceptTimes| < TWO64
    ensures Survives(ShownRate(SnapshotOf(s, mono).rateHz))
  {
    hide DropExpired, DropOld, Rows, Fits, Survives;
    var n := |DropOld(s.acceptTimes, mono)|;
    DropOldShrinks(s.acceptTimes, mono);
    ShownCount(n);
    hide ShownRate, Pow10;
    Pow10Of20();
    Pow10Add(20, 20);
    Pow10Monotone(40, 45);
    FewUnitsFit(ShownRate(n as real / 5.0));
    FitsSurvives(ShownRate(n as real / 5.0));
  }

  lemma {:induction false} ShownCount(n: nat)
    ensures ShownRate(n as real / 5.0) == Fixed(false, 20 * n, 2)
  {
    assert n as real / 5.0 * 100.0 == (20 * n) as real;
  }

  lemma {:induction false} DropOldShrinks(times: seq<int>, mono: int)
    ensures |DropOld(times, mono)| <= |times|
    decreases |times|
  {
    if times != [] && mono - times[0] > RATE_WINDOW {
      DropOldShrinks(times[1..], mono);
    }
  }

  lemma {:induction false} AcceptsAreSteps(states: seq<System>, actions: seq<Action>, k: nat)
    requires IsRun(states, actions) && Starts(states[0]) && k <= |actions|
    ensures |states[k].store.acceptTimes| <= k
  {
    hide Next, Enabled;
    if k != 0 {
      AcceptsAreSteps(states, actions, k - 1);
      OneMoreAccept(states[k - 1], actions[k - 1]);
    }
  }

  lemma {:induction false} OneMoreAccept(sys: System, a: Action)
    requires Enabled(sys, a)
    ensures |Next(sys, a).store.acceptTimes| <= |sys.store.acceptTimes| + 1
  {
    hide Classify, AfterDatagram, Upsert, Rejects, ReplacesSatellite, DropExpired, DropOld, Rows;
    if a.Broadcast? {
      DropOldShrinks(sys.store.acceptTimes, a.mono);
    }
  }

  /** The text broadcast at clock time `mono` from a state of the system. */
  function BroadcastText(sys: System, mono: int, b: Broadcast): string {
    FrameText(sys.store, mono, b)
  }

  // ----- the binary modes -----

  /** In an OLV1 run, whatever arrives, the viewer recovers every broadcast. */
  lemma {:induction false} Olv1BroadcastsAreRecovered(states: seq<System>, actions: seq<Action>, k: nat, mono: int,
                                                      b: Broadcast)
    requires IsRun(states, actions) && Starts(states[0]) && k <= |actions| && states[0].receiver.Olv1?
    requires GoodBroadcast(b) && |actions| < TWO64
    ensures ParseStateMessage(BroadcastText(states[k], mono, b)) == Ok(Faithful(SnapshotOf(states[k].store, mono), b))
  {
    hide Next, Enabled, Starts, GoodBroadcast, Faithful, ParseStateMessage, StateTree, Print, StoreDecoded;
    hide FromDecoders, Survives, ShownRate;
    RunsStayDecoded(states, actions, k);
    ModeStays(states, actions, k);
    AcceptsAreSteps(states, actions, k);
    SnapshotDecoded(states[k].store, mono);
    RateReadsBack(states[k].store, mono);
    DecodedRecoveredIff(SnapshotOf(states[k].store, mono), b);
  }

  /** Every sample time prints with at most 45 or exactly 47 digits before the point. */
  predicate TimesPrint(points: seq<TrailPoint>) {
    forall i :: 0 <= i < |points| ==> TimePrints(points[i].t)
  }

  /** In an OLV2 run, whatever arrives and however velocities are estimated, the viewer recovers a broadcast
      exactly when the stored satellite velocity is finite and every sample time in it prints with at most 45 or
      exactly 47 digits before the point. With any other velocity it cannot read the frame at all. */
  lemma {:induction false} Olv2BroadcastsAreRecoveredIff(states: seq<System>, actions: seq<Action>, k: nat,
                                                         mono: int, b: Broadcast)
    requires IsRun(states, actions) && Starts(states[0]) && k <= |actions| && states[0].receiver.Olv2?
    requires GoodBroadcast(b) && |actions| < TWO64
    ensures ParseStateMessage(BroadcastText(states[k], mono, b)) == Ok(Faithful(SnapshotOf(states[k].store, mono), b))
      <==> VelocityFinite(states[k].store) && TimesPrint(states[k].store.pending)
    ensures !VelocityFinite(states[k].store) ==> ParseStateMessage(BroadcastText(states[k], mono, b)) == Err(NotJson)
    ensures AllTrailDecoded(states[k].store.pending)
  {
    hide Next, Enabled, GoodBroadcast, Faithful, ParseStateMessage, StateTree, Print, Survives, ShownRate, Starts;
    hide Olv1Holds;
    hide FromDecoders, TimePrints, DecodedObject, FiniteVec32, VecInRange, DecodedTrail;
    RunsStayDecoded(states, actions, k);
    AcceptsAreSteps(states, actions, k);
    SnapshotDecoded(states[k].store, mono);
    RateReadsBack(states[k].store, mono);
    var snap := SnapshotOf(states[k].store, mono);
    DecodedRecoveredIff(snap, b);
    DecodedUnreadableIff(snap, b);
  }

  /** In an OLV2 run a broadcast is not JSON exactly when the stored satellite velocity is not finite or a waiting
      sample time has 46 digits before the point. */
  lemma {:induction false} Olv2BroadcastUnreadableIff(states: seq<System>, actions: seq<Action>, k: nat, mono: int,
                                                      b: Broadcast)
    requires IsRun(states, actions) && Starts(states[0]) && k <= |actions| && states[0].receiver.Olv2?
    requires GoodBroadcast(b) && |actions| < TWO64
    ensures ParseStateMessage(BroadcastText(states[k], mono, b)) == Err(NotJson) <==>
      var points := states[k].store.pending;
      !VelocityFinite(states[k].store) || exists i :: 0 <= i < |points| && BarePoint(points[i].t)
  {
    hide Next, Enabled, GoodBroadcast, ParseStateMessage, StateTree, Print, Survives, ShownRate, Starts;
    hide Olv1Holds, FromDecoders, BarePoint, FiniteVec32;
    RunsStayDecoded(states, actions, k);
    AcceptsAreSteps(states, actions, k);
    SnapshotDecoded(states[k].store, mono);
    RateReadsBack(states[k].store, mono);
    DecodedUnreadableIff(SnapshotOf(states[k].store, mono), b);
  }
}
