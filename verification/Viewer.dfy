/** The two ends joined: what the simulator sampled against what the viewer reads. */
module Viewer {
  import opened Bytes
  import opened Records
  import opened Collections
  import opened Store
  import opened StateMessage
  import opened Json
  import opened ClientMessage
  import opened MessageRoundTrip
  import opened Pipeline
  import opened Broadcasts
  import opened Batcher
  import opened EndToEnd
  import Olv2Codec
  import Olv2Source
  import opened SnapshotFits

  /** The trail points a viewer takes from one frame. */
  function PointsIn(text: string): seq<ClientTrailPoint> {
    var r := ParseStateMessage(text);
    if r.Ok? && r.value.State? then r.value.trailPoints else []
  }

  /** All trail points a viewer has read after the first `k` steps; step `i` is broadcast with `bs[i]`. */
  function Seen(states: seq<System>, actions: seq<Action>, bs: seq<Broadcast>, k: nat): seq<ClientTrailPoint>
    requires k <= |actions| <= |states| && |bs| == |actions|
  {
    if k == 0 then [] else
    Seen(states, actions, bs, k - 1)
    + if actions[k - 1].Broadcast? then PointsIn(BroadcastText(states[k - 1], actions[k - 1].mono, bs[k - 1])) else []
  }

  lemma TrailsForAppend(a: seq<TrailPoint>, b: seq<TrailPoint>)
    ensures TrailsFor(a + b, Exact) == TrailsFor(a, Exact) + TrailsFor(b, Exact)
  {
    hide TrailFor, Exact;
  }

  lemma {:induction false} TimesPrintAppend(a: seq<TrailPoint>, b: seq<TrailPoint>)
    requires TimesPrint(a + b)
    ensures TimesPrint(a) && TimesPrint(b)
  {
    hide TimePrints;
    forall i | 0 <= i < |a|
      ensures TimePrints(a[i].t)
    {
      assert (a + b)[i] == a[i];
    }
    forall i | 0 <= i < |b|
      ensures TimePrints(b[i].t)
    {
      assert (a + b)[|a| + i] == b[i];
    }
  }

  /** One broadcast hands on all that was waiting, or nothing if the satellite's velocity is not finite. */
  lemma {:induction false} BroadcastSeen(states: seq<System>, actions: seq<Action>, k: nat, mono: int, b: Broadcast)
    requires IsRun(states, actions) && Starts(states[0]) && k <= |actions| && states[0].receiver.Olv2?
    requires GoodBroadcast(b) && |actions| < TWO64 && TimesPrint(states[k].store.pending)
    ensures PointsIn(BroadcastText(states[k], mono, b)) ==
      if VelocityFinite(states[k].store) then TrailsFor(states[k].store.pending, Exact) else []
  {
    hide Next, Enabled, Starts, GoodBroadcast, ParseStateMessage, BroadcastText, TimesPrint, TrailsFor, VelocityFinite;
    hide Rows, DropExpired, DropOld, StatsTree, ObjectsFor, AllTrailDecoded;
    Olv2BroadcastsAreRecoveredIff(states, actions, k, mono, b);
  }

  lemma NextReports(sys: System, a: Action)
    requires Enabled(sys, a)
    ensures Next(sys, a).reported == sys.reported + if a.Broadcast? then sys.store.pending else []
  {
    hide Classify, AfterDatagram, AfterOutcome, AfterReceived, AfterSnapshot, Rows, DropExpired, DropOld;
  }

  /** A viewer that is sent every broadcast reads exactly the reported trail points, each at printed precision, if
      at every broadcast the stored satellite velocity is finite. */
  lemma {:induction false} SeenIsReported(states: seq<System>, actions: seq<Action>, bs: seq<Broadcast>, k: nat)
    requires IsRun(states, actions) && Starts(states[0]) && k <= |actions| && states[0].receiver.Olv2?
    requires |bs| == |actions| < TWO64 && forall i :: 0 <= i < |bs| ==> GoodBroadcast(bs[i])
    requires forall i :: 0 <= i < k && actions[i].Broadcast? ==> VelocityFinite(states[i].store)
    requires TimesPrint(states[k].reported)
    ensures Seen(states, actions, bs, k) == TrailsFor(states[k].reported, Exact)
  {
    hide Next, Enabled, VelocityFinite, GoodBroadcast, PointsIn, BroadcastText, TimesPrint, TrailFor;
    if k != 0 {
      var sys, a := states[k - 1], actions[k - 1];
      NextReports(sys, a);
      var more := if a.Broadcast? then sys.store.pending else [];
      TimesPrintAppend(sys.reported, more);
      SeenIsReported(states, actions, bs, k - 1);
      TrailsForAppend(sys.reported, more);
      if a.Broadcast? {
        BroadcastSeen(states, actions, k - 1, a.mono, bs[k - 1]);
      } else {
        assert sys.reported + [] == sys.reported;
      }
    }
  }

  // ----- from the samples to the viewer -----

  /** The points of one id among those read. */
  function SeenFor(points: seq<ClientTrailPoint>, id: u32): seq<ClientTrailPoint> {
    if points == [] then [] else
    var last := points[|points| - 1];
    SeenFor(points[..|points| - 1], id) + if HasId(last, id) then [last] else []
  }

  predicate HasId(p: ClientTrailPoint, id: u32) {
    RealOf(p.id) == id as real
  }

  lemma {:induction false} WholeIsNumber(n: nat)
    ensures RealOf(Whole(n)) == n as real
  {
    Pow10Zero();
  }

  lemma {:induction false} SeenForOfTrails(points: seq<TrailPoint>, id: u32)
    ensures SeenFor(TrailsFor(points, Exact), id) == TrailsFor(ForId(points, id), Exact)
  {
    hide Exact, ClientPosition, RealOf;
    if points != [] {
      var front, last := points[..|points| - 1], points[|points| - 1];
      SeenForOfTrails(front, id);
      var seen := TrailsFor(points, Exact);
      assert seen[..|seen| - 1] == TrailsFor(front, Exact);
      assert seen[|seen| - 1] == TrailFor(last, Exact);
      WholeIsNumber(last.id);
      TrailsForAppend(ForId(front, id), if last.id == id then [last] else []);
    }
  }

  lemma {:induction false} InForId(points: seq<TrailPoint>, i: nat)
    requires i < |points|
    ensures points[i] in ForId(points, points[i].id)
    decreases |points|
  {
    var n := |points| - 1;
    if i < n {
      InForId(points[..n], i);
    }
  }

  lemma {:induction false} SightingTimes(xs: seq<Sample>, id: int, p: TrailPoint)
    requires p in Sightings(xs, id)
    ensures exists i :: 0 <= i < |xs| && xs[i].t == p.t
  {
    hide Find;
    if xs != [] {
      var n := |xs| - 1;
      if p in Sightings(xs[..n], id) {
        SightingTimes(xs[..n], id, p);
        var i :| 0 <= i < n && xs[..n][i].t == p.t;
        assert xs[i].t == p.t;
      } else {
        assert xs[n].t == p.t;
      }
    }
  }

  /** Everything reported was sampled, so it prints when the sample times do. */
  lemma {:induction false} ReportedPrints(reported: seq<TrailPoint>, flushed: seq<Sample>)
    requires forall id: u32 :: ForId(reported, id) == Sightings(flushed, id)
    requires forall i :: 0 <= i < |flushed| ==> TimePrints(flushed[i].t)
    ensures TimesPrint(reported)
  {
    hide TimePrints, ForId, Sightings;
    forall i | 0 <= i < |reported|
      ensures TimePrints(reported[i].t)
    {
      var p := reported[i];
      InForId(reported, i);
      assert ForId(reported, p.id) == Sightings(flushed, p.id);
      SightingTimes(flushed, p.id, p);
      var j :| 0 <= j < |flushed| && flushed[j].t == p.t;
    }
  }

  /** Settling a packet that carries the velocity leaves a finite one. */
  lemma {:induction false} SettleKeepsVelocity(sys: System, wall: int, mono: int, p: Olv2Codec.TrackPacket)
    requires sys.inflight.Some? && sys.receiver.Olv2? && VelocityFinite(sys.store)
    requires Olv2Codec.Decode(sys.inflight.value) == Ok(p) && p.points != []
    requires Olv2Source.SatelliteHasVelocity(Olv2Source.Newest(p))
    ensures VelocityFinite(Next(sys, Settle(wall, mono)).store)
  {
    hide Olv2Codec.Decode, Olv2Source.StaleBatch, ReplacesSatellite, FiniteVec32, Olv2Source.TargetOf;
    var d := sys.inflight.value;
    Olv2Codec.DecodedIsNormal(d);
    Olv2Codec.PointsErrorIff(p.points);
    assert Olv2Codec.FinitePoint(Olv2Source.Newest(p));
  }

  lemma OthersKeepVelocity(sys: System, a: Action)
    requires Enabled(sys, a) && !a.Settle? && VelocityFinite(sys.store)
    ensures VelocityFinite(Next(sys, a).store)
  {
    hide FiniteVec32, Rows, DropExpired, DropOld;
  }

  /** Since the simulator always sends the satellite's velocity, none is ever estimated. */
  lemma {:induction false} VelocityStaysFinite(states: seq<System>, actions: seq<Action>, ds: seq<bytes>,
                                               ps: seq<Olv2Codec.TrackPacket>, k: nat)
    requires IsRun(states, actions) && Starts(states[0]) && states[0].receiver.Olv2? && NoOverflow(states, actions)
    requires Delivered(actions) == ds && DecodesTo(ds, ps) && InSequence(ps) && SendsVelocity(ps) && k <= |actions|
    ensures VelocityFinite(states[k].store)
  {
    hide Next, NoOverflow, InSequence, Delivered, ReceivedAll, Olv2Codec.Decode, FiniteVec32;
    hide Olv2Source.SatelliteHasVelocity;
    if k != 0 {
      VelocityStaysFinite(states, actions, ds, ps, k - 1);
      var sys, a := states[k - 1], actions[k - 1];
      if a.Settle? {
        RunReceives(states, actions, ds, ps, k - 1);
        ModeStays(states, actions, k - 1);
        var m := Settled(sys, actions[..k - 1]);
        SettledOne(states, actions, ds, ps, k - 1);
        SettleKeepsVelocity(sys, a.wall, a.mono, ps[m]);
      } else {
        OthersKeepVelocity(sys, a);
      }
    }
  }

  /** The datagram in flight is the next of those sent. */
  lemma SettledOne(states: seq<System>, actions: seq<Action>, ds: seq<bytes>, ps: seq<Olv2Codec.TrackPacket>, k: nat)
    requires IsRun(states, actions) && k <= |actions| && states[k].inflight.Some?
    requires Delivered(actions[..k]) <= ds && |ds| == |ps| && Delivered(actions[..k]) != []
    ensures var m := Settled(states[k], actions[..k]); 0 <= m < |ps|
  {
  }

  /** From the simulator to the viewer: under in-order lossless delivery, any interleaving of broadcasts and no
      overflow, once everything has been broadcast a viewer that is sent every broadcast has read, for each id,
      exactly the time and position of every flushed frame that contains it, in order, at printed precision. */
  lemma {:induction false} SamplesReachViewer(size: nat, sequence: u32, xs: seq<Sample>, s: Sender, states: seq<System>,
                                              actions: seq<Action>, bs: seq<Broadcast>, id: u32)
    requires 1 <= size <= Olv2Codec.MAX_POINTS && GoodRun(xs)
    requires s == SendAll(size, sequence, xs) || s == Finish(SendAll(size, sequence, xs))
    requires IsRun(states, actions) && Starts(states[0]) && states[0].receiver.Olv2? && NoOverflow(states, actions)
    requires Delivered(actions) == Each(s.packets, Olv2Codec.Encode)
    requires states[|actions|].inflight.None? && states[|actions|].store.pending == []
    requires |bs| == |actions| < TWO64 && forall i :: 0 <= i < |bs| ==> GoodBroadcast(bs[i])
    requires forall i :: 0 <= i < |s.flushed| ==> TimePrints(s.flushed[i].t)
    ensures SeenFor(Seen(states, actions, bs, |actions|), id) == TrailsFor(Sightings(s.flushed, id), Exact)
  {
    hide GoodRun, SendAll, Finish, Starts, NoOverflow, ForId, Sightings, Delivered, Next, Enabled, GoodBroadcast;
    hide TimePrints, TrailFor, Seen, SeenFor, TimesPrint, Each, VelocityFinite;
    ReportedPrintWhole(size, sequence, xs, s, states, actions);
    ExactlyOnce(size, sequence, xs, s, states, actions, id);
    forall i | 0 <= i < |actions|
      ensures VelocityFinite(states[i].store)
    {
      SentVelocityStays(size, sequence, xs, s, states, actions, i);
    }
    SeenIsReported(states, actions, bs, |actions|);
    SeenForOfTrails(states[|actions|].reported, id);
  }

  /** In such a run everything reported prints whole. */
  lemma {:induction false} ReportedPrintWhole(size: nat, sequence: u32, xs: seq<Sample>, s: Sender, states: seq<System>,
                                              actions: seq<Action>)
    requires 1 <= size <= Olv2Codec.MAX_POINTS && GoodRun(xs)
    requires s == SendAll(size, sequence, xs) || s == Finish(SendAll(size, sequence, xs))
    requires IsRun(states, actions) && Starts(states[0]) && states[0].receiver.Olv2? && NoOverflow(states, actions)
    requires Delivered(actions) == Each(s.packets, Olv2Codec.Encode)
    requires states[|actions|].inflight.None? && states[|actions|].store.pending == []
    requires forall i :: 0 <= i < |s.flushed| ==> TimePrints(s.flushed[i].t)
    ensures TimesPrint(states[|actions|].reported)
  {
    hide GoodRun, SendAll, Finish, Starts, NoOverflow, ForId, Sightings, Delivered, Next, Enabled;
    hide TimePrints, TimesPrint, Each;
    forall other: u32
      ensures ForId(states[|actions|].reported, other) == Sightings(s.flushed, other)
    {
      ExactlyOnce(size, sequence, xs, s, states, actions, other);
    }
    ReportedPrints(states[|actions|].reported, s.flushed);
  }

  /** In such a run the stored velocity is finite in every state. */
  lemma {:induction false} SentVelocityStays(size: nat, sequence: u32, xs: seq<Sample>, s: Sender, states: seq<System>,
                                             actions: seq<Action>, k: nat)
    requires 1 <= size <= Olv2Codec.MAX_POINTS && GoodRun(xs)
    requires s == SendAll(size, sequence, xs) || s == Finish(SendAll(size, sequence, xs))
    requires IsRun(states, actions) && Starts(states[0]) && states[0].receiver.Olv2? && NoOverflow(states, actions)
    requires Delivered(actions) == Each(s.packets, Olv2Codec.Encode) && k <= |actions|
    ensures VelocityFinite(states[k].store)
  {
    hide GoodRun, SendAll, Finish, IsRun, Starts, NoOverflow, InSequence, SendsVelocity, Delivered, ForId, AllTrails;
    hide VelocityFinite, Sightings, NotBeyond, Olv2Codec.Decode, Olv2Codec.Encode;
    SenderStaysOk(size, sequence, xs, 0);
    FinishOk(size, sequence, xs, 0);
    var ds, ps := Each(s.packets, Olv2Codec.Encode), NormAll(s.packets);
    assert SenderOk(s, 0);
    assert DecodesTo(ds, ps);
    VelocityStaysFinite(states, actions, ds, ps, k);
  }
}
