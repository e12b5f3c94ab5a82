/** Which trail points a broadcast of an OLV2 run reports. */
module Olv2Queue {
  import opened Records
  import opened Collections
  import opened Store
  import opened Olv2Codec
  import opened Pipeline
  import opened Olv2Rows
  import Olv2Source

  /** Every point of a datagram, in wire order. */
  function PointsIn(p: TrackPacket): (s: seq<TrailPoint>)
    ensures |s| == |p.points|
  {
    seq(|p.points|, i requires 0 <= i < |p.points| => TrailPoint(p.trackId, p.points[i].t, p.points[i].tgtPos))
  }

  /** The points of the datagrams accepted since the last broadcast, in order. */
  ghost function Since(states: seq<System>, actions: seq<Action>, n: nat): seq<TrailPoint>
    requires IsRun(states, actions) && n <= |actions|
  {
    if n == 0 || actions[n - 1].Broadcast? then [] else
    var waiting := Since(states, actions, n - 1);
    if !actions[n - 1].Settle? then waiting else
    var r := Decode(states[n - 1].inflight.value);
    if r.Ok? && r.value.points != [] && Later(Accepted(states, actions, n - 1), r.value)
    then waiting + PointsIn(r.value) else waiting
  }

  lemma LastOfJoin<T>(a: seq<T>, b: seq<T>, n: nat)
    ensures LastN(LastN(a, n) + b, n) == LastN(a + b, n)
  {
  }

  lemma SamePoints(p: TrackPacket)
    ensures PointsIn(p) == Olv2Source.TrailOf(p)
  {
  }

  /** Settling queues the points of an accepted datagram. */
  lemma {:induction false} SettleQueues(sys: System, wall: int, mono: int, hs: seq<Heard>)
    requires sys.inflight.Some? && sys.receiver.Olv2? && Remembers(sys.receiver.tracker, hs)
    ensures var r, t := Decode(sys.inflight.value), Next(sys, Settle(wall, mono)).store;
      t.pending == if r.Ok? && r.value.points != [] && Later(hs, r.value)
                   then LastN(sys.store.pending + PointsIn(r.value), 125_000) else sys.store.pending
  {
    hide Decode, Later, Remembers, Olv2Source.StaleBatch, Olv2Source.SatelliteOf, Olv2Source.TargetOf;
    var d := sys.inflight.value;
    if Decode(d).Ok? {
      FirstToLast(d);
      StaleIffNotLater(sys.receiver.tracker, hs, Decode(d).value);
      SamePoints(Decode(d).value);
    }
  }

  lemma OtherStepsKeep(sys: System, a: Action)
    requires Enabled(sys, a) && !a.Settle?
    ensures Next(sys, a).store.pending == if a.Broadcast? then [] else sys.store.pending
  {
  }

  /** In every run, whatever arrives, a broadcast reports every point of the datagrams accepted since the last one, in
      order, or the last 125000 of them. */
  lemma {:induction false} ReportsSince(states: seq<System>, actions: seq<Action>, n: nat, expiry: int)
    requires IsRun(states, actions) && Starts(states[0]) && states[0].store == Initial(expiry)
    requires states[0].receiver.Olv2? && n <= |actions|
    ensures states[n].store.pending == LastN(Since(states, actions, n), 125_000)
    ensures forall m: int ::
      SnapshotOf(states[n].store, m).trailPoints == LastN(Since(states, actions, n), 125_000)
  {
    hide Next, Enabled, Remembers, HistoryShows, Later, Decode, Starts, Rows, DropExpired, DropOld;
    if n > 0 {
      ReportsSince(states, actions, n - 1, expiry);
      HistoryIsHeard(states, actions, n - 1, expiry);
      var sys, a := states[n - 1], actions[n - 1];
      if a.Settle? {
        SettleInFlight(sys, a);
        SettleQueues(sys, a.wall, a.mono, Accepted(states, actions, n - 1));
        var r := Decode(sys.inflight.value);
        if r.Ok? {
          LastOfJoin(Since(states, actions, n - 1), PointsIn(r.value), 125_000);
        }
      } else {
        OtherStepsKeep(sys, a);
      }
    }
  }
}
