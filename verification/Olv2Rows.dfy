/** What an OLV2 run shows: the rows and the satellite, from the decoded datagrams alone. */
module Olv2Rows {
  import opened ByteNumbers
  import opened Bytes
  import opened Floats
  import opened Records
  import opened Store
  import opened Olv2Codec
  import opened Pipeline
  import opened RunHistory
  import Olv2Source
  import H = StoreHistory

  /** A datagram accepted at a time of the monotonic clock. */
  datatype Heard = Heard(pkt: TrackPacket, mono: int)

  function LastPoint(p: TrackPacket): Point
    requires p.points != []
  {
    p.points[|p.points| - 1]
  }

  /** The packet starts after everything heard of its track. */
  ghost predicate Later(hs: seq<Heard>, p: TrackPacket)
    requires p.points != []
  {
    forall i :: 0 <= i < |hs| && hs[i].pkt.trackId == p.trackId ==>
      hs[i].pkt.points != [] && Key(LastPoint(hs[i].pkt).t) < Key(p.points[0].t)
  }

  /** The datagrams accepted in the first `n` steps: those that decode and start after all heard of their track. */
  ghost function Accepted(states: seq<System>, actions: seq<Action>, n: nat): seq<Heard>
    requires IsRun(states, actions) && n <= |actions|
  {
    if n == 0 then [] else
    var hs := Accepted(states, actions, n - 1);
    if !actions[n - 1].Settle? then hs else
    var r := Decode(states[n - 1].inflight.value);
    if r.Ok? && r.value.points != [] && Later(hs, r.value) then hs + [Heard(r.value, actions[n - 1].mono)] else hs
  }

  // ----- what an accepted datagram shows -----

  /** The row of a packet: its track, type and confidence, its highlight bit, and its newest point's target. */
  ghost predicate RowShows(o: ObjectRecord, p: TrackPacket) {
    && p.points != [] && o.id == p.trackId && o.kind == p.targetType && o.confidence == p.confidence
    && o.intensity == 0 && o.pos == LastPoint(p).tgtPos
    && (HasVelocity(o) <==> LastPoint(p).flags & 2 != 0)
    && o.vel == (if LastPoint(p).flags & 2 != 0 then LastPoint(p).tgtVel else ZERO_VEC32)
    && (o.flags & 2 != 0 <==> p.targetFlags & 2 != 0)
    && o.flags <= 3
  }

  /** The satellite of a packet: that of its newest point, its velocity estimated if the point carries none. */
  ghost predicate SatelliteShows(s: Satellite, p: TrackPacket, estimate: Olv2Source.Estimator) {
    && p.points != [] && s.id == p.satId && s.sequence == p.sequence && s.pos == LastPoint(p).satPos
    && s.vel == (if LastPoint(p).flags & 1 != 0 then LastPoint(p).satVel
                 else if |p.points| >= 2 then estimate(p.points[|p.points| - 2], LastPoint(p))
                 else ZERO_VEC32)
  }

  lemma FlagBits(f: byte, moving: bool)
    ensures var g := (f & FLAG_HIGHLIGHT) | (if moving then FLAG_HAS_VELOCITY else 0);
      && (g & FLAG_HAS_VELOCITY != 0 <==> moving) && (g & FLAG_HIGHLIGHT != 0 <==> f & FLAG_HIGHLIGHT != 0)
      && g <= FLAG_HAS_VELOCITY | FLAG_HIGHLIGHT
  {
  }

  lemma {:induction false} UpdateShows(p: TrackPacket, estimate: Olv2Source.Estimator)
    requires p.points != []
    ensures var u := Olv2Source.UpdateOf(p, estimate);
      RowShows(u.target, p) && SatelliteShows(u.satellite, p, estimate) && u.satelliteT == LastPoint(p).t
  {
    FlagBits(p.targetFlags, LastPoint(p).flags & 2 != 0);
  }

  // ----- the receiver accepts exactly those -----

  /** The newest time the receiver remembers of a track is that of the newest datagram heard of it. */
  ghost predicate Remembers(tr: Olv2Source.Tracker, hs: seq<Heard>) {
    && (forall i :: 0 <= i < |hs| ==>
          var p := hs[i].pkt;
          p.points != [] && p.trackId in tr.lastT && Key(LastPoint(p).t) <= Key(tr.lastT[p.trackId]))
    && (forall id :: id in tr.lastT ==>
          exists i :: 0 <= i < |hs| && hs[i].pkt.trackId == id && hs[i].pkt.points != []
                      && tr.lastT[id] == LastPoint(hs[i].pkt).t)
  }

  lemma {:induction false} StaleIffNotLater(tr: Olv2Source.Tracker, hs: seq<Heard>, p: TrackPacket)
    requires Remembers(tr, hs) && p.points != []
    ensures Olv2Source.StaleBatch(tr, p) <==> !Later(hs, p)
  {
    hide Key;
  }

  lemma {:induction false} RemembersMore(tr: Olv2Source.Tracker, hs: seq<Heard>, p: TrackPacket, mono: int,
                                         sat: Option<u32>)
    requires Remembers(tr, hs) && p.points != [] && Later(hs, p) && Key(p.points[0].t) <= Key(LastPoint(p).t)
    ensures Remembers(Olv2Source.Tracker(tr.lastT[p.trackId := LastPoint(p).t], sat), hs + [Heard(p, mono)])
  {
    hide Key;
    var more, lastT := hs + [Heard(p, mono)], tr.lastT[p.trackId := LastPoint(p).t];
    forall id | id in lastT
      ensures exists i :: 0 <= i < |more| && more[i].pkt.trackId == id && more[i].pkt.points != []
                          && lastT[id] == LastPoint(more[i].pkt).t
    {
      if id == p.trackId {
        assert more[|hs|].pkt == p;
      } else {
        var i :| 0 <= i < |hs| && hs[i].pkt.trackId == id && hs[i].pkt.points != []
          && tr.lastT[id] == LastPoint(hs[i].pkt).t;
        assert more[i] == hs[i];
      }
    }
  }

  lemma {:induction false} FirstToLast(d: bytes)
    requires Decode(d).Ok?
    ensures var p := Decode(d).value;
      p.points != [] && Key(p.points[0].t) <= Key(LastPoint(p).t) && !NaN64(LastPoint(p).t)
  {
    hide Decode, Key, Norm, PointsError;
    DecodedIsNormal(d);
    var ps := Decode(d).value.points;
    Ascending(ps, |ps| - 1);
    PointsErrorIff(ps);
    assert FinitePoint(ps[|ps| - 1]);
  }

  lemma {:induction false} Ascending(ps: seq<Point>, k: nat)
    requires TimesAscend(ps) && k < |ps|
    ensures Key(ps[0].t) <= Key(ps[k].t)
  {
    hide Key;
    if k > 0 {
      Ascending(ps, k - 1);
    }
  }

  /** What settling a datagram does in OLV2 mode. */
  lemma {:induction false} SettleHears(sys: System, wall: int, mono: int, hs: seq<Heard>)
    requires sys.inflight.Some? && sys.receiver.Olv2? && Remembers(sys.receiver.tracker, hs)
    ensures var r, t := Decode(sys.inflight.value), Next(sys, Settle(wall, mono)).receiver;
      var es := EventOf(sys, Settle(wall, mono));
      && t.Olv2? && t.estimate == sys.receiver.estimate
      && (if r.Ok? && r.value.points != [] && Later(hs, r.value)
          then && Remembers(t.tracker, hs + [Heard(r.value, mono)])
               && !NaN64(LastPoint(r.value).t)
               && es == [H.Track(Olv2Source.UpdateOf(r.value, sys.receiver.estimate), wall, mono)]
          else Remembers(t.tracker, hs) && |es| == 1 && es[0].Dropped?)
  {
    hide Decode, Later, Remembers, Olv2Source.StaleBatch, Olv2Source.UpdateOf, AfterTrack, Key, AfterReceived;
    hide NaN64;
    var d := sys.inflight.value;
    if Decode(d).Ok? {
      FirstToLast(d);
      StaleIffNotLater(sys.receiver.tracker, hs, Decode(d).value);
      if Later(hs, Decode(d).value) {
        RemembersMore(sys.receiver.tracker, hs, Decode(d).value, mono, Some(Decode(d).value.satId));
      }
    }
  }

  // ----- the store's history is what was heard -----

  ghost predicate LogShows(log: seq<Stored>, hs: seq<Heard>) {
    |log| == |hs| && forall i :: 0 <= i < |hs| ==> log[i].lastUpdate == hs[i].mono && RowShows(log[i].obj, hs[i].pkt)
  }

  ghost predicate UpdateShown(u: TrackUpdate, p: TrackPacket, estimate: Olv2Source.Estimator) {
    SatelliteShows(u.satellite, p, estimate) && u.satelliteT == LastPoint(p).t
  }

  ghost predicate UpdatesShow(us: seq<TrackUpdate>, hs: seq<Heard>, estimate: Olv2Source.Estimator) {
    |us| == |hs| && forall i :: 0 <= i < |hs| ==> UpdateShown(us[i], hs[i].pkt, estimate)
  }

  ghost predicate HistoryShows(expiry: int, evs: seq<H.Event>, hs: seq<Heard>, estimate: Olv2Source.Estimator) {
    LogShows(H.Log(expiry, evs), hs) && UpdatesShow(H.TrackUpdates(evs), hs, estimate) && H.TrackOnly(evs)
  }

  lemma {:induction false} UpdatesAppend(evs: seq<H.Event>, e: H.Event)
    ensures H.TrackUpdates(evs + [e]) == H.TrackUpdates(evs) + if e.Track? then [e.u] else []
    ensures H.TrackOnly(evs + [e]) <==> H.TrackOnly(evs) && !e.Packet? && (e.Track? ==> !NaN64(e.u.satelliteT))
  {
    hide NaN64;
    var all := evs + [e];
    assert all[..|evs|] == evs && all[|evs|] == e;
    assert forall i :: 0 <= i < |evs| ==> all[i] == evs[i];
  }

  /** An operation that brings no record. */
  lemma {:induction false} OtherEvent(expiry: int, evs: seq<H.Event>, e: H.Event, hs: seq<Heard>,
                                      estimate: Olv2Source.Estimator)
    requires HistoryShows(expiry, evs, hs, estimate) && !e.Packet? && !e.Track?
    ensures HistoryShows(expiry, evs + [e], hs, estimate)
  {
    hide LogShows, UpdatesShow, H.Log, H.Run, H.TrackUpdates, H.TrackOnly;
    RunAppend(expiry, evs, e);
    UpdatesAppend(evs, e);
    assert H.Log(expiry, evs) + [] == H.Log(expiry, evs);
    assert H.TrackUpdates(evs) + [] == H.TrackUpdates(evs);
  }

  /** An accepted datagram. */
  lemma {:induction false} TrackEvent(expiry: int, evs: seq<H.Event>, p: TrackPacket, wall: int, mono: int,
                                      hs: seq<Heard>, estimate: Olv2Source.Estimator)
    requires HistoryShows(expiry, evs, hs, estimate) && p.points != [] && !NaN64(LastPoint(p).t)
    ensures HistoryShows(expiry, evs + [H.Track(Olv2Source.UpdateOf(p, estimate), wall, mono)],
                         hs + [Heard(p, mono)], estimate)
  {
    hide RowShows, SatelliteShows, H.Log, H.Run, H.TrackUpdates, H.TrackOnly, NaN64, Olv2Source.UpdateOf;
    var u := Olv2Source.UpdateOf(p, estimate);
    UpdateShows(p, estimate);
    RunAppend(expiry, evs, H.Track(u, wall, mono));
    UpdatesAppend(evs, H.Track(u, wall, mono));
  }

  /** In every OLV2 run the store's history is that of the accepted datagrams. */
  lemma {:induction false} HistoryIsHeard(states: seq<System>, actions: seq<Action>, n: nat, expiry: int)
    requires IsRun(states, actions) && Starts(states[0]) && states[0].store == Initial(expiry)
    requires states[0].receiver.Olv2? && n <= |actions|
    ensures var r, hs := states[n].receiver, Accepted(states, actions, n);
      && r.Olv2? && r.estimate == states[0].receiver.estimate && Remembers(r.tracker, hs)
      && HistoryShows(expiry, Events(states, actions, n), hs, r.estimate)
  {
    hide Next, Enabled, EventOf, Remembers, HistoryShows, Later, Decode, Starts, Olv2Source.UpdateOf, NaN64;
    if n == 0 {
      NothingHeard(states[0], expiry);
    } else {
      HistoryIsHeard(states, actions, n - 1, expiry);
      var sys, a, evs := states[n - 1], actions[n - 1], Events(states, actions, n - 1);
      var hs, estimate := Accepted(states, actions, n - 1), sys.receiver.estimate;
      if a.Settle? {
        SettleInFlight(sys, a);
        SettleHears(sys, a.wall, a.mono, hs);
        var r := Decode(sys.inflight.value);
        if r.Ok? && r.value.points != [] && Later(hs, r.value) {
          TrackEvent(expiry, evs, r.value, a.wall, a.mono, hs, estimate);
        } else {
          var e := EventOf(sys, a)[0];
          assert EventOf(sys, a) == [e];
          OtherEvent(expiry, evs, e, hs, estimate);
        }
      } else {
        OtherStep(sys, a);
        var e := EventOf(sys, a)[0];
        assert EventOf(sys, a) == [e];
        OtherEvent(expiry, evs, e, hs, estimate);
      }
    }
  }

  lemma SettleInFlight(sys: System, a: Action)
    requires Enabled(sys, a) && a.Settle?
    ensures sys.inflight.Some? && a == Settle(a.wall, a.mono)
  {
  }

  lemma OtherStep(sys: System, a: Action)
    requires Enabled(sys, a) && !a.Settle?
    ensures Next(sys, a).receiver == sys.receiver
    ensures var es := EventOf(sys, a); |es| == 1 && !es[0].Packet? && !es[0].Track?
  {
    hide AfterReceived, AfterSnapshot, SnapshotOf;
  }

  lemma NothingHeard(sys: System, expiry: int)
    requires Starts(sys) && sys.receiver.Olv2?
    ensures Remembers(sys.receiver.tracker, []) && HistoryShows(expiry, [], [], sys.receiver.estimate)
  {
  }

  // ----- the rows -----

  /** The last datagram accepted of a track. */
  function LastOf(hs: seq<Heard>, id: int): Option<Heard> {
    if hs == [] then None else
    var last := hs[|hs| - 1];
    if last.pkt.trackId == id then Some(last) else LastOf(hs[..|hs| - 1], id)
  }

  lemma {:induction false} LatestIsLastOf(log: seq<Stored>, hs: seq<Heard>, id: int)
    requires LogShows(log, hs)
    ensures match LastOf(hs, id)
      case None => H.Latest(log, id) == None
      case Some(h) =>
        var st := H.Latest(log, id);
        h.pkt.trackId == id && st.Some? && st.value.lastUpdate == h.mono && RowShows(st.value.obj, h.pkt)
  {
    if hs != [] {
      var n := |hs| - 1;
      LatestIsLastOf(log[..n], hs[..n], id);
    }
  }

  /** What a snapshot at `m` of any OLV2 run shows, whatever arrived: one row for each track whose last accepted
      datagram has not expired, showing that datagram, and no other rows. */
  lemma {:induction false} RowsShowHeard(states: seq<System>, actions: seq<Action>, n: nat, expiry: int, m: int)
    requires IsRun(states, actions) && Starts(states[0]) && states[0].store == Initial(expiry)
    requires states[0].receiver.Olv2? && n <= |actions|
    requires H.ClocksAdvance(Events(states, actions, n) + [H.Snap(m)])
    ensures var hs, rows := Accepted(states, actions, n), SnapshotOf(states[n].store, m).objects;
      && (forall i, j :: 0 <= i < j < |rows| ==> rows[i].id < rows[j].id)
      && (forall i :: 0 <= i < |rows| ==> Showing(rows[i], hs, m, expiry))
      && (forall id :: var h := LastOf(hs, id); h.Some? && m - h.value.mono <= expiry ==>
            exists i :: 0 <= i < |rows| && rows[i].id == id)
  {
    hide Next, Enabled, Events, Accepted, Starts, H.Log, H.Latest, SnapshotOf, H.ClocksAdvance, RowShows, Remembers;
    hide UpdatesShow, H.TrackOnly, H.Run, LogShows;
    HistoryIsHeard(states, actions, n, expiry);
    RunShowsHistory(states, actions, n, expiry, m);
    var hs, evs := Accepted(states, actions, n), Events(states, actions, n);
    var rows := SnapshotOf(states[n].store, m).objects;
    forall i | 0 <= i < |rows|
      ensures Showing(rows[i], hs, m, expiry)
    {
      LatestIsLastOf(H.Log(expiry, evs), hs, rows[i].id);
      assert H.Shown(expiry, evs, m, rows[i].id) == Some(rows[i]);
    }
    forall id | var h := LastOf(hs, id); h.Some? && m - h.value.mono <= expiry
      ensures exists i :: 0 <= i < |rows| && rows[i].id == id
    {
      LatestIsLastOf(H.Log(expiry, evs), hs, id);
      assert H.Shown(expiry, evs, m, id).Some?;
    }
  }

  /** The row shows the last datagram accepted of its track, which has not expired at `m`. */
  ghost predicate Showing(row: ObjectRecord, hs: seq<Heard>, m: int, expiry: int) {
    var h := LastOf(hs, row.id);
    h.Some? && m - h.value.mono <= expiry && RowShows(row, h.value.pkt)
  }

  /** That datagram holds the newest point ever accepted of its track. */
  lemma {:induction false} LastOfIsNewest(states: seq<System>, actions: seq<Action>, n: nat, i: nat, k: nat)
    requires IsRun(states, actions) && n <= |actions|
    requires var hs := Accepted(states, actions, n); i < |hs| && k < |hs[i].pkt.points|
    ensures var hs := Accepted(states, actions, n);
      var h := LastOf(hs, hs[i].pkt.trackId);
      h.Some? && h.value.pkt.points != [] && Key(hs[i].pkt.points[k].t) <= Key(LastPoint(h.value.pkt).t)
  {
    hide Next, Enabled, Decode, Key;
    var hs := Accepted(states, actions, n);
    if !actions[n - 1].Settle? || |hs| == |Accepted(states, actions, n - 1)| {
      LastOfIsNewest(states, actions, n - 1, i, k);
    } else {
      var front, last := Accepted(states, actions, n - 1), hs[|hs| - 1];
      assert hs[..|hs| - 1] == front;
      SettleInFlight(states[n - 1], actions[n - 1]);
      FirstToLast(states[n - 1].inflight.value);
      if i < |front| {
        LastOfIsNewest(states, actions, n - 1, i, k);
        LastOfHeard(front, last.pkt.trackId);
      } else {
        PointBeforeLast(states[n - 1].inflight.value, k);
      }
    }
  }

  lemma {:induction false} LastOfHeard(hs: seq<Heard>, id: int)
    ensures LastOf(hs, id).Some? ==>
      exists i :: 0 <= i < |hs| && hs[i] == LastOf(hs, id).value && hs[i].pkt.trackId == id
  {
    if hs != [] {
      LastOfHeard(hs[..|hs| - 1], id);
    }
  }

  lemma {:induction false} PointBeforeLast(d: bytes, k: nat)
    requires Decode(d).Ok? && k < |Decode(d).value.points|
    ensures var p := Decode(d).value; Key(p.points[k].t) <= Key(LastPoint(p).t)
  {
    hide Decode, Key, Norm, PointsError;
    DecodedIsNormal(d);
    var ps := Decode(d).value.points;
    Ascending(ps[k..], |ps| - 1 - k);
  }

  // ----- the satellite -----

  /** The earliest of those heard with the largest sample time. */
  ghost predicate NewestHeard(hs: seq<Heard>, i: nat) {
    && i < |hs| && (forall j :: 0 <= j < |hs| ==> hs[j].pkt.points != [])
    && (forall j :: 0 <= j < |hs| ==> Key(LastPoint(hs[j].pkt).t) <= Key(LastPoint(hs[i].pkt).t))
    && (forall j :: 0 <= j < i ==> Key(LastPoint(hs[j].pkt).t) < Key(LastPoint(hs[i].pkt).t))
  }

  /** The satellite a snapshot shows is that of the earliest accepted datagram with the newest sample, or none. */
  lemma {:induction false} SatelliteShowsHeard(states: seq<System>, actions: seq<Action>, n: nat, expiry: int, m: int)
    returns (i: nat)
    requires IsRun(states, actions) && Starts(states[0]) && states[0].store == Initial(expiry)
    requires states[0].receiver.Olv2? && n <= |actions|
    ensures var hs, sat := Accepted(states, actions, n), SnapshotOf(states[n].store, m).satellite;
      && (hs == [] ==> sat == None)
      && (hs != [] ==> NewestHeard(hs, i) && sat.Some?
                       && SatelliteShows(sat.value, hs[i].pkt, states[0].receiver.estimate))
  {
    hide Next, Enabled, Events, Accepted, Starts, H.Log, RowShows, Remembers, SatelliteShows, Key;
    hide LogShows, H.TrackOnly, H.Run, H.TrackUpdates, DropExpired, DropOld, Rows;
    HistoryIsHeard(states, actions, n, expiry);
    StoreIsRun(states, actions, n, expiry);
    i := H.SatelliteIsNewest(expiry, Events(states, actions, n));
    var us, hs := H.TrackUpdates(Events(states, actions, n)), Accepted(states, actions, n);
    assert forall j :: 0 <= j < |hs| ==> UpdateShown(us[j], hs[j].pkt, states[0].receiver.estimate);
    hide UpdatesShow;
    SatellitePoints(us, hs, states[0].receiver.estimate);
  }

  lemma SatellitePoints(us: seq<TrackUpdate>, hs: seq<Heard>, estimate: Olv2Source.Estimator)
    requires |us| == |hs| && forall j :: 0 <= j < |hs| ==> UpdateShown(us[j], hs[j].pkt, estimate)
    ensures forall j :: 0 <= j < |hs| ==> hs[j].pkt.points != []
  {
  }
}
