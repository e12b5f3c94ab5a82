/** Runs of the shared store against the full, never pruned history of what it accepted. */
module StoreHistory {
  import opened Floats
  import opened Records
  import opened Store

  /** One locked operation: the first four come from the input thread, the last from the broadcaster. */
  datatype Event =
    | Received(n: nat)
    | Dropped(kind: DropKind)
    | Packet(pkt: StatePacket, wall: int, mono: int)
    | Track(u: TrackUpdate, wall: int, mono: int)
    | Snap(mono: int)

  function Step(s: State, e: Event): State {
    match e
    case Received(n) => AfterReceived(s, n)
    case Dropped(kind) => AfterDropped(s, kind)
    case Packet(pkt, wall, mono) => AfterApply(s, pkt, wall, mono)
    case Track(u, wall, mono) => AfterTrack(s, u, wall, mono)
    case Snap(mono) => AfterSnapshot(s, mono)
  }

  /** The state after a whole run from a fresh store. */
  function Run(expiry: int, evs: seq<Event>): State {
    if evs == [] then Initial(expiry) else Step(Run(expiry, evs[..|evs| - 1]), evs[|evs| - 1])
  }

  // ----- the history -----

  function StampAll(rs: seq<ObjectRecord>, mono: int): (log: seq<Stored>)
    ensures |log| == |rs|
  {
    if rs == [] then [] else StampAll(rs[..|rs| - 1], mono) + [Stored(rs[|rs| - 1], mono)]
  }

  /** What one event adds to the log of accepted records. */
  function Recorded(s: State, e: Event): seq<Stored> {
    match e
    case Packet(pkt, _, mono) => if Rejects(s, pkt) then [] else StampAll(pkt.objects, mono)
    case Track(u, _, mono) => [Stored(u.target, mono)]
    case _ => []
  }

  predicate Accepts(s: State, e: Event) {
    (e.Packet? && !Rejects(s, e.pkt)) || e.Track?
  }

  /** Every record ever accepted, in order, with its receive time. */
  function Log(expiry: int, evs: seq<Event>): seq<Stored> {
    if evs == [] then [] else
    var n := |evs| - 1;
    Log(expiry, evs[..n]) + Recorded(Run(expiry, evs[..n]), evs[n])
  }

  /** The receive time of every accepted datagram, in order. */
  function AcceptTimes(expiry: int, evs: seq<Event>): seq<int> {
    if evs == [] then [] else
    var n := |evs| - 1;
    AcceptTimes(expiry, evs[..n]) + if Accepts(Run(expiry, evs[..n]), evs[n]) then [evs[n].mono] else []
  }

  /** The last record accepted for an id. */
  function Latest(log: seq<Stored>, id: int): Option<Stored> {
    if log == [] then None else
    var last := log[|log| - 1];
    if last.obj.id == id then Some(last) else Latest(log[..|log| - 1], id)
  }

  /** How many times are not older than the rate window at `m`. */
  function RecentCount(times: seq<int>, m: int): nat {
    if times == [] then 0 else (if m - times[0] <= 5_000_000_000 then 1 else 0) + RecentCount(times[1..], m)
  }

  predicate SameClock(a: Event, b: Event) {
    || (a.Snap? && b.Snap?)
    || ((a.Packet? || a.Track?) && (b.Packet? || b.Track?))
  }

  /** Each thread reads a clock that never runs backwards; the two threads may disagree. */
  ghost predicate ClocksAdvance(evs: seq<Event>) {
    forall i, j :: 0 <= i < j < |evs| && SameClock(evs[i], evs[j]) ==> evs[i].mono <= evs[j].mono
  }

  lemma ClocksPrefix(evs: seq<Event>)
    requires evs != [] && ClocksAdvance(evs)
    ensures ClocksAdvance(evs[..|evs| - 1])
  {
  }

  // ----- the object table -----

  lemma {:induction false} LatestId(log: seq<Stored>, id: int)
    ensures Latest(log, id).Some? ==> Latest(log, id).value.obj.id == id
  {
    if log != [] {
      LatestId(log[..|log| - 1], id);
    }
  }

  lemma {:induction false} LatestPush(log: seq<Stored>, x: Stored, id: int)
    ensures Latest(log + [x], id) == if x.obj.id == id then Some(x) else Latest(log, id)
  {
    assert (log + [x])[..|log|] == log;
  }

  lemma {:induction false} UpsertIsLatest(objects: Table, log: seq<Stored>, rs: seq<ObjectRecord>, mono: int, id: int)
    ensures var t := Upsert(objects, rs, mono);
      var latest := Latest(log + StampAll(rs, mono), id);
      || (latest == Latest(log, id) && (id in t <==> id in objects) && (id in t ==> t[id] == objects[id]))
      || (latest.Some? && id in t && t[id] == latest.value)
  {
    if rs == [] {
      assert log + StampAll(rs, mono) == log;
    } else {
      var n := |rs| - 1;
      UpsertIsLatest(objects, log, rs[..n], mono, id);
      var front, last := log + StampAll(rs[..n], mono), Stored(rs[n], mono);
      assert log + StampAll(rs, mono) == front + [last];
      LatestPush(front, last, id);
    }
  }

  /** The table holds the latest record of an id, or has dropped it at a snapshot that found it expired. */
  ghost predicate Faithful(s: State, log: seq<Stored>, evs: seq<Event>, id: int) {
    match Latest(log, id)
    case None => id !in s.objects
    case Some(st) =>
      || (id in s.objects && s.objects[id] == st)
      || (id !in s.objects && exists i :: 0 <= i < |evs| && evs[i].Snap? && evs[i].mono - st.lastUpdate > s.expiry)
  }

  lemma {:induction false} FaithfulKept(s: State, t: State, log: seq<Stored>, front: seq<Event>, e: Event, id: int)
    requires Faithful(s, log, front, id) && t.expiry == s.expiry
    requires id in t.objects <==> id in s.objects
    requires id in t.objects ==> t.objects[id] == s.objects[id]
    ensures Faithful(t, log, front + [e], id)
  {
    var evs := front + [e];
    if Latest(log, id).Some? && id !in s.objects {
      var i :| 0 <= i < |front| && front[i].Snap? && front[i].mono - Latest(log, id).value.lastUpdate > s.expiry;
      assert evs[i] == front[i];
    }
  }

  lemma {:induction false} FaithfulStep(s: State, log: seq<Stored>, front: seq<Event>, e: Event, id: int)
    requires Faithful(s, log, front, id)
    ensures Faithful(Step(s, e), log + Recorded(s, e), front + [e], id)
  {
    hide Less, DropOld;
    var t, log' := Step(s, e), log + Recorded(s, e);
    match e
    case Packet(pkt, wall, mono) =>
      if !Rejects(s, pkt) {
        UpsertIsLatest(s.objects, log, pkt.objects, mono, id);
        if Latest(log', id) == Latest(log, id) && (id in t.objects <==> id in s.objects)
          && (id in t.objects ==> t.objects[id] == s.objects[id]) {
          FaithfulKept(s, t, log, front, e, id);
        }
      } else {
        assert log' == log;
        FaithfulKept(s, t, log, front, e, id);
      }
    case Track(u, wall, mono) =>
      LatestPush(log, Stored(u.target, mono), id);
      if u.target.id != id {
        FaithfulKept(s, t, log, front, e, id);
      }
    case Snap(m) =>
      assert log' == log;
      if id in s.objects && m - s.objects[id].lastUpdate > s.expiry {
        assert (front + [e])[|front|] == e;
      } else {
        FaithfulKept(s, t, log, front, e, id);
      }
    case _ =>
      assert log' == log;
      FaithfulKept(s, t, log, front, e, id);
  }

  lemma {:induction false} ExpiryConstant(expiry: int, evs: seq<Event>)
    ensures Run(expiry, evs).expiry == expiry
  {
    if evs != [] {
      ExpiryConstant(expiry, evs[..|evs| - 1]);
    }
  }

  lemma {:induction false} RunFaithful(expiry: int, evs: seq<Event>, id: int)
    ensures Faithful(Run(expiry, evs), Log(expiry, evs), evs, id)
  {
    if evs != [] {
      var n := |evs| - 1;
      RunFaithful(expiry, evs[..n], id);
      FaithfulStep(Run(expiry, evs[..n]), Log(expiry, evs[..n]), evs[..n], evs[n], id);
      assert evs[..n] + [evs[n]] == evs;
    }
  }

  /** The record a snapshot at `m` must show for an id: the last one accepted, unless it has expired. */
  function Shown(expiry: int, evs: seq<Event>, m: int, id: int): Option<ObjectRecord> {
    match Latest(Log(expiry, evs), id)
    case Some(st) => if m - st.lastUpdate <= expiry then Some(st.obj) else None
    case None => None
  }

  lemma {:induction false} PrunedTable(expiry: int, evs: seq<Event>, m: int, id: int)
    requires ClocksAdvance(evs + [Snap(m)])
    ensures var t := DropExpired(Run(expiry, evs).objects, expiry, m);
      && (id in t <==> Shown(expiry, evs, m, id).Some?)
      && (id in t ==> Shown(expiry, evs, m, id) == Some(t[id].obj) && t[id].obj.id == id)
  {
    ExpiryConstant(expiry, evs);
    RunFaithful(expiry, evs, id);
    LatestId(Log(expiry, evs), id);
    var s, latest, all := Run(expiry, evs), Latest(Log(expiry, evs), id), evs + [Snap(m)];
    if latest.Some? && id !in s.objects {
      var i :| 0 <= i < |evs| && evs[i].Snap? && evs[i].mono - latest.value.lastUpdate > expiry;
      assert all[i] == evs[i] && all[|evs|] == Snap(m);
      assert SameClock(all[i], all[|evs|]);
      assert evs[i].mono <= m;
    }
  }

  /** A snapshot lists, strictly ascending by id, the last accepted record of exactly the ids not yet expired. */
  lemma {:induction false} SnapshotShowsHistory(expiry: int, evs: seq<Event>, m: int)
    requires ClocksAdvance(evs + [Snap(m)])
    ensures var rows := SnapshotOf(Run(expiry, evs), m).objects;
      && (forall i, j :: 0 <= i < j < |rows| ==> rows[i].id < rows[j].id)
      && (forall i :: 0 <= i < |rows| ==> Shown(expiry, evs, m, rows[i].id) == Some(rows[i]))
      && (forall id :: Shown(expiry, evs, m, id).Some? ==> exists i :: 0 <= i < |rows| && rows[i].id == id)
  {
    hide Shown, Log, Run, Rows, DropExpired;
    ExpiryConstant(expiry, evs);
    var t := DropExpired(Run(expiry, evs).objects, expiry, m);
    var rows := Rows(t);
    forall id
      ensures id in t <==> Shown(expiry, evs, m, id).Some?
      ensures id in t ==> Shown(expiry, evs, m, id) == Some(t[id].obj) && t[id].obj.id == id
    {
      PrunedTable(expiry, evs, m, id);
    }
    RowsListTable(t);
    forall i | 0 <= i < |rows|
      ensures Shown(expiry, evs, m, rows[i].id) == Some(rows[i])
    {
      assert rows[i].id in t;
    }
  }

  // ----- the rate window -----

  predicate NonDecreasing(times: seq<int>) {
    forall i, j :: 0 <= i < j < |times| ==> times[i] <= times[j]
  }

  lemma {:induction false} AcceptTimesFromEvents(expiry: int, evs: seq<Event>, k: nat)
    requires k < |AcceptTimes(expiry, evs)|
    ensures exists i ::
      0 <= i < |evs| && (evs[i].Packet? || evs[i].Track?) && evs[i].mono == AcceptTimes(expiry, evs)[k]
  {
    hide Step, Rejects;
    var n := |evs| - 1;
    var front := AcceptTimes(expiry, evs[..n]);
    if k < |front| {
      AcceptTimesFromEvents(expiry, evs[..n], k);
      var i :| 0 <= i < n && (evs[..n][i].Packet? || evs[..n][i].Track?) && evs[..n][i].mono == front[k];
      assert evs[i] == evs[..n][i];
    } else {
      assert evs[n].mono == AcceptTimes(expiry, evs)[k];
    }
  }

  lemma {:induction false} AcceptTimesSorted(expiry: int, evs: seq<Event>)
    requires ClocksAdvance(evs)
    ensures NonDecreasing(AcceptTimes(expiry, evs))
  {
    hide Step, Rejects;
    if evs != [] {
      var n := |evs| - 1;
      ClocksPrefix(evs);
      AcceptTimesSorted(expiry, evs[..n]);
      var front := AcceptTimes(expiry, evs[..n]);
      if Accepts(Run(expiry, evs[..n]), evs[n]) {
        forall k | 0 <= k < |front|
          ensures front[k] <= evs[n].mono
        {
          AcceptTimesFromEvents(expiry, evs[..n], k);
          var i :| 0 <= i < n && (evs[..n][i].Packet? || evs[..n][i].Track?) && evs[..n][i].mono == front[k];
          assert evs[i] == evs[..n][i] && SameClock(evs[i], evs[n]);
        }
      }
    }
  }

  /** The times that snapshots have popped are all outside the window of some snapshot. */
  ghost predicate Popped(gone: seq<int>, evs: seq<Event>) {
    forall k :: 0 <= k < |gone| ==> FoundOld(evs, gone[k])
  }

  ghost predicate FoundOld(evs: seq<Event>, time: int) {
    exists i :: 0 <= i < |evs| && evs[i].Snap? && evs[i].mono - time > RATE_WINDOW
  }

  lemma {:induction false} PoppedLonger(gone: seq<int>, front: seq<Event>, e: Event)
    requires Popped(gone, front)
    ensures Popped(gone, front + [e])
  {
    var evs := front + [e];
    forall k | 0 <= k < |gone|
      ensures FoundOld(evs, gone[k])
    {
      assert FoundOld(front, gone[k]);
      var i :| 0 <= i < |front| && front[i].Snap? && front[i].mono - gone[k] > RATE_WINDOW;
      assert evs[i] == front[i];
    }
  }

  lemma {:induction false} DropOldSplits(times: seq<int>, m: int) returns (stale: seq<int>)
    ensures times == stale + DropOld(times, m)
    ensures forall k :: 0 <= k < |stale| ==> m - stale[k] > RATE_WINDOW
    decreases |times|
  {
    if times != [] && m - times[0] > RATE_WINDOW {
      var rest := DropOldSplits(times[1..], m);
      stale := [times[0]] + rest;
    } else {
      stale := [];
    }
  }

  lemma {:induction false} WindowIsSuffix(expiry: int, evs: seq<Event>) returns (gone: seq<int>)
    ensures AcceptTimes(expiry, evs) == gone + Run(expiry, evs).acceptTimes
    ensures Popped(gone, evs)
  {
    hide Upsert, Less;
    if evs == [] {
      gone := [];
    } else {
      var n := |evs| - 1;
      var front, e := evs[..n], evs[n];
      gone := WindowIsSuffix(expiry, front);
      var s := Run(expiry, front);
      PoppedLonger(gone, front, e);
      assert front + [e] == evs;
      if e.Snap? {
        var more := DropOldSplits(s.acceptTimes, e.mono);
        assert gone + s.acceptTimes == (gone + more) + DropOld(s.acceptTimes, e.mono);
        gone := gone + more;
        assert evs[n].Snap?;
      } else if Accepts(s, e) {
        assert gone + s.acceptTimes + [e.mono] == gone + (s.acceptTimes + [e.mono]);
      }
    }
  }

  lemma {:induction false} RecentAppend(a: seq<int>, b: seq<int>, m: int)
    ensures RecentCount(a + b, m) == RecentCount(a, m) + RecentCount(b, m)
  {
    if a == [] {
      assert a + b == b;
    } else {
      RecentAppend(a[1..], b, m);
      assert (a + b)[1..] == a[1..] + b;
    }
  }

  lemma {:induction false} NoneRecent(times: seq<int>, m: int)
    requires forall k :: 0 <= k < |times| ==> m - times[k] > RATE_WINDOW
    ensures RecentCount(times, m) == 0
  {
    if times != [] {
      NoneRecent(times[1..], m);
    }
  }

  lemma {:induction false} AllRecent(times: seq<int>, m: int)
    requires forall k :: 0 <= k < |times| ==> m - times[k] <= RATE_WINDOW
    ensures RecentCount(times, m) == |times|
  {
    if times != [] {
      AllRecent(times[1..], m);
    }
  }

  lemma {:induction false} DropOldFirst(times: seq<int>, m: int)
    ensures var left := DropOld(times, m); left != [] ==> m - left[0] <= RATE_WINDOW
    decreases |times|
  {
    if times != [] && m - times[0] > RATE_WINDOW {
      DropOldFirst(times[1..], m);
    }
  }

  /** Five times the reported rate is the number of accepts, in all history, of the last five seconds. */
  lemma {:induction false} RateCountsHistory(expiry: int, evs: seq<Event>, m: int)
    requires ClocksAdvance(evs + [Snap(m)])
    ensures 5.0 * SnapshotOf(Run(expiry, evs), m).rateHz == RecentCount(AcceptTimes(expiry, evs), m) as real
  {
    hide Run, AcceptTimes, RecentCount, DropOld, Rows;
    var all := evs + [Snap(m)];
    var s, times := Run(expiry, evs), AcceptTimes(expiry, evs);
    var gone := WindowIsSuffix(expiry, evs);
    var more := DropOldSplits(s.acceptTimes, m);
    var left := DropOld(s.acceptTimes, m);
    assert times == (gone + more) + left;
    forall k | 0 <= k < |gone|
      ensures m - gone[k] > RATE_WINDOW
    {
      assert FoundOld(evs, gone[k]);
      var i :| 0 <= i < |evs| && evs[i].Snap? && evs[i].mono - gone[k] > RATE_WINDOW;
      assert all[i] == evs[i] && all[|evs|] == Snap(m) && SameClock(all[i], all[|evs|]);
    }
    RecentAppend(gone + more, left, m);
    NoneRecent(gone + more, m);
    assert ClocksAdvance(evs) by { ClocksPrefix(all); assert all[..|evs|] == evs; }
    AcceptTimesSorted(expiry, evs);
    DropOldFirst(s.acceptTimes, m);
    forall k | 0 <= k < |left|
      ensures m - left[k] <= RATE_WINDOW
    {
      var d := |gone + more|;
      assert left[k] == times[d + k] && left[0] == times[d];
    }
    AllRecent(left, m);
  }

  // ----- the satellite in a track-only run -----

  function TrackUpdates(evs: seq<Event>): seq<TrackUpdate> {
    if evs == [] then [] else
    var n := |evs| - 1;
    TrackUpdates(evs[..n]) + if evs[n].Track? then [evs[n].u] else []
  }

  predicate TrackOnly(evs: seq<Event>) {
    forall i :: 0 <= i < |evs| ==> !evs[i].Packet? && (evs[i].Track? ==> !NaN64(evs[i].u.satelliteT))
  }

  /** The earliest of the updates with the largest sample time. */
  predicate IsNewest(us: seq<TrackUpdate>, i: nat) {
    && i < |us|
    && (forall j :: 0 <= j < |us| ==> Key(us[j].satelliteT) <= Key(us[i].satelliteT))
    && (forall j :: 0 <= j < i ==> Key(us[j].satelliteT) < Key(us[i].satelliteT))
  }

  /** The stored satellite is that of the earliest update with the largest sample time. */
  lemma {:induction false} SatelliteIsNewest(expiry: int, evs: seq<Event>) returns (i: nat)
    requires TrackOnly(evs)
    ensures var us, s := TrackUpdates(evs), Run(expiry, evs);
      && (us == [] ==> s.satellite == None && s.satelliteT == None)
      && (us != [] ==> IsNewest(us, i) && s.satellite == Some(us[i].satellite)
                       && s.satelliteT == Some(us[i].satelliteT) && !NaN64(us[i].satelliteT))
  {
    hide NaN64, Key;
    i := 0;
    if evs != [] {
      var n := |evs| - 1;
      i := SatelliteIsNewest(expiry, evs[..n]);
      var us, s := TrackUpdates(evs[..n]), Run(expiry, evs[..n]);
      if evs[n].Track? {
        if us == [] || Key(us[i].satelliteT) < Key(evs[n].u.satelliteT) {
          i := |us|;
        }
      }
    }
  }
}
