/** The trails the viewer builds itself, from object rows and from the satellite, after any number of snapshots. */
module OwnTrails {
  import opened Records
  import opened Collections
  import opened Trails
  import opened TrailRuns

  // ----- the positions that snapshots bring -----

  /** The rows of an id whose category is drawn, each at the snapshot's time. */
  function PositionsOf(objects: seq<SceneObject>, now: real, world: World, id: real): seq<Sample> {
    if objects == [] then [] else
    var o := objects[|objects| - 1];
    PositionsOf(objects[..|objects| - 1], now, world, id)
    + if o.id == id && IsCategory(o.cat) then [Sample(now, world(o.pos))] else []
  }

  /** The category of the last such row. */
  function LastCategory(objects: seq<SceneObject>, id: real, was: Option<string>): Option<string> {
    if objects == [] then was else
    var o := objects[|objects| - 1];
    if o.id == id && IsCategory(o.cat) then Some(o.cat) else LastCategory(objects[..|objects| - 1], id, was)
  }

  function RowsIn(a: Arrival, world: World, id: real): seq<Sample> {
    PositionsOf(a.scene.objects, a.now, world, id)
  }

  /** The satellite's position, if the snapshot shows this satellite. */
  function SatelliteIn(a: Arrival, world: World, id: real): seq<Sample> {
    if a.scene.satellite.Some? && a.scene.satellite.value.id == id
    then [Sample(a.now, world(a.scene.satellite.value.pos))] else []
  }

  /** Either feed of a key: rows for an object, the satellite for a satellite. */
  function Brought(a: Arrival, world: World, k: Key): seq<Sample> {
    match k
    case OfObject(id) => RowsIn(a, world, id)
    case OfSatellite(id) => SatelliteIn(a, world, id)
  }

  function BroughtBetween(arrivals: seq<Arrival>, i: nat, n: nat, world: World, k: Key): seq<Sample>
    requires i <= n <= |arrivals|
  {
    if i == n then [] else BroughtBetween(arrivals, i, n - 1, world, k) + Brought(arrivals[n - 1], world, k)
  }

  // ----- one trail -----

  /** A trail of the viewer's own that holds the last 64 of `all`; none when that is empty. */
  ghost predicate Own(m: TrailMap, k: Key, all: seq<Sample>) {
    if all == [] then k !in m.at
    else k in m.at && !m.at[k].server && m.at[k].s == LastN(all, 64)
  }

  lemma PushKeepsLast(all: seq<Sample>, x: Sample)
    ensures Push(LastN(all, TRAIL_CAP), x, TRAIL_CAP) == LastN(all + [x], TRAIL_CAP)
  {
  }

  lemma LastOfLastOwn(a: seq<Sample>)
    ensures a != [] ==> var r := LastN(a, TRAIL_CAP); r != [] && r[|r| - 1] == a[|a| - 1]
  {
  }

  /** The rows of a snapshot feed the trail of their id. */
  lemma {:induction false} RowsFeed(m: TrailMap, objects: seq<SceneObject>, now: real, world: World, id: real,
                                    all: seq<Sample>)
    requires Own(m, OfObject(id), all)
    ensures var r := ObserveAll(m, objects, now, world);
      && Own(r, OfObject(id), all + PositionsOf(objects, now, world, id))
      && (OfObject(id) in r.at ==>
            r.at[OfObject(id)].cat
            == LastCategory(objects, id, if OfObject(id) in m.at then m.at[OfObject(id)].cat else None))
  {
    hide IsCategory, Push, LastN;
    if objects == [] {
      assert all + [] == all;
    } else {
      var n := |objects| - 1;
      RowsFeed(m, objects[..n], now, world, id, all);
      var o := objects[n];
      var held := all + PositionsOf(objects[..n], now, world, id);
      if o.id == id && IsCategory(o.cat) {
        var x := Sample(now, world(o.pos));
        PushKeepsLast(held, x);
        NothingLast();
        assert all + PositionsOf(objects, now, world, id) == held + [x];
      } else {
        assert all + PositionsOf(objects, now, world, id) == held;
      }
    }
  }

  lemma NothingLast()
    ensures LastN<Sample>([], TRAIL_CAP) == []
  {
  }

  /** Without points for it, a trail is not touched by the server's feed. */
  lemma {:induction false} NotFed(m: TrailMap, a: Arrival, world: World, id: real)
    requires MappedIn(a, world, id) == []
    ensures Get(Fed(m, a.scene, a.now, world), OfObject(id)) == Get(m, OfObject(id))
  {
    hide FeedAll, FeedEach, IsCategory, CatById, CategoryOfRow, Mapped;
    if a.scene.serverTimeMs.Some? {
      var cats, server := CatById(a.scene.objects), a.scene.serverTimeMs.value;
      var points, row := PointsOf(a.scene.trailPoints, id), CategoryOfRow(cats, id);
      FedPerTrack(m, cats, a.scene.trailPoints, a.now, server, world, id);
      if row.Some? && !IsCategory(row.value) {
        UnknownFeedsNothing(Get(m, OfObject(id)), row, points, a.now, server, world);
      } else {
        assert points == [];
        FeedNothing(Get(m, OfObject(id)), row, a.now, server, world);
      }
    }
  }

  lemma FeedNothing(t: Option<Trail>, row: Option<string>, now: real, server: real, world: World)
    ensures FeedEach(t, row, [], now, server, world) == t
  {
  }

  /** The server's feed and the rows never touch a satellite's trail. */
  lemma {:induction false} SatelliteNotFed(m: TrailMap, cats: map<real, string>, points: seq<ScenePoint>, now: real,
                                           server: real, world: World, id: real)
    ensures Get(FeedAll(m, cats, points, now, server, world), OfSatellite(id)) == Get(m, OfSatellite(id))
  {
    hide Feed, Mapped;
    if points != [] {
      SatelliteNotFed(m, cats, points[..|points| - 1], now, server, world, id);
    }
  }

  lemma {:induction false} SatelliteNotObserved(m: TrailMap, objects: seq<SceneObject>, now: real, world: World,
                                                id: real)
    ensures Get(ObserveAll(m, objects, now, world), OfSatellite(id)) == Get(m, OfSatellite(id))
  {
    hide Observe;
    if objects != [] {
      SatelliteNotObserved(m, objects[..|objects| - 1], now, world, id);
    }
  }

  /** A key that nothing feeds with points. */
  predicate NoPoints(a: Arrival, world: World, k: Key) {
    k.OfObject? ==> MappedIn(a, world, k.id) == []
  }

  /** Before pruning. */
  lemma {:induction false} GrownOwn(m: TrailMap, a: Arrival, world: World, k: Key, all: seq<Sample>)
    requires Own(m, k, all) && NoPoints(a, world, k)
    ensures Own(Grown(m, a.scene, a.now, world), k, all + Brought(a, world, k))
  {
    hide FeedAll, ObserveAll, MappedIn, Push, LastN, IsCategory, PositionsOf;
    var f := Fed(m, a.scene, a.now, world);
    var r := ObserveAll(f, a.scene.objects, a.now, world);
    match k
    case OfObject(id) =>
      NotFed(m, a, world, id);
      OwnOf(m, f, k, all);
      RowsFeed(f, a.scene.objects, a.now, world, id, all);
    case OfSatellite(id) =>
      if a.scene.serverTimeMs.Some? {
        SatelliteNotFed(m, CatById(a.scene.objects), a.scene.trailPoints, a.now, a.scene.serverTimeMs.value, world, id);
      }
      OwnOf(m, f, k, all);
      SatelliteNotObserved(f, a.scene.objects, a.now, world, id);
      OwnOf(f, r, k, all);
      if a.scene.satellite.Some? && a.scene.satellite.value.id == id {
        PushKeepsLast(all, Sample(a.now, world(a.scene.satellite.value.pos)));
        NothingLast();
      } else {
        assert all + [] == all;
      }
  }

  lemma OwnOf(m: TrailMap, r: TrailMap, k: Key, all: seq<Sample>)
    requires Own(m, k, all) && Get(r, k) == Get(m, k)
    ensures Own(r, k, all)
  {
  }

  // ----- runs -----

  /** One snapshot: the trail is there exactly when its last sample is not too old. */
  lemma {:induction false} OneMoreOwn(arrivals: seq<Arrival>, n: nat, world: World, k: Key, all: seq<Sample>)
    requires n < |arrivals| && Own(TrailsAfter(arrivals, n, world), k, all) && NoPoints(arrivals[n], world, k)
    ensures var r, s := TrailsAfter(arrivals, n + 1, world), all + Brought(arrivals[n], world, k);
      && (k in r.at <==> FreshAt(s, arrivals[n].now)) && (k in r.at ==> Own(r, k, s))
  {
    hide Grown, Brought, Ordered, LastN, MappedIn;
    var m, a := TrailsAfter(arrivals, n, world), arrivals[n];
    var s := all + Brought(a, world, k);
    GrownIsOrdered(m, a.scene, a.now, world);
    GrownOwn(m, a, world, k, all);
    LastOfLastOwn(s);
  }

  /** All the positions the trail has ever held. */
  function HeldOwn(all: seq<Sample>, arrivals: seq<Arrival>, i: nat, n: nat, world: World, k: Key): seq<Sample>
    requires i <= n <= |arrivals|
  {
    all + BroughtBetween(arrivals, i, n, world, k)
  }

  ghost predicate StaysFreshOwn(all: seq<Sample>, arrivals: seq<Arrival>, i: nat, n: nat, world: World, k: Key)
    requires n <= |arrivals|
  {
    forall j :: i < j <= n ==> FreshAt(HeldOwn(all, arrivals, i, j, world, k), arrivals[j - 1].now)
  }

  ghost predicate LivesOwn(arrivals: seq<Arrival>, i: nat, n: nat, world: World, k: Key)
    requires n <= |arrivals|
  {
    forall j :: i < j <= n ==> k in TrailsAfter(arrivals, j, world).at
  }

  ghost predicate NeverFed(arrivals: seq<Arrival>, i: nat, n: nat, world: World, k: Key)
    requires n <= |arrivals|
  {
    forall j :: i <= j < n ==> NoPoints(arrivals[j], world, k)
  }

  lemma {:induction false} OwnStep(all: seq<Sample>, arrivals: seq<Arrival>, i: nat, n: nat, world: World, k: Key)
    requires i < n <= |arrivals|
    ensures LivesOwn(arrivals, i, n, world, k) <==>
      LivesOwn(arrivals, i, n - 1, world, k) && k in TrailsAfter(arrivals, n, world).at
    ensures StaysFreshOwn(all, arrivals, i, n, world, k) <==>
      StaysFreshOwn(all, arrivals, i, n - 1, world, k)
      && FreshAt(HeldOwn(all, arrivals, i, n, world, k), arrivals[n - 1].now)
    ensures HeldOwn(all, arrivals, i, n, world, k)
      == HeldOwn(all, arrivals, i, n - 1, world, k) + Brought(arrivals[n - 1], world, k)
  {
    hide TrailsAfter, FreshAt, Brought;
    var past, more := BroughtBetween(arrivals, i, n - 1, world, k), Brought(arrivals[n - 1], world, k);
    assert all + (past + more) == all + past + more;
    hide HeldOwn;
  }

  /** Over any run of snapshots: a trail of an object that no trail point feeds, and a satellite's trail, is there
      exactly as long as no snapshot finds its last position older than 65 seconds, and holds the last 64 positions of
      the object's drawn rows, or of the satellite, each at its snapshot's time. */
  lemma {:induction false} OwnTrailOverRun(arrivals: seq<Arrival>, i: nat, n: nat, world: World, k: Key,
                                           all: seq<Sample>)
    requires i <= n <= |arrivals| && Own(TrailsAfter(arrivals, i, world), k, all)
    requires NeverFed(arrivals, i, n, world, k)
    ensures StaysFreshOwn(all, arrivals, i, n, world, k) <==> LivesOwn(arrivals, i, n, world, k)
    ensures StaysFreshOwn(all, arrivals, i, n, world, k) ==>
      Own(TrailsAfter(arrivals, n, world), k, HeldOwn(all, arrivals, i, n, world, k))
    decreases n
  {
    hide TrailsAfter, HeldOwn, Own, FreshAt, LivesOwn, StaysFreshOwn, Brought, NoPoints;
    if i == n {
      OwnAtFirst(all, arrivals, i, world, k);
    } else {
      OwnTrailOverRun(arrivals, i, n - 1, world, k, all);
      OwnStep(all, arrivals, i, n, world, k);
      if StaysFreshOwn(all, arrivals, i, n - 1, world, k) {
        OneMoreOwn(arrivals, n - 1, world, k, HeldOwn(all, arrivals, i, n - 1, world, k));
      }
    }
  }

  lemma OwnAtFirst(all: seq<Sample>, arrivals: seq<Arrival>, i: nat, world: World, k: Key)
    requires i <= |arrivals|
    ensures LivesOwn(arrivals, i, i, world, k) && StaysFreshOwn(all, arrivals, i, i, world, k)
    ensures HeldOwn(all, arrivals, i, i, world, k) == all
  {
    hide TrailsAfter;
  }

  // ----- categories -----

  function CategoryIn(m: TrailMap, k: Key): Option<string> {
    if k in m.at then m.at[k].cat else None
  }

  /** A trail of the viewer's own takes the category of its last drawn row; a satellite's keeps its own. */
  lemma {:induction false} OwnCategory(m: TrailMap, a: Arrival, world: World, k: Key, all: seq<Sample>)
    requires Ordered(m) && Own(m, k, all) && NoPoints(a, world, k) && k in AfterSnapshot(m, a.scene, a.now, world).at
    ensures AfterSnapshot(m, a.scene, a.now, world).at[k].cat ==
      match k
      case OfObject(id) => LastCategory(a.scene.objects, id, CategoryIn(m, k))
      case OfSatellite(_) => CategoryIn(m, k)
  {
    hide FeedAll, ObserveAll, MappedIn, Push, LastN, IsCategory, PositionsOf, LastCategory, Ordered;
    var f := Fed(m, a.scene, a.now, world);
    GrownIsOrdered(m, a.scene, a.now, world);
    match k
    case OfObject(id) =>
      NotFed(m, a, world, id);
      OwnOf(m, f, k, all);
      RowsFeed(f, a.scene.objects, a.now, world, id, all);
    case OfSatellite(id) =>
      if a.scene.serverTimeMs.Some? {
        SatelliteNotFed(m, CatById(a.scene.objects), a.scene.trailPoints, a.now, a.scene.serverTimeMs.value, world, id);
      }
      SatelliteNotObserved(f, a.scene.objects, a.now, world, id);
  }

  /** Points that move a trail forward give it the category of its row, if there is one. */
  lemma {:induction false} FedCategory(t: Trail, row: Option<string>, points: seq<ScenePoint>, now: real, server: real,
                                       world: World)
    requires t.server && t.s != [] && |t.s| <= SERVER_TRAIL_CAP && t.cat.Some? && IsCategory(t.cat.value)
    requires row.Some? ==> IsCategory(row.value)
    ensures var r := FeedEach(Some(t), row, points, now, server, world);
      r.Some? && r.value.cat ==
        if row.Some? && Forward(t.s, MappedAll(points, now, server, world)) != [] then row else t.cat
  {
    hide Mapped, IsCategory, Push, LastN;
    if points != [] {
      var n := |points| - 1;
      var init, xs := points[..n], MappedAll(points, now, server, world);
      FedCategory(t, row, init, now, server, world);
      FedRing(t, row, init, now, server, world);
      NewerIsForward(t.s, init, now, server, world);
      assert xs[..n] == MappedAll(init, now, server, world) && xs[n] == Mapped(points[n], now, server, world);
      var all := t.s + Forward(t.s, xs[..n]);
      RingPush(all, xs[n]);
    }
  }

  /** The category a trail point goes by: that of the last row of its id. */
  lemma {:induction false} CategoryIsLastRow(objects: seq<SceneObject>, id: real)
    ensures match CategoryOfRow(CatById(objects), id)
      case None => forall i :: 0 <= i < |objects| ==> objects[i].id != id
      case Some(cat) => exists i :: 0 <= i < |objects| && objects[i].id == id && objects[i].cat == cat
                                    && forall j :: i < j < |objects| ==> objects[j].id != id
  {
    if objects != [] {
      var n := |objects| - 1;
      CategoryIsLastRow(objects[..n], id);
      assert forall i :: 0 <= i < n ==> objects[..n][i] == objects[i];
    }
  }
}
