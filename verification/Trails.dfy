/** The viewer's trails: sample rings fed by snapshots and trail points, and the vertex buffer made from them. */
module Trails {
  import opened Records
  import opened Collections

  const TRAIL_CAP: nat := 64
  const SERVER_TRAIL_CAP: nat := 512
  const MAX_AGE_MS: real := 65000.0

  datatype Vec = Vec(x: real, y: real, z: real)

  datatype Sample = Sample(t: real, pos: Vec)

  /** Objects and satellites never share a trail. */
  datatype Key = OfObject(id: real) | OfSatellite(id: real)

  /** No category means always visible; `server` marks a trail fed by trail points. */
  datatype Trail = Trail(cat: Option<string>, s: seq<Sample>, server: bool)

  datatype SceneObject = SceneObject(id: real, cat: string, pos: Vec)
  datatype ScenePoint = ScenePoint(id: real, t: real, pos: Vec)
  datatype SceneSatellite = SceneSatellite(id: real, pos: Vec)

  /** A parsed state message; the server time is missing when it cannot be read. */
  datatype Scene = Scene(serverTimeMs: Option<real>, objects: seq<SceneObject>, satellite: Option<SceneSatellite>,
                         trailPoints: seq<ScenePoint>)

  /** Meters to scene units; its clamping onto the far shell is not modelled. */
  type World = Vec -> Vec

  predicate IsCategory(cat: string) {
    cat == "debris" || cat == "star" || cat == "comet" || cat == "satellite" || cat == "groundHot" || cat == "unknown"
  }

  // ----- an insertion-ordered map -----

  datatype TrailMap = TrailMap(order: seq<Key>, at: map<Key, Trail>)

  predicate Ordered(m: TrailMap) {
    && (forall i :: 0 <= i < |m.order| ==> m.order[i] in m.at)
    && (forall k :: k in m.at ==> k in m.order)
    && (forall i, j :: 0 <= i < j < |m.order| ==> m.order[i] != m.order[j])
  }

  function Get(m: TrailMap, k: Key): Option<Trail> {
    if k in m.at then Some(m.at[k]) else None
  }

  function Set(m: TrailMap, k: Key, t: Trail): TrailMap {
    TrailMap(if k in m.at then m.order else m.order + [k], m.at[k := t])
  }

  /** A key that has no trail stays without one. */
  function SetIf(m: TrailMap, k: Key, t: Option<Trail>): TrailMap {
    if t.Some? then Set(m, k, t.value) else m
  }

  lemma {:induction false} SetKeepsOrdered(m: TrailMap, k: Key, t: Trail)
    requires Ordered(m)
    ensures Ordered(Set(m, k, t))
  {
    var r := Set(m, k, t);
    if k !in m.at {
      assert forall i :: 0 <= i < |m.order| ==> m.order[i] in m.at && r.order[i] == m.order[i];
      assert r.order[|m.order|] == k;
      forall j | j in r.at
        ensures j in r.order
      {
        if j != k {
          assert j in m.order;
        }
      }
    }
  }

  // ----- feeding one trail -----

  /** Appends to a ring that forgets its oldest sample beyond `cap`. */
  function Push(s: seq<Sample>, x: Sample, cap: nat): seq<Sample> {
    var r := s + [x];
    if |r| > cap then r[1..] else r
  }

  function Samples(t: Option<Trail>): seq<Sample> {
    if t.Some? then t.value.s else []
  }

  /** The category for a trail point: the object row's if there is one, else the trail's. */
  function CategoryFor(t: Option<Trail>, row: Option<string>): Option<string> {
    if row.Some? then row else if t.Some? then t.value.cat else None
  }

  /** A sample time on the viewer's clock. */
  function Mapped(p: ScenePoint, now: real, server: real, world: World): Sample {
    Sample(now - (server - p.t * 1000.0), world(p.pos))
  }

  predicate TooOld(s: seq<Sample>, t: real) {
    s != [] && t <= s[|s| - 1].t
  }

  /** One trail point arrives for a trail. */
  function Feed(t: Option<Trail>, row: Option<string>, x: Sample): Option<Trail> {
    var cat := CategoryFor(t, row);
    if cat.None? || !IsCategory(cat.value) || TooOld(Samples(t), x.t) then t
    else Some(Trail(cat, Push(Samples(t), x, SERVER_TRAIL_CAP), true))
  }

  /** An object row arrives for a trail: server-fed trails do not take its position. */
  function Observe(t: Option<Trail>, cat: string, x: Sample): Option<Trail> {
    if !IsCategory(cat) || (t.Some? && t.value.server) then t
    else Some(Trail(Some(cat), Push(Samples(t), x, TRAIL_CAP), false))
  }

  /** The satellite's trail keeps the category it was made with. */
  function Follow(t: Option<Trail>, x: Sample): Trail {
    Trail(if t.Some? then t.value.cat else None, Push(Samples(t), x, TRAIL_CAP), t.Some? && t.value.server)
  }

  // ----- appendTrails -----

  /** The category of each object id; a later row wins. */
  function CatById(objects: seq<SceneObject>): map<real, string> {
    if objects == [] then map[] else
    var o := objects[|objects| - 1];
    CatById(objects[..|objects| - 1])[o.id := o.cat]
  }

  function CategoryOfRow(cats: map<real, string>, id: real): Option<string> {
    if id in cats then Some(cats[id]) else None
  }

  function FeedAll(m: TrailMap, cats: map<real, string>, points: seq<ScenePoint>, now: real, server: real,
                   world: World): TrailMap {
    if points == [] then m else
    var r, p := FeedAll(m, cats, points[..|points| - 1], now, server, world), points[|points| - 1];
    var k := OfObject(p.id);
    SetIf(r, k, Feed(Get(r, k), CategoryOfRow(cats, p.id), Mapped(p, now, server, world)))
  }

  function ObserveAll(m: TrailMap, objects: seq<SceneObject>, now: real, world: World): TrailMap {
    if objects == [] then m else
    var r, o := ObserveAll(m, objects[..|objects| - 1], now, world), objects[|objects| - 1];
    var k := OfObject(o.id);
    SetIf(r, k, Observe(Get(r, k), o.cat, Sample(now, world(o.pos))))
  }

  function FollowSatellite(m: TrailMap, sat: Option<SceneSatellite>, now: real, world: World): TrailMap {
    if sat.None? then m else
    var k := OfSatellite(sat.value.id);
    Set(m, k, Follow(Get(m, k), Sample(now, world(sat.value.pos))))
  }

  predicate Expired(t: Trail, now: real) {
    t.s == [] || now - t.s[|t.s| - 1].t > MAX_AGE_MS
  }

  function KeepFresh(m: TrailMap, order: seq<Key>, now: real): seq<Key>
    requires forall i :: 0 <= i < |order| ==> order[i] in m.at
  {
    if order == [] then [] else
    var k := order[|order| - 1];
    KeepFresh(m, order[..|order| - 1], now) + if Expired(m.at[k], now) then [] else [k]
  }

  function Prune(m: TrailMap, now: real): TrailMap
    requires Ordered(m)
  {
    TrailMap(KeepFresh(m, m.order, now), map k | k in m.at && !Expired(m.at[k], now) :: m.at[k])
  }

  /** Before pruning. */
  function Fed(m: TrailMap, scene: Scene, now: real, world: World): TrailMap {
    if scene.serverTimeMs.Some?
    then FeedAll(m, CatById(scene.objects), scene.trailPoints, now, scene.serverTimeMs.value, world)
    else m
  }

  function Grown(m: TrailMap, scene: Scene, now: real, world: World): TrailMap {
    FollowSatellite(ObserveAll(Fed(m, scene, now, world), scene.objects, now, world), scene.satellite, now, world)
  }

  lemma {:induction false} FeedKeepsOrdered(m: TrailMap, cats: map<real, string>, points: seq<ScenePoint>, now: real,
                                            server: real, world: World)
    requires Ordered(m)
    ensures Ordered(FeedAll(m, cats, points, now, server, world))
  {
    hide Ordered, Set, Feed;
    if points != [] {
      var r, p := FeedAll(m, cats, points[..|points| - 1], now, server, world), points[|points| - 1];
      var k := OfObject(p.id);
      FeedKeepsOrdered(m, cats, points[..|points| - 1], now, server, world);
      var t := Feed(Get(r, k), CategoryOfRow(cats, p.id), Mapped(p, now, server, world));
      if t.Some? {
        SetKeepsOrdered(r, k, t.value);
      }
    }
  }

  lemma {:induction false} ObserveKeepsOrdered(m: TrailMap, objects: seq<SceneObject>, now: real, world: World)
    requires Ordered(m)
    ensures Ordered(ObserveAll(m, objects, now, world))
  {
    hide Ordered, Set, Observe;
    if objects != [] {
      var r, o := ObserveAll(m, objects[..|objects| - 1], now, world), objects[|objects| - 1];
      var k := OfObject(o.id);
      ObserveKeepsOrdered(m, objects[..|objects| - 1], now, world);
      var t := Observe(Get(r, k), o.cat, Sample(now, world(o.pos)));
      if t.Some? {
        SetKeepsOrdered(r, k, t.value);
      }
    }
  }

  lemma {:induction false} GrownIsOrdered(m: TrailMap, scene: Scene, now: real, world: World)
    requires Ordered(m)
    ensures Ordered(Grown(m, scene, now, world))
  {
    hide Ordered, Set, FeedAll, ObserveAll, Follow;
    if scene.serverTimeMs.Some? {
      FeedKeepsOrdered(m, CatById(scene.objects), scene.trailPoints, now, scene.serverTimeMs.value, world);
    }
    var r := Fed(m, scene, now, world);
    ObserveKeepsOrdered(r, scene.objects, now, world);
    var q := ObserveAll(r, scene.objects, now, world);
    if scene.satellite.Some? {
      var k := OfSatellite(scene.satellite.value.id);
      SetKeepsOrdered(q, k, Follow(Get(q, k), Sample(now, world(scene.satellite.value.pos))));
    }
  }

  function AfterSnapshot(m: TrailMap, scene: Scene, now: real, world: World): TrailMap
    requires Ordered(m)
  {
    GrownIsOrdered(m, scene, now, world);
    Prune(Grown(m, scene, now, world), now)
  }

  lemma {:induction false} FreshKeys(m: TrailMap, order: seq<Key>, now: real)
    requires forall i :: 0 <= i < |order| ==> order[i] in m.at
    requires forall i, j :: 0 <= i < j < |order| ==> order[i] != order[j]
    ensures var r := KeepFresh(m, order, now);
      && (forall i, j :: 0 <= i < j < |r| ==> r[i] != r[j])
      && (forall k :: k in r <==> k in order && !Expired(m.at[k], now))
  {
    hide Expired;
    if order != [] {
      var init, k := order[..|order| - 1], order[|order| - 1];
      FreshKeys(m, init, now);
      assert order == init + [k];
      assert k !in init;
    }
  }

  lemma {:induction false} PruneKeepsOrdered(m: TrailMap, now: real)
    requires Ordered(m)
    ensures Ordered(Prune(m, now))
  {
    hide Expired, KeepFresh;
    FreshKeys(m, m.order, now);
    var r := Prune(m, now);
    assert forall i :: 0 <= i < |r.order| ==> r.order[i] in KeepFresh(m, m.order, now);
    assert forall i :: 0 <= i < |m.order| ==> m.order[i] in m.at;
  }

  // ----- what every trail keeps -----

  predicate InTimeOrder(s: seq<Sample>) {
    forall i, j :: 0 <= i < j < |s| ==> s[i].t <= s[j].t
  }

  /** In time order and within its cap; a trail of the viewer's own is not ahead of the last snapshot. */
  predicate TrailOk(k: Key, t: Trail, now: real) {
    && t.s != [] && InTimeOrder(t.s)
    && (k.OfObject? ==> t.cat.Some? && IsCategory(t.cat.value))
    && if t.server then k.OfObject? && |t.s| <= 512
       else |t.s| <= 64 && t.s[|t.s| - 1].t <= now
  }

  predicate AllOk(m: TrailMap, now: real) {
    forall k :: k in m.at ==> TrailOk(k, m.at[k], now)
  }

  lemma PushKeepsOrder(s: seq<Sample>, x: Sample, cap: nat)
    requires InTimeOrder(s) && (s == [] || s[|s| - 1].t <= x.t) && cap > 0 && |s| <= cap
    ensures var r := Push(s, x, cap); InTimeOrder(r) && r != [] && |r| <= cap && r[|r| - 1] == x
  {
  }

  lemma {:induction false} FeedKeepsOk(k: Key, t: Option<Trail>, row: Option<string>, x: Sample, now: real)
    requires k.OfObject? && (t.Some? ==> TrailOk(k, t.value, now))
    ensures var r := Feed(t, row, x); r.Some? ==> TrailOk(k, r.value, now)
  {
    hide InTimeOrder, Push;
    EmptyInOrder();
    if !TooOld(Samples(t), x.t) {
      PushKeepsOrder(Samples(t), x, SERVER_TRAIL_CAP);
    }
  }

  lemma EmptyInOrder()
    ensures InTimeOrder([])
  {
  }

  lemma {:induction false} ObserveKeepsOk(k: Key, t: Option<Trail>, cat: string, x: Sample)
    requires k.OfObject? && (t.Some? ==> TrailOk(k, t.value, x.t))
    ensures var r := Observe(t, cat, x); r.Some? ==> TrailOk(k, r.value, x.t)
  {
    hide InTimeOrder, Push, IsCategory;
    EmptyInOrder();
    if t.None? || !t.value.server {
      PushKeepsOrder(Samples(t), x, TRAIL_CAP);
    }
  }

  lemma {:induction false} FollowKeepsOk(k: Key, t: Option<Trail>, x: Sample)
    requires k.OfSatellite? && (t.Some? ==> TrailOk(k, t.value, x.t))
    ensures TrailOk(k, Follow(t, x), x.t)
  {
    hide InTimeOrder, Push;
    EmptyInOrder();
    PushKeepsOrder(Samples(t), x, TRAIL_CAP);
  }

  lemma {:induction false} FeedAllKeepsOk(m: TrailMap, cats: map<real, string>, points: seq<ScenePoint>, now: real,
                                          server: real, world: World)
    requires AllOk(m, now)
    ensures AllOk(FeedAll(m, cats, points, now, server, world), now)
  {
    hide TrailOk, Feed, Mapped;
    if points != [] {
      var r, p := FeedAll(m, cats, points[..|points| - 1], now, server, world), points[|points| - 1];
      FeedAllKeepsOk(m, cats, points[..|points| - 1], now, server, world);
      var k := OfObject(p.id);
      FeedKeepsOk(k, Get(r, k), CategoryOfRow(cats, p.id), Mapped(p, now, server, world), now);
    }
  }

  lemma {:induction false} ObserveAllKeepsOk(m: TrailMap, objects: seq<SceneObject>, now: real, world: World)
    requires AllOk(m, now)
    ensures AllOk(ObserveAll(m, objects, now, world), now)
  {
    hide TrailOk, Observe;
    if objects != [] {
      var r, o := ObserveAll(m, objects[..|objects| - 1], now, world), objects[|objects| - 1];
      ObserveAllKeepsOk(m, objects[..|objects| - 1], now, world);
      ObserveKeepsOk(OfObject(o.id), Get(r, OfObject(o.id)), o.cat, Sample(now, world(o.pos)));
    }
  }

  lemma LaterIsOk(m: TrailMap, was: real, now: real)
    requires AllOk(m, was) && was <= now
    ensures AllOk(m, now)
  {
    hide InTimeOrder, IsCategory;
  }

  /** A snapshot that is not older than the last keeps every trail in order and within its cap. */
  lemma {:induction false} SnapshotKeepsOk(m: TrailMap, was: real, scene: Scene, now: real, world: World)
    requires Ordered(m) && AllOk(m, was) && was <= now
    ensures var r := AfterSnapshot(m, scene, now, world);
      Ordered(r) && AllOk(r, now) && forall k :: k in r.at ==> !Expired(r.at[k], now)
  {
    hide TrailOk, FeedAll, ObserveAll, Follow, Ordered, Expired;
    LaterIsOk(m, was, now);
    if scene.serverTimeMs.Some? {
      FeedAllKeepsOk(m, CatById(scene.objects), scene.trailPoints, now, scene.serverTimeMs.value, world);
    }
    var r := Fed(m, scene, now, world);
    ObserveAllKeepsOk(r, scene.objects, now, world);
    var q := ObserveAll(r, scene.objects, now, world);
    if scene.satellite.Some? {
      var k := OfSatellite(scene.satellite.value.id);
      FollowKeepsOk(k, Get(q, k), Sample(now, world(scene.satellite.value.pos)));
    }
    GrownIsOrdered(m, scene, now, world);
    PruneKeepsOrdered(Grown(m, scene, now, world), now);
  }

  // ----- whole runs -----

  datatype Arrival = Arrival(scene: Scene, now: real)

  const EMPTY := TrailMap([], map[])

  /** The trails after the first `n` snapshots, and that they are well ordered. */
  function TrailsAfter(arrivals: seq<Arrival>, n: nat, world: World): (m: TrailMap)
    requires n <= |arrivals|
    ensures Ordered(m)
  {
    if n == 0 then EMPTY else
    var m, a := TrailsAfter(arrivals, n - 1, world), arrivals[n - 1];
    GrownIsOrdered(m, a.scene, a.now, world);
    PruneKeepsOrdered(Grown(m, a.scene, a.now, world), a.now);
    AfterSnapshot(m, a.scene, a.now, world)
  }

  /** For nondecreasing snapshot times: in every state every trail is in time order, holds at most 64 samples
      if the viewer built it and at most 512 if the server feeds it. */
  lemma {:induction false} TrailsStayOk(arrivals: seq<Arrival>, n: nat, world: World)
    requires n < |arrivals| && forall i, j :: 0 <= i < j < |arrivals| ==> arrivals[i].now <= arrivals[j].now
    ensures AllOk(TrailsAfter(arrivals, n + 1, world), arrivals[n].now)
  {
    hide Ordered, AfterSnapshot, TrailOk;
    var a := arrivals[n];
    var m := TrailsAfter(arrivals, n, world);
    if n > 0 {
      TrailsStayOk(arrivals, n - 1, world);
      SnapshotKeepsOk(m, arrivals[n - 1].now, a.scene, a.now, world);
    } else {
      assert AllOk(m, a.now);
      SnapshotKeepsOk(m, a.now, a.scene, a.now, world);
    }
  }

  // ----- what a server-fed trail holds -----

  function PointsOf(points: seq<ScenePoint>, id: real): seq<ScenePoint> {
    if points == [] then [] else
    PointsOf(points[..|points| - 1], id) + if points[|points| - 1].id == id then [points[|points| - 1]] else []
  }

  /** One trail fed with the points of its own id. */
  function FeedEach(t: Option<Trail>, row: Option<string>, points: seq<ScenePoint>, now: real, server: real,
                    world: World): Option<Trail>
  {
    if points == [] then t else
    Feed(FeedEach(t, row, points[..|points| - 1], now, server, world), row,
         Mapped(points[|points| - 1], now, server, world))
  }

  lemma FeedNeverRemoves(t: Option<Trail>, row: Option<string>, x: Sample)
    ensures t.Some? ==> Feed(t, row, x).Some?
  {
  }

  /** Tracks do not interfere: each trail is fed by the points of its id alone. */
  lemma {:induction false} FedPerTrack(m: TrailMap, cats: map<real, string>, points: seq<ScenePoint>, now: real,
                                       server: real, world: World, id: real)
    ensures Get(FeedAll(m, cats, points, now, server, world), OfObject(id)) ==
      FeedEach(Get(m, OfObject(id)), CategoryOfRow(cats, id), PointsOf(points, id), now, server, world)
  {
    hide Feed, Mapped, CategoryOfRow;
    if points != [] {
      FedPerTrack(m, cats, points[..|points| - 1], now, server, world, id);
      var own := PointsOf(points[..|points| - 1], id);
      var all, p := PointsOf(points, id), points[|points| - 1];
      var r := FeedAll(m, cats, points[..|points| - 1], now, server, world);
      FeedNeverRemoves(Get(r, OfObject(p.id)), CategoryOfRow(cats, p.id), Mapped(p, now, server, world));
      if p.id == id {
        assert all == own + [p] && all[..|all| - 1] == own && all[|all| - 1] == p;
      } else {
        assert all == own;
      }
    }
  }

  /** The samples of the points that are newer than all before them. */
  function Newer(s: seq<Sample>, points: seq<ScenePoint>, now: real, server: real, world: World): seq<Sample> {
    if points == [] then [] else
    var before := Newer(s, points[..|points| - 1], now, server, world);
    var x := Mapped(points[|points| - 1], now, server, world);
    before + if TooOld(s + before, x.t) then [] else [x]
  }

  /** Pushing onto the ring keeps the last samples of everything pushed. */
  lemma {:induction false} RingPush(all: seq<Sample>, x: Sample)
    requires all != []
    ensures var r := LastN(all, SERVER_TRAIL_CAP);
      TooOld(r, x.t) == TooOld(all, x.t) && Push(r, x, SERVER_TRAIL_CAP) == LastN(all + [x], SERVER_TRAIL_CAP)
  {
    var r := LastN(all, SERVER_TRAIL_CAP);
    assert r[|r| - 1] == all[|all| - 1];
  }

  /** One point on a server-fed trail that holds the last samples of `all`. */
  lemma {:induction false} FeedRingStep(t: Trail, all: seq<Sample>, row: Option<string>, x: Sample)
    requires t.server && t.cat.Some? && IsCategory(t.cat.value) && (row.Some? ==> IsCategory(row.value))
    requires all != [] && t.s == LastN(all, SERVER_TRAIL_CAP)
    ensures var r := Feed(Some(t), row, x);
      && r.Some? && r.value.server && r.value.cat.Some? && IsCategory(r.value.cat.value)
      && r.value.s == LastN(all + if TooOld(all, x.t) then [] else [x], SERVER_TRAIL_CAP)
  {
    RingPush(all, x);
    hide Push, LastN, TooOld, IsCategory;
    assert all + [] == all;
  }

  lemma {:induction false} FedRing(t: Trail, row: Option<string>, points: seq<ScenePoint>, now: real, server: real,
                                   world: World)
    requires t.server && t.s != [] && |t.s| <= SERVER_TRAIL_CAP && t.cat.Some? && IsCategory(t.cat.value)
    requires row.Some? ==> IsCategory(row.value)
    ensures var r := FeedEach(Some(t), row, points, now, server, world);
      && r.Some? && r.value.server && r.value.cat.Some? && IsCategory(r.value.cat.value)
      && r.value.s == LastN(t.s + Newer(t.s, points, now, server, world), SERVER_TRAIL_CAP)
  {
    hide Mapped, IsCategory;
    if points != [] {
      var init, x := points[..|points| - 1], Mapped(points[|points| - 1], now, server, world);
      FedRing(t, row, init, now, server, world);
      var all := t.s + Newer(t.s, init, now, server, world);
      FeedRingStep(FeedEach(Some(t), row, init, now, server, world).value, all, row, x);
      hide Feed, LastN, TooOld;
      var more := if TooOld(all, x.t) then [] else [x];
      assert all + more == t.s + (Newer(t.s, init, now, server, world) + more);
    } else {
      assert t.s + [] == t.s;
    }
  }

  /** Object rows do not touch a server-fed trail. */
  lemma {:induction false} ObserveSkipsServerTrails(m: TrailMap, objects: seq<SceneObject>, now: real, world: World,
                                                    k: Key)
    requires k in m.at && m.at[k].server
    ensures Get(ObserveAll(m, objects, now, world), k) == Some(m.at[k])
  {
    if objects != [] {
      ObserveSkipsServerTrails(m, objects[..|objects| - 1], now, world, k);
    }
  }

  /** Once this snapshot's trail points have made a trail server-fed, nothing else in it changes the trail. */
  lemma {:induction false} PositionsSkipServerTrails(m: TrailMap, scene: Scene, now: real, world: World, id: real)
    requires Ordered(m)
    requires var f := Fed(m, scene, now, world); OfObject(id) in f.at && f.at[OfObject(id)].server
    ensures var k := OfObject(id);
      var r := AfterSnapshot(m, scene, now, world);
      && (k in r.at <==> !Expired(Fed(m, scene, now, world).at[k], now))
      && (k in r.at ==> r.at[k] == Fed(m, scene, now, world).at[k])
  {
    hide Fed, ObserveAll, Follow, Ordered, KeepFresh, Expired;
    ObserveSkipsServerTrails(Fed(m, scene, now, world), scene.objects, now, world, OfObject(id));
    GrownIsOrdered(m, scene, now, world);
  }

  lemma {:induction false} UnknownFeedsNothing(t: Option<Trail>, row: Option<string>, points: seq<ScenePoint>,
                                               now: real,
                                               server: real, world: World)
    requires row.Some? && !IsCategory(row.value)
    ensures FeedEach(t, row, points, now, server, world) == t
  {
    hide IsCategory;
    if points != [] {
      UnknownFeedsNothing(t, row, points[..|points| - 1], now, server, world);
    }
  }

  /** What a snapshot adds to a server-fed trail: nothing without a server time or a category to draw. */
  function Gained(s: seq<Sample>, scene: Scene, now: real, world: World, id: real): seq<Sample> {
    var row := CategoryOfRow(CatById(scene.objects), id);
    if scene.serverTimeMs.None? || (row.Some? && !IsCategory(row.value)) then []
    else Newer(s, PointsOf(scene.trailPoints, id), now, scene.serverTimeMs.value, world)
  }

  /** A server-fed trail holds the last 512 of its samples and the mapped points of its own id that moved it
      forward: a snapshot position never enters it. It is pruned exactly when the last of these is too old. */
  lemma {:induction false} ServerTrailTakesOnlyPoints(m: TrailMap, was: real, scene: Scene, now: real, world: World,
                                                      id: real)
    requires Ordered(m) && AllOk(m, was) && OfObject(id) in m.at && m.at[OfObject(id)].server
    ensures var k := OfObject(id);
      var r := AfterSnapshot(m, scene, now, world);
      var s := m.at[k].s + Gained(m.at[k].s, scene, now, world, id);
      && s != [] && (k in r.at <==> now - s[|s| - 1].t <= MAX_AGE_MS)
      && (k in r.at ==> r.at[k].server && r.at[k].s == LastN(s, 512))
  {
    hide FeedAll, FeedEach, Newer, InTimeOrder, IsCategory, Ordered, AfterSnapshot;
    var k, t := OfObject(id), m.at[OfObject(id)];
    assert TrailOk(k, t, was);
    if scene.serverTimeMs.Some? {
      var cats, server := CatById(scene.objects), scene.serverTimeMs.value;
      FedPerTrack(m, cats, scene.trailPoints, now, server, world, id);
      var row := CategoryOfRow(cats, id);
      if row.Some? && !IsCategory(row.value) {
        UnknownFeedsNothing(Some(t), row, PointsOf(scene.trailPoints, id), now, server, world);
      } else {
        FedRing(t, row, PointsOf(scene.trailPoints, id), now, server, world);
      }
    }
    assert t.s + [] == t.s;
    PositionsSkipServerTrails(m, scene, now, world, id);
  }
}
