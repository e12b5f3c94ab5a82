/** What a server-fed trail holds after any number of snapshots, each with its own two clocks. */
module TrailRuns {
  import opened Records
  import opened Collections
  import opened Trails

  // ----- which samples move a trail forward -----

  /** The samples that are newer than all before them. */
  function Forward(s: seq<Sample>, xs: seq<Sample>): (r: seq<Sample>)
    ensures |r| <= |xs|
  {
    if xs == [] then [] else
    var before, x := Forward(s, xs[..|xs| - 1]), xs[|xs| - 1];
    before + if TooOld(s + before, x.t) then [] else [x]
  }

  /** Each later than the one before, and all later than the last of `s`. */
  predicate Ascends(s: seq<Sample>, xs: seq<Sample>) {
    && (forall i, j :: 0 <= i < j < |xs| ==> xs[i].t < xs[j].t)
    && (s != [] ==> forall i :: 0 <= i < |xs| ==> s[|s| - 1].t < xs[i].t)
  }

  /** All samples enter exactly when they ascend. */
  lemma {:induction false} AllForwardIff(s: seq<Sample>, xs: seq<Sample>)
    ensures |Forward(s, xs)| == |xs| <==> Ascends(s, xs)
    ensures Ascends(s, xs) ==> Forward(s, xs) == xs
  {
    hide Ascends, TooOld;
    if xs == [] {
      NothingAscends(s);
    } else {
      var n := |xs| - 1;
      AllForwardIff(s, xs[..n]);
      assert xs == xs[..n] + [xs[n]];
      AscendsStep(s, xs[..n], xs[n]);
    }
  }

  lemma NothingAscends(s: seq<Sample>)
    ensures Ascends(s, [])
  {
  }

  lemma {:induction false} AscendsStep(s: seq<Sample>, xs: seq<Sample>, x: Sample)
    ensures Ascends(s, xs + [x]) <==> Ascends(s, xs) && !TooOld(s + xs, x.t)
  {
    var ys := xs + [x];
    assert forall i :: 0 <= i < |xs| ==> ys[i] == xs[i];
    assert ys[|xs|] == x;
    if xs != [] {
      assert (s + xs)[|s + xs| - 1] == xs[|xs| - 1];
    } else {
      assert s + xs == s;
    }
  }

  /** Only the last sample decides which others are newer. */
  lemma {:induction false} ForwardSame(s: seq<Sample>, t: seq<Sample>, xs: seq<Sample>)
    requires s != [] && t != [] && s[|s| - 1].t == t[|t| - 1].t
    ensures Forward(s, xs) == Forward(t, xs)
  {
    if xs != [] {
      ForwardSame(s, t, xs[..|xs| - 1]);
    }
  }

  lemma {:induction false} ForwardJoin(s: seq<Sample>, a: seq<Sample>, b: seq<Sample>)
    ensures Forward(s, a + b) == Forward(s, a) + Forward(s + Forward(s, a), b)
    decreases |b|
  {
    hide TooOld;
    var first := Forward(s, a);
    if b == [] {
      assert a + b == a;
    } else {
      var n := |b| - 1;
      ForwardJoin(s, a, b[..n]);
      assert (a + b)[..|a| + n] == a + b[..n];
      var before := Forward(s + first, b[..n]);
      assert s + (first + before) == s + first + before;
    }
  }

  // ----- the samples that snapshots bring -----

  function MappedAll(points: seq<ScenePoint>, now: real, server: real, world: World): (xs: seq<Sample>)
    ensures |xs| == |points|
    ensures forall i :: 0 <= i < |points| ==>
      xs[i] == Sample(now - (server - points[i].t * 1000.0), world(points[i].pos))
  {
    seq(|points|, i requires 0 <= i < |points| => Mapped(points[i], now, server, world))
  }

  lemma {:induction false} NewerIsForward(s: seq<Sample>, points: seq<ScenePoint>, now: real, server: real,
                                          world: World)
    ensures Newer(s, points, now, server, world) == Forward(s, MappedAll(points, now, server, world))
  {
    hide Mapped, TooOld;
    if points != [] {
      var n := |points| - 1;
      NewerIsForward(s, points[..n], now, server, world);
      assert MappedAll(points, now, server, world)[..n] == MappedAll(points[..n], now, server, world);
    }
  }

  /** The points of an id in one snapshot, on the viewer's clock: none without a server time, or when the id's row
      is of a category that is not drawn. */
  function MappedIn(a: Arrival, world: World, id: real): seq<Sample> {
    var row := CategoryOfRow(CatById(a.scene.objects), id);
    if a.scene.serverTimeMs.None? || (row.Some? && !IsCategory(row.value)) then []
    else MappedAll(PointsOf(a.scene.trailPoints, id), a.now, a.scene.serverTimeMs.value, world)
  }

  lemma {:induction false} GainedIsForward(s: seq<Sample>, a: Arrival, world: World, id: real)
    ensures Gained(s, a.scene, a.now, world, id) == Forward(s, MappedIn(a, world, id))
  {
    hide Newer, Mapped, IsCategory, CatById, CategoryOfRow;
    if a.scene.serverTimeMs.Some? {
      NewerIsForward(s, PointsOf(a.scene.trailPoints, id), a.now, a.scene.serverTimeMs.value, world);
    }
  }

  /** Those of the snapshots from the `i`-th up to the `n`-th. */
  function MappedBetween(arrivals: seq<Arrival>, i: nat, n: nat, world: World, id: real): seq<Sample>
    requires i <= n <= |arrivals|
  {
    if i == n then [] else
    MappedBetween(arrivals, i, n - 1, world, id) + MappedIn(arrivals[n - 1], world, id)
  }

  lemma {:induction false} MappedBetweenFirst(arrivals: seq<Arrival>, i: nat, n: nat, world: World, id: real)
    requires i < n <= |arrivals|
    ensures MappedBetween(arrivals, i, n, world, id)
      == MappedIn(arrivals[i], world, id) + MappedBetween(arrivals, i + 1, n, world, id)
    decreases n
  {
    hide MappedIn;
    if i + 1 < n {
      MappedBetweenFirst(arrivals, i, n - 1, world, id);
    } else {
      assert MappedBetween(arrivals, i, i, world, id) == [];
    }
  }

  lemma LastOfLast(a: seq<Sample>, b: seq<Sample>)
    ensures LastN(LastN(a, SERVER_TRAIL_CAP) + b, SERVER_TRAIL_CAP) == LastN(a + b, SERVER_TRAIL_CAP)
    ensures a != [] ==> var r := LastN(a, SERVER_TRAIL_CAP); r != [] && r[|r| - 1] == a[|a| - 1]
  {
  }

  // ----- whole runs -----

  ghost predicate ClockAdvances(arrivals: seq<Arrival>) {
    forall i, j :: 0 <= i < j < |arrivals| ==> arrivals[i].now <= arrivals[j].now
  }

  /** All the samples the trail has ever held after snapshot `n`, if it held `all` before snapshot `i`. */
  function Held(all: seq<Sample>, arrivals: seq<Arrival>, i: nat, n: nat, world: World, id: real): seq<Sample>
    requires i <= n <= |arrivals|
  {
    all + Forward(all, MappedBetween(arrivals, i, n, world, id))
  }

  predicate FreshAt(s: seq<Sample>, now: real) {
    s != [] && now - s[|s| - 1].t <= MAX_AGE_MS
  }

  /** No snapshot finds the last sample too old. */
  ghost predicate StaysFresh(all: seq<Sample>, arrivals: seq<Arrival>, i: nat, n: nat, world: World, id: real)
    requires n <= |arrivals|
  {
    forall j :: i < j <= n ==> FreshAt(Held(all, arrivals, i, j, world, id), arrivals[j - 1].now)
  }

  /** A server-fed trail of this id that holds the last 512 of `all`. */
  ghost predicate Holds(m: TrailMap, id: real, all: seq<Sample>) {
    var k := OfObject(id);
    k in m.at && m.at[k].server && m.at[k].s == LastN(all, 512)
  }

  /** One snapshot: the trail is pruned exactly when its last sample is too old. */
  lemma {:induction false} OneMoreSnapshot(arrivals: seq<Arrival>, n: nat, world: World, id: real, all: seq<Sample>)
    requires n < |arrivals| && ClockAdvances(arrivals) && all != []
    requires Holds(TrailsAfter(arrivals, n, world), id, all)
    ensures var r, s := TrailsAfter(arrivals, n + 1, world), all + Forward(all, MappedIn(arrivals[n], world, id));
      && (OfObject(id) in r.at <==> FreshAt(s, arrivals[n].now))
      && (OfObject(id) in r.at ==> Holds(r, id, s))
  {
    hide AfterSnapshot, Forward, Gained, Ordered, TrailOk, LastN, MappedIn;
    var m, a, k := TrailsAfter(arrivals, n, world), arrivals[n], OfObject(id);
    assert n > 0;
    TrailsStayOk(arrivals, n - 1, world);
    ServerTrailTakesOnlyPoints(m, arrivals[n - 1].now, a.scene, a.now, world, id);
    var gained := Forward(all, MappedIn(a, world, id));
    GainedIsForward(m.at[k].s, a, world, id);
    LastOfLast(all, gained);
    ForwardSame(m.at[k].s, all, MappedIn(a, world, id));
    LastOfBoth(LastN(all, SERVER_TRAIL_CAP), all, gained);
  }

  lemma LastOfBoth(a: seq<Sample>, b: seq<Sample>, more: seq<Sample>)
    requires a != [] && b != [] && a[|a| - 1] == b[|b| - 1]
    ensures (a + more)[|a + more| - 1] == (b + more)[|b + more| - 1]
  {
  }

  lemma {:induction false} HeldStep(all: seq<Sample>, arrivals: seq<Arrival>, i: nat, n: nat, world: World, id: real)
    requires i < n <= |arrivals|
    ensures var s := Held(all, arrivals, i, n - 1, world, id);
      Held(all, arrivals, i, n, world, id) == s + Forward(s, MappedIn(arrivals[n - 1], world, id))
  {
    hide Forward, MappedIn;
    var past, more := MappedBetween(arrivals, i, n - 1, world, id), MappedIn(arrivals[n - 1], world, id);
    ForwardJoin(all, past, more);
    var s := Held(all, arrivals, i, n - 1, world, id);
    assert s + Forward(s, more) == all + (Forward(all, past) + Forward(s, more));
  }

  /** The trail is on the map in every state from `i` to `n`. */
  ghost predicate Lives(arrivals: seq<Arrival>, i: nat, n: nat, world: World, id: real)
    requires n <= |arrivals|
  {
    forall j :: i <= j <= n ==> OfObject(id) in TrailsAfter(arrivals, j, world).at
  }

  lemma {:induction false} LivesStep(arrivals: seq<Arrival>, i: nat, n: nat, world: World, id: real)
    requires i < n <= |arrivals|
    ensures Lives(arrivals, i, n, world, id) <==>
      Lives(arrivals, i, n - 1, world, id) && OfObject(id) in TrailsAfter(arrivals, n, world).at
  {
    hide TrailsAfter;
  }

  lemma {:induction false} FreshStep(all: seq<Sample>, arrivals: seq<Arrival>, i: nat, n: nat, world: World, id: real)
    requires i < n <= |arrivals|
    ensures StaysFresh(all, arrivals, i, n, world, id) <==>
      StaysFresh(all, arrivals, i, n - 1, world, id)
      && FreshAt(Held(all, arrivals, i, n, world, id), arrivals[n - 1].now)
  {
    hide Held, FreshAt;
  }

  /** For any clocks: a server-fed trail survives exactly as long as no snapshot finds its last sample too old, and
      holds the last 512 of what it held and of all points since that moved it forward, each mapped by the clocks
      of its own snapshot. */
  lemma {:induction false} ServerTrailOverRun(arrivals: seq<Arrival>, i: nat, n: nat, world: World, id: real,
                                              all: seq<Sample>)
    requires i <= n <= |arrivals| && ClockAdvances(arrivals) && all != []
    requires Holds(TrailsAfter(arrivals, i, world), id, all)
    ensures StaysFresh(all, arrivals, i, n, world, id) <==> Lives(arrivals, i, n, world, id)
    ensures StaysFresh(all, arrivals, i, n, world, id) ==>
      Holds(TrailsAfter(arrivals, n, world), id, Held(all, arrivals, i, n, world, id))
    decreases n
  {
    hide TrailsAfter, Held, Holds, ClockAdvances, FreshAt, Lives, StaysFresh, Forward, MappedIn;
    if i == n {
      HeldAtFirst(all, arrivals, i, world, id);
      LivesAtFirst(all, arrivals, i, world, id);
    } else {
      ServerTrailOverRun(arrivals, i, n - 1, world, id, all);
      LivesStep(arrivals, i, n, world, id);
      FreshStep(all, arrivals, i, n, world, id);
      if StaysFresh(all, arrivals, i, n - 1, world, id) {
        HeldStep(all, arrivals, i, n, world, id);
        HeldNotEmpty(all, arrivals, i, n - 1, world, id);
        OneMoreSnapshot(arrivals, n - 1, world, id, Held(all, arrivals, i, n - 1, world, id));
      }
    }
  }

  lemma LivesAtFirst(all: seq<Sample>, arrivals: seq<Arrival>, i: nat, world: World, id: real)
    requires i <= |arrivals| && Holds(TrailsAfter(arrivals, i, world), id, all)
    ensures Lives(arrivals, i, i, world, id) && StaysFresh(all, arrivals, i, i, world, id)
  {
    hide TrailsAfter;
  }

  lemma HeldAtFirst(all: seq<Sample>, arrivals: seq<Arrival>, i: nat, world: World, id: real)
    requires i <= |arrivals|
    ensures Held(all, arrivals, i, i, world, id) == all
  {
  }

  lemma HeldNotEmpty(all: seq<Sample>, arrivals: seq<Arrival>, i: nat, n: nat, world: World, id: real)
    requires i <= n <= |arrivals| && all != []
    ensures Held(all, arrivals, i, n, world, id) != []
  {
  }

  // ----- from the first point on -----

  lemma {:induction false} FeedFromNothing(cat: string, points: seq<ScenePoint>, now: real, server: real, world: World)
    requires IsCategory(cat)
    ensures var s := Newer([], points, now, server, world);
      && (points != [] ==> s != [])
      && FeedEach(None, Some(cat), points, now, server, world)
         == if s == [] then None else Some(Trail(Some(cat), LastN(s, SERVER_TRAIL_CAP), true))
  {
    hide Mapped, IsCategory;
    if points != [] {
      var init, x := points[..|points| - 1], Mapped(points[|points| - 1], now, server, world);
      FeedFromNothing(cat, init, now, server, world);
      var s := Newer([], init, now, server, world);
      assert [] + s == s;
      if s != [] {
        FeedRingStep(Trail(Some(cat), LastN(s, SERVER_TRAIL_CAP), true), s, Some(cat), x);
        FeedKeepsRow(Trail(Some(cat), LastN(s, SERVER_TRAIL_CAP), true), cat, x);
      }
    }
  }

  lemma FeedKeepsRow(t: Trail, cat: string, x: Sample)
    requires t.cat == Some(cat)
    ensures Feed(Some(t), Some(cat), x).Some? && Feed(Some(t), Some(cat), x).value.cat == Some(cat)
  {
  }

  /** A snapshot with points of an id that has a row to draw but no trail yet. */
  lemma {:induction false} ServerTrailStarts(m: TrailMap, a: Arrival, world: World, id: real)
    requires Ordered(m) && OfObject(id) !in m.at && MappedIn(a, world, id) != []
    requires CategoryOfRow(CatById(a.scene.objects), id).Some?
    ensures var r, s := AfterSnapshot(m, a.scene, a.now, world), Forward([], MappedIn(a, world, id));
      && s != [] && (OfObject(id) in r.at <==> FreshAt(s, a.now))
      && (OfObject(id) in r.at ==> Holds(r, id, s))
  {
    hide Newer, Ordered, AfterSnapshot, FeedAll, FeedEach, LastN, IsCategory, Mapped, Forward;
    var cats, server, points := CatById(a.scene.objects), a.scene.serverTimeMs.value, PointsOf(a.scene.trailPoints, id);
    FedPerTrack(m, cats, a.scene.trailPoints, a.now, server, world, id);
    FeedFromNothing(CategoryOfRow(cats, id).value, points, a.now, server, world);
    NewerIsForward([], points, a.now, server, world);
    PositionsSkipServerTrails(m, a.scene, a.now, world, id);
    LastOfLast(Forward([], MappedIn(a, world, id)), []);
  }

  /** A trail that its first points made survives as long, and holds the last 512 of all points since that moved it
      forward. */
  lemma {:induction false} ServerTrailFromStart(arrivals: seq<Arrival>, i: nat, n: nat, world: World, id: real)
    requires i < n <= |arrivals| && ClockAdvances(arrivals)
    requires OfObject(id) !in TrailsAfter(arrivals, i, world).at && MappedIn(arrivals[i], world, id) != []
    requires CategoryOfRow(CatById(arrivals[i].scene.objects), id).Some?
    ensures StaysFresh([], arrivals, i, n, world, id) <==> Lives(arrivals, i + 1, n, world, id)
    ensures StaysFresh([], arrivals, i, n, world, id) ==>
      Holds(TrailsAfter(arrivals, n, world), id, Forward([], MappedBetween(arrivals, i, n, world, id)))
  {
    hide AfterSnapshot, Forward, ClockAdvances, CategoryOfRow, MappedIn, MappedBetween, Holds, FreshAt, StaysFresh;
    var m, a := TrailsAfter(arrivals, i, world), arrivals[i];
    assert TrailsAfter(arrivals, i + 1, world) == AfterSnapshot(m, a.scene, a.now, world);
    ServerTrailStarts(m, a, world, id);
    hide TrailsAfter;
    var s := Forward([], MappedIn(a, world, id));
    FreshSplits(arrivals, i, n, world, id);
    if FreshAt(s, a.now) {
      ServerTrailOverRun(arrivals, i + 1, n, world, id, s);
      HeldSplits(arrivals, i, n, world, id);
      assert [] + Forward([], MappedBetween(arrivals, i, n, world, id))
        == Forward([], MappedBetween(arrivals, i, n, world, id));
    }
  }

  lemma {:induction false} HeldSplits(arrivals: seq<Arrival>, i: nat, n: nat, world: World, id: real)
    requires i < n <= |arrivals|
    ensures var s := Forward([], MappedIn(arrivals[i], world, id));
      Held([], arrivals, i, n, world, id) == Held(s, arrivals, i + 1, n, world, id)
  {
    hide Forward, MappedIn;
    var first, rest := MappedIn(arrivals[i], world, id), MappedBetween(arrivals, i + 1, n, world, id);
    MappedBetweenFirst(arrivals, i, n, world, id);
    ForwardJoin([], first, rest);
    assert [] + Forward([], first) == Forward([], first);
    assert [] + Forward([], first + rest) == Forward([], first + rest);
  }

  lemma {:induction false} FreshSplits(arrivals: seq<Arrival>, i: nat, n: nat, world: World, id: real)
    requires i < n <= |arrivals|
    ensures var s := Forward([], MappedIn(arrivals[i], world, id));
      StaysFresh([], arrivals, i, n, world, id) <==>
        FreshAt(s, arrivals[i].now) && StaysFresh(s, arrivals, i + 1, n, world, id)
  {
    hide Forward, MappedIn, Held, FreshAt;
    var s := Forward([], MappedIn(arrivals[i], world, id));
    forall j | i < j <= n
      ensures Held([], arrivals, i, j, world, id) == Held(s, arrivals, i + 1, j, world, id)
    {
      HeldSplits(arrivals, i, j, world, id);
    }
    HeldAtFirst(s, arrivals, i + 1, world, id);
    assert Held([], arrivals, i, i + 1, world, id) == s;
    if StaysFresh([], arrivals, i, n, world, id) {
      assert FreshAt(Held([], arrivals, i, i + 1, world, id), arrivals[i + 1 - 1].now);
      assert FreshAt(s, arrivals[i].now);
      var k := i + 1;
      forall j | k < j <= n
        ensures FreshAt(Held(s, arrivals, k, j, world, id), arrivals[j - 1].now)
      {
        assert FreshAt(Held([], arrivals, i, j, world, id), arrivals[j - 1].now);
      }
    }
    if FreshAt(s, arrivals[i].now) && StaysFresh(s, arrivals, i + 1, n, world, id) {
      forall j | i < j <= n
        ensures FreshAt(Held([], arrivals, i, j, world, id), arrivals[j - 1].now)
      {
        assert j == i + 1 || FreshAt(Held(s, arrivals, i + 1, j, world, id), arrivals[j - 1].now);
      }
    }
  }
}
