/** The renderer's side of the trails: appending a snapshot in place, and the two passes that fill the vertex
    buffer. */
module TrailBuffer {
  import opened Records
  import opened Trails

  const FLOATS_PER_VERTEX: nat := 7
  const FLOATS_PER_SEGMENT: nat := 14
  const FIRST_CAPACITY: nat := 4096
  const NEAR_ZERO: real := 0.00000001

  /** The display settings the buffer depends on. */
  datatype View = View(show: bool, seconds: real, hideSatellite: bool, visible: string -> bool,
                       color: Option<string> -> Vec)

  // ----- what belongs in the buffer -----

  predicate Drawn(v: View, k: Key, t: Trail) {
    !(v.hideSatellite && k.OfSatellite?) && (t.cat.None? || v.visible(t.cat.value))
  }

  function Age(x: Sample, ref: real): real {
    (ref - x.t) / 1000.0
  }

  function Distance2(a: Vec, b: Vec): real {
    (b.x - a.x) * (b.x - a.x) + (b.y - a.y) * (b.y - a.y) + (b.z - a.z) * (b.z - a.z)
  }

  /** The segment that ends at sample `i` is young enough and has a length. */
  predicate Qualifies(s: seq<Sample>, i: nat, ref: real, seconds: real)
    requires 1 <= i < |s|
  {
    !(Age(s[i], ref) > seconds) && !(Distance2(s[i - 1].pos, s[i].pos) < NEAR_ZERO)
  }

  function Alpha(age: real, seconds: real): real
    requires seconds > 0.0
  {
    var a := 1.0 - age / seconds;
    if a < 0.0 then 0.0 else if a > 1.0 then 1.0 else a
  }

  function VertexFloats(p: Vec, color: Vec, alpha: real): (f: seq<real>)
    ensures |f| == FLOATS_PER_VERTEX
  {
    [p.x, p.y, p.z, color.x, color.y, color.z, alpha]
  }

  function SegmentFloats(a: Sample, b: Sample, color: Vec, ref: real, seconds: real): (f: seq<real>)
    requires seconds > 0.0
    ensures |f| == FLOATS_PER_SEGMENT
  {
    VertexFloats(a.pos, color, Alpha(Age(a, ref), seconds)) + VertexFloats(b.pos, color, Alpha(Age(b, ref), seconds))
  }

  /** The floats of the segments among the first `n` samples of a trail. */
  function TrailFloats(s: seq<Sample>, n: nat, color: Vec, ref: real, seconds: real): seq<real>
    requires n <= |s| && seconds > 0.0
  {
    if n <= 1 then [] else
    TrailFloats(s, n - 1, color, ref, seconds)
    + if Qualifies(s, n - 1, ref, seconds) then SegmentFloats(s[n - 2], s[n - 1], color, ref, seconds) else []
  }

  /** The floats of the first `n` trails in insertion order. */
  function MapFloats(m: TrailMap, n: nat, v: View, ref: real): seq<real>
    requires Ordered(m) && n <= |m.order| && v.seconds > 0.0
  {
    if n == 0 then [] else
    var k := m.order[n - 1];
    var t := m.at[k];
    MapFloats(m, n - 1, v, ref)
    + if Drawn(v, k, t) then TrailFloats(t.s, |t.s|, v.color(t.cat), ref, v.seconds) else []
  }

  /** Which segments qualify, as sample indices. */
  function Segments(s: seq<Sample>, n: nat, ref: real, seconds: real): set<nat>
    requires n <= |s|
  {
    set i: nat | 1 <= i < n && Qualifies(s, i, ref, seconds)
  }

  function SegmentCount(m: TrailMap, n: nat, v: View, ref: real): nat
    requires Ordered(m) && n <= |m.order|
  {
    if n == 0 then 0 else
    var k := m.order[n - 1];
    var t := m.at[k];
    SegmentCount(m, n - 1, v, ref) + if Drawn(v, k, t) then |Segments(t.s, |t.s|, ref, v.seconds)| else 0
  }

  lemma {:induction false} OneMoreSegment(s: seq<Sample>, n: nat, ref: real, seconds: real)
    requires 1 <= n < |s|
    ensures |Segments(s, n + 1, ref, seconds)| ==
      |Segments(s, n, ref, seconds)| + if Qualifies(s, n, ref, seconds) then 1 else 0
  {
    hide Qualifies;
    var before, after := Segments(s, n, ref, seconds), Segments(s, n + 1, ref, seconds);
    if Qualifies(s, n, ref, seconds) {
      assert after == before + {n};
    } else {
      assert after == before;
    }
  }

  /** Fourteen floats for each qualifying segment of a trail. */
  lemma {:induction false} TrailFloatsCount(s: seq<Sample>, n: nat, color: Vec, ref: real, seconds: real)
    requires n <= |s| && seconds > 0.0
    ensures |TrailFloats(s, n, color, ref, seconds)| == FLOATS_PER_SEGMENT * |Segments(s, n, ref, seconds)|
  {
    hide Qualifies, SegmentFloats;
    if n <= 1 {
      assert Segments(s, n, ref, seconds) == {};
    } else {
      TrailFloatsCount(s, n - 1, color, ref, seconds);
      OneMoreSegment(s, n - 1, ref, seconds);
    }
  }

  /** The two passes agree: the floats are fourteen for each segment counted. */
  lemma {:induction false} PassesAgree(m: TrailMap, n: nat, v: View, ref: real)
    requires Ordered(m) && n <= |m.order| && v.seconds > 0.0
    ensures |MapFloats(m, n, v, ref)| == FLOATS_PER_SEGMENT * SegmentCount(m, n, v, ref)
  {
    hide Ordered, Drawn, TrailFloats, Segments;
    if n > 0 {
      PassesAgree(m, n - 1, v, ref);
      var t := Nth(m, n - 1);
      TrailFloatsCount(t.s, |t.s|, v.color(t.cat), ref, v.seconds);
    }
  }

  function Nth(m: TrailMap, i: nat): Trail
    requires Ordered(m) && i < |m.order|
  {
    m.at[m.order[i]]
  }

  lemma {:induction false} TrailFloatsGrow(s: seq<Sample>, i: nat, n: nat, color: Vec, ref: real, seconds: real)
    requires i <= n <= |s| && seconds > 0.0
    ensures |TrailFloats(s, i, color, ref, seconds)| <= |TrailFloats(s, n, color, ref, seconds)|
    decreases n
  {
    hide Qualifies, SegmentFloats;
    if i < n {
      TrailFloatsGrow(s, i, n - 1, color, ref, seconds);
    }
  }

  lemma {:induction false} MapFloatsGrow(m: TrailMap, i: nat, n: nat, v: View, ref: real)
    requires Ordered(m) && i <= n <= |m.order| && v.seconds > 0.0
    ensures |MapFloats(m, i, v, ref)| <= |MapFloats(m, n, v, ref)|
    decreases n
  {
    hide Ordered, Drawn, TrailFloats;
    if i < n {
      MapFloatsGrow(m, i, n - 1, v, ref);
    }
  }

  // ----- fading -----

  lemma DivideKeepsOrder(a: real, b: real, d: real)
    requires a <= b && d > 0.0
    ensures a / d <= b / d
  {
  }

  /** Along a trail in time order opacity never falls, and stays between 0 and 1. */
  lemma {:induction false} FadeFollowsTime(s: seq<Sample>, i: nat, ref: real, seconds: real)
    requires InTimeOrder(s) && 1 <= i < |s| && seconds > 0.0
    ensures 0.0 <= Alpha(Age(s[i - 1], ref), seconds) <= Alpha(Age(s[i], ref), seconds) <= 1.0
  {
    DivideKeepsOrder(Age(s[i], ref), Age(s[i - 1], ref), seconds);
  }

  // ----- the class -----

  class TrailView {
    var order: seq<Key>
    var at: map<Key, Trail>
    var lastSnapNow: real
    var trailArr: array<real>
    var trailVertCount: nat
    const world: World

    function Map(): TrailMap
      reads this
    {
      TrailMap(order, at)
    }

    predicate Valid()
      reads this
    {
      Ordered(Map()) && trailArr.Length >= FIRST_CAPACITY
    }

    constructor (world: World)
      ensures Valid() && Map() == EMPTY && fresh(trailArr) && this.world == world
    {
      order, at, lastSnapNow, trailVertCount := [], map[], 0.0, 0;
      this.world := world;
      trailArr := new real[FIRST_CAPACITY](_ => 0.0);
    }

    method Put(k: Key, t: Trail)
      modifies this`order, this`at
      ensures Map() == Set(old(Map()), k, t)
    {
      if k !in at { order := order + [k]; }
      at := at[k := t];
    }

    method FeedPoints(scene: Scene, cats: map<real, string>, now: real)
      requires scene.serverTimeMs.Some?
      modifies this`order, this`at
      ensures Map() == FeedAll(old(Map()), cats, scene.trailPoints, now, scene.serverTimeMs.value, world)
    {
      hide Set, Push, IsCategory, Mapped;
      var server := scene.serverTimeMs.value;
      for i := 0 to |scene.trailPoints|
        invariant Map() == FeedAll(old(Map()), cats, scene.trailPoints[..i], now, server, world)
      {
        ghost var before := Map();
        var p := scene.trailPoints[i];
        var k := OfObject(p.id);
        var t := if k in at then Some(at[k]) else None;
        var cat := if p.id in cats then Some(cats[p.id]) else if t.Some? then t.value.cat else None;
        assert scene.trailPoints[..i + 1][..i] == scene.trailPoints[..i];
        if cat.None? || !IsCategory(cat.value) {
          assert SetIf(before, k, t) == before by { SetSame(before, k); }
          continue;
        }
        var x := Mapped(p, now, server, world);
        if t.Some? && t.value.s != [] && x.t <= t.value.s[|t.value.s| - 1].t {
          assert SetIf(before, k, t) == before by { SetSame(before, k); }
          continue;
        }
        var s := if t.Some? then t.value.s else [];
        s := Push(s, x, SERVER_TRAIL_CAP);
        Put(k, Trail(cat, s, true));
      }
      assert scene.trailPoints[..|scene.trailPoints|] == scene.trailPoints;
    }

    method ObserveObjects(objects: seq<SceneObject>, now: real)
      modifies this`order, this`at
      ensures Map() == ObserveAll(old(Map()), objects, now, world)
    {
      hide Set, Push, IsCategory;
      for i := 0 to |objects|
        invariant Map() == ObserveAll(old(Map()), objects[..i], now, world)
      {
        ghost var before := Map();
        var o := objects[i];
        var k := OfObject(o.id);
        var existing := if k in at then Some(at[k]) else None;
        assert objects[..i + 1][..i] == objects[..i];
        if !IsCategory(o.cat) || (existing.Some? && existing.value.server) {
          assert SetIf(before, k, existing) == before by { SetSame(before, k); }
          continue;
        }
        var s := if existing.Some? then existing.value.s else [];
        s := Push(s, Sample(now, world(o.pos)), TRAIL_CAP);
        Put(k, Trail(Some(o.cat), s, false));
      }
      assert objects[..|objects|] == objects;
    }

    method PruneExpired(now: real)
      requires Ordered(Map())
      modifies this`order, this`at
      ensures Map() == Prune(old(Map()), now)
    {
      ghost var m := Map();
      assert order[..0] == [] && KeepFresh(m, order[..0], now) == [];
      hide Expired, KeepFresh, Ordered;
      var kept: seq<Key> := [];
      var keys := order;
      for i := 0 to |keys|
        invariant kept == KeepFresh(m, keys[..i], now)
        invariant forall j :: j in at <==> j in m.at && (Expired(m.at[j], now) ==> j !in keys[..i])
        invariant forall j :: j in at ==> at[j] == m.at[j]
      {
        var k := keys[i];
        OneMoreKey(m, i, now);
        if Expired(at[k], now) {
          at := at - {k};
        } else {
          kept := kept + [k];
        }
      }
      assert keys[..|keys|] == keys;
      EveryKeyListed(m);
      assert at == Prune(m, now).at;
      order := kept;
    }

    /** appendTrails for a snapshot that arrives at `now`. */
    method AppendTrails(scene: Scene, now: real)
      requires Valid()
      modifies this`order, this`at, this`lastSnapNow
      ensures Valid() && lastSnapNow == now
      ensures Map() == AfterSnapshot(old(Map()), scene, now, world)
    {
      hide Ordered, FeedAll, ObserveAll, Prune, CatById;
      ghost var m := Map();
      lastSnapNow := now;
      var cats := CollectCategories(scene.objects);
      if scene.serverTimeMs.Some? {
        FeedPoints(scene, cats, now);
      }
      ObserveObjects(scene.objects, now);
      if scene.satellite.Some? {
        var sat := scene.satellite.value;
        var k := OfSatellite(sat.id);
        var t := if k in at then at[k] else Trail(None, [], false);
        Put(k, Trail(t.cat, Push(t.s, Sample(now, world(sat.pos)), TRAIL_CAP), t.server));
      }
      GrownIsOrdered(m, scene, now, world);
      PruneKeepsOrdered(Grown(m, scene, now, world), now);
      assert Map() == Grown(m, scene, now, world);
      PruneExpired(now);
    }

    /** rebuildTrailBuffer: counts the segments, grows the array if it must, and fills it. */
    method RebuildTrailBuffer(v: View)
      requires Valid()
      modifies this`trailArr, this`trailVertCount, trailArr
      ensures Valid() && Map() == old(Map())
      ensures trailArr == old(trailArr) || fresh(trailArr)
      ensures !v.show || v.seconds <= 0.0 ==>
        trailVertCount == 0 && trailArr == old(trailArr) && trailArr[..] == old(trailArr[..])
      ensures v.show && v.seconds > 0.0 ==>
        var count := SegmentCount(Map(), |order|, v, lastSnapNow);
        && trailVertCount == 2 * count
        && FLOATS_PER_SEGMENT * count <= trailArr.Length
        && trailArr[..FLOATS_PER_SEGMENT * count] == MapFloats(Map(), |order|, v, lastSnapNow)
        && (trailArr == old(trailArr) ==>
             forall i :: FLOATS_PER_SEGMENT * count <= i < trailArr.Length ==> trailArr[i] == old(trailArr[i]))
        && (trailArr != old(trailArr) ==>
             old(trailArr.Length) < FLOATS_PER_SEGMENT * count <= trailArr.Length < 2 * (FLOATS_PER_SEGMENT * count)
             && forall i :: FLOATS_PER_SEGMENT * count <= i < trailArr.Length ==> trailArr[i] == 0.0)
    {
      hide Drawn, Qualifies;
      trailVertCount := 0;
      if !v.show || !(v.seconds > 0.0) { return; }
      ghost var m := Map();
      var count := CountSegments(v);
      PassesAgree(m, |order|, v, lastSnapNow);
      if count == 0 {
        assert trailArr[..0] == MapFloats(m, |order|, v, lastSnapNow);
        return;
      }
      var needed := count * FLOATS_PER_SEGMENT;
      Grow(needed);
      hide SegmentCount, MapFloats, Ordered;
      FillBuffer(v);
      trailVertCount := count * 2;
    }

    /** Replaces the array by a zeroed one, doubling its size until `needed` floats fit, if they do not yet. */
    method Grow(needed: nat)
      requires trailArr.Length >= FIRST_CAPACITY
      modifies this`trailArr
      ensures trailArr.Length >= FIRST_CAPACITY && needed <= trailArr.Length
      ensures old(trailArr).Length >= needed ==> trailArr == old(trailArr)
      ensures old(trailArr).Length < needed ==>
        fresh(trailArr) && trailArr.Length < 2 * needed && forall i :: 0 <= i < trailArr.Length ==> trailArr[i] == 0.0
    {
      if trailArr.Length < needed {
        var cap := trailArr.Length;
        while cap < needed
          invariant trailArr.Length <= cap < 2 * needed
          decreases needed - cap
        {
          cap := cap * 2;
        }
        trailArr := new real[cap](_ => 0.0);
      }
    }

    /** The first pass. */
    method CountSegments(v: View) returns (count: nat)
      requires Ordered(Map())
      ensures count == SegmentCount(Map(), |order|, v, lastSnapNow)
    {
      hide Drawn, Qualifies, Segments, Distance2;
      count := 0;
      for n := 0 to |order|
        invariant count == SegmentCount(Map(), n, v, lastSnapNow)
      {
        var k := order[n];
        var t := at[k];
        if !Drawn(v, k, t) { continue; }
        var s := t.s;
        ghost var start := count;
        NoSegments(s, lastSnapNow, v.seconds);
        if |s| > 1 {
          for i := 1 to |s|
            invariant count == start + |Segments(s, i, lastSnapNow, v.seconds)|
          {
            OneMoreSegment(s, i, lastSnapNow, v.seconds);
            if Qualifies(s, i, lastSnapNow, v.seconds) { count := count + 1; }
          }
        }
      }
    }

    /** The second pass: writes every segment, in order, and never past the end. */
    method FillBuffer(v: View)
      requires Ordered(Map()) && v.seconds > 0.0
      requires |MapFloats(Map(), |order|, v, lastSnapNow)| <= trailArr.Length
      modifies trailArr
      ensures var f := MapFloats(Map(), |order|, v, lastSnapNow);
        trailArr[..|f|] == f && forall i :: |f| <= i < trailArr.Length ==> trailArr[i] == old(trailArr[i])
    {
      hide Drawn, Ordered, TrailFloats;
      ghost var m := Map();
      var k := 0;
      for n := 0 to |order|
        invariant k == |MapFloats(m, n, v, lastSnapNow)| <= trailArr.Length
        invariant trailArr[..k] == MapFloats(m, n, v, lastSnapNow)
        invariant trailArr[k..] == old(trailArr[k..])
      {
        MapFloatsGrow(m, n + 1, |order|, v, lastSnapNow);
        assert order[n] in at by { InOrder(m, n); }
        var key := order[n];
        var t := at[key];
        if !Drawn(v, key, t) { continue; }
        k := FillTrail(v, t, k);
      }
      forall i | k <= i < trailArr.Length
        ensures trailArr[i] == old(trailArr[i])
      {
        assert trailArr[k..][i - k] == old(trailArr[k..])[i - k];
      }
    }

    method FillTrail(v: View, t: Trail, start: nat) returns (k: nat)
      requires v.seconds > 0.0
      requires start + |TrailFloats(t.s, |t.s|, v.color(t.cat), lastSnapNow, v.seconds)| <= trailArr.Length
      modifies trailArr
      ensures var f := TrailFloats(t.s, |t.s|, v.color(t.cat), lastSnapNow, v.seconds);
        && k == start + |f| && trailArr[..k] == old(trailArr[..start]) + f
        && trailArr[k..] == old(trailArr[k..])
    {
      hide Qualifies, SegmentFloats;
      var color, s, ref, secs := v.color(t.cat), t.s, lastSnapNow, v.seconds;
      k := start;
      if |s| <= 1 {
        assert trailArr[..k] == trailArr[..start] + [];
        return;
      }
      for i := 1 to |s|
        invariant k == start + |TrailFloats(s, i, color, ref, secs)| <= trailArr.Length
        invariant trailArr[..k] == old(trailArr[..start]) + TrailFloats(s, i, color, ref, secs)
        invariant trailArr[k..] == old(trailArr[k..])
      {
        TrailFloatsGrow(s, i + 1, |s|, color, ref, secs);
        if !Qualifies(s, i, ref, secs) { continue; }
        var a, b := s[i - 1], s[i];
        k := WriteSegment(trailArr, k, a, b, color, ref, secs);
      }
    }
  }

  lemma SetSame(m: TrailMap, k: Key)
    ensures SetIf(m, k, Get(m, k)) == m
  {
  }

  lemma NoSegments(s: seq<Sample>, ref: real, seconds: real)
    ensures |s| >= 1 ==> Segments(s, 1, ref, seconds) == {}
    ensures |s| <= 1 ==> Segments(s, |s|, ref, seconds) == {}
  {
  }

  lemma InOrder(m: TrailMap, n: nat)
    requires Ordered(m) && n < |m.order|
    ensures m.order[n] in m.at
  {
  }

  method CollectCategories(objects: seq<SceneObject>) returns (cats: map<real, string>)
    ensures cats == CatById(objects)
  {
    cats := map[];
    for i := 0 to |objects|
      invariant cats == CatById(objects[..i])
    {
      assert objects[..i + 1][..i] == objects[..i];
      cats := cats[objects[i].id := objects[i].cat];
    }
    assert objects[..|objects|] == objects;
  }

  lemma {:induction false} OneMoreKey(m: TrailMap, i: nat, now: real)
    requires Ordered(m) && i < |m.order|
    ensures m.order[i] in m.at && m.order[i] !in m.order[..i]
    ensures m.order[..i + 1] == m.order[..i] + [m.order[i]]
    ensures KeepFresh(m, m.order[..i + 1], now) ==
      KeepFresh(m, m.order[..i], now) + if Expired(m.at[m.order[i]], now) then [] else [m.order[i]]
  {
    hide Expired;
    assert m.order[..i + 1][..i] == m.order[..i];
  }

  lemma EveryKeyListed(m: TrailMap)
    requires Ordered(m)
    ensures forall k :: k in m.at ==> k in m.order
  {
  }

  /** Two vertices, the older first. */
  method WriteSegment(arr: array<real>, at: nat, a: Sample, b: Sample, color: Vec, ref: real, seconds: real)
    returns (k: nat)
    requires at + FLOATS_PER_SEGMENT <= arr.Length && seconds > 0.0
    modifies arr
    ensures k == at + FLOATS_PER_SEGMENT
    ensures arr[..k] == old(arr[..at]) + SegmentFloats(a, b, color, ref, seconds)
    ensures arr[k..] == old(arr[k..])
  {
    hide Alpha, VertexFloats;
    k := WriteVertex(arr, at, a.pos, color, Alpha(Age(a, ref), seconds));
    k := WriteVertex(arr, k, b.pos, color, Alpha(Age(b, ref), seconds));
  }

  /** Seven floats at `at`, and the index after them. */
  method WriteVertex(arr: array<real>, at: nat, p: Vec, color: Vec, alpha: real) returns (k: nat)
    requires at + FLOATS_PER_VERTEX <= arr.Length
    modifies arr
    ensures k == at + FLOATS_PER_VERTEX
    ensures arr[..k] == old(arr[..at]) + VertexFloats(p, color, alpha)
    ensures arr[k..] == old(arr[k..])
  {
    k := at;
    arr[k] := p.x;
    arr[k + 1] := p.y;
    arr[k + 2] := p.z;
    arr[k + 3] := color.x;
    arr[k + 4] := color.y;
    arr[k + 5] := color.z;
    arr[k + 6] := alpha;
    k := k + 7;
  }
}
