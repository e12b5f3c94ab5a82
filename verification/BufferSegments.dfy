/** What the vertex buffer holds, read back: which segments, in which order, and their fourteen floats. */
module BufferSegments {
  import opened Records
  import opened Trails
  import opened TrailBuffer

  /** The segment that ends at sample `i` of the `k`-th trail. */
  datatype Segment = Segment(k: nat, i: nat)

  /** It is drawn: its satellite is not hidden or its category is shown, it is young enough, and it has a length. */
  predicate IsDrawn(m: TrailMap, v: View, ref: real, g: Segment)
    requires Ordered(m)
  {
    && g.k < |m.order|
    && var key, t := m.order[g.k], m.at[m.order[g.k]];
       && 1 <= g.i < |t.s|
       && (v.hideSatellite ==> key.OfObject?) && (t.cat.Some? ==> v.visible(t.cat.value))
       && ref - t.s[g.i].t <= 1000.0 * v.seconds
       && LongEnough(t.s[g.i - 1].pos, t.s[g.i].pos)
  }

  /** The squared length is not below 1e-8. */
  predicate LongEnough(a: Vec, b: Vec) {
    var x, y, z := b.x - a.x, b.y - a.y, b.z - a.z;
    x * x + y * y + z * z >= 0.00000001
  }

  /** Opacity: one when new, none when the trail's time is up, in proportion between. */
  predicate Fades(alpha: real, age: real, life: real) {
    && (age <= 0.0 ==> alpha == 1.0) && (age >= life ==> alpha == 0.0)
    && (0.0 <= age <= life ==> alpha * life == life - age)
  }

  /** Seven floats from `at`: the place, the color, the opacity. */
  predicate VertexAt(f: seq<real>, at: nat, p: Vec, color: Vec, age: real, life: real) {
    && at + 7 <= |f| && f[at] == p.x && f[at + 1] == p.y && f[at + 2] == p.z
    && f[at + 3] == color.x && f[at + 4] == color.y && f[at + 5] == color.z && Fades(f[at + 6], age, life)
  }

  /** Fourteen floats from `at`: the older end, then the newer. */
  predicate SegmentAt(f: seq<real>, at: nat, m: TrailMap, v: View, ref: real, g: Segment)
    requires Ordered(m)
  {
    && g.k < |m.order|
    && var t := m.at[m.order[g.k]];
       && 1 <= g.i < |t.s|
       && VertexAt(f, at, t.s[g.i - 1].pos, v.color(t.cat), (ref - t.s[g.i - 1].t) / 1000.0, v.seconds)
       && VertexAt(f, at + 7, t.s[g.i].pos, v.color(t.cat), (ref - t.s[g.i].t) / 1000.0, v.seconds)
  }

  lemma {:induction false} AlphaFades(age: real, life: real)
    requires life > 0.0
    ensures Fades(Alpha(age, life), age, life)
  {
    Proportion(age, life);
    if age <= 0.0 {
      Signs(age, life);
    } else if age >= life {
      Signs(life - age, life);
    } else {
      Signs(-age, life);
      Signs(age - life, life);
    }
  }

  lemma Proportion(age: real, life: real)
    requires life > 0.0
    ensures (1.0 - age / life) * life == life - age
  {
  }

  /** A quotient has the sign of its numerator. */
  lemma Signs(x: real, life: real)
    requires life > 0.0 && x <= 0.0
    ensures x / life <= 0.0
  {
  }

  // ----- the list of drawn segments -----

  /** Those that end among the first `n` samples of the `k`-th trail. */
  function TrailList(m: TrailMap, v: View, ref: real, k: nat, n: nat): seq<Segment>
    requires Ordered(m)
  {
    if n <= 1 then [] else
    TrailList(m, v, ref, k, n - 1)
    + if IsDrawn(m, v, ref, Segment(k, n - 1)) then [Segment(k, n - 1)] else []
  }

  /** Those of the first `n` trails. */
  function MapList(m: TrailMap, v: View, ref: real, n: nat): seq<Segment>
    requires Ordered(m) && n <= |m.order|
  {
    if n == 0 then [] else
    MapList(m, v, ref, n - 1) + TrailList(m, v, ref, n - 1, |Nth(m, n - 1).s|)
  }

  /** The floats are the segments, one after another. */
  ghost predicate AllAt(f: seq<real>, m: TrailMap, v: View, ref: real, gs: seq<Segment>)
    requires Ordered(m)
  {
    |f| == 14 * |gs| && forall j :: 0 <= j < |gs| ==> SegmentAt(f, 14 * j, m, v, ref, gs[j])
  }

  lemma {:induction false} ShiftedAt(f: seq<real>, g: seq<real>, at: nat, m: TrailMap, v: View, ref: real, x: Segment)
    requires Ordered(m) && SegmentAt(g, at, m, v, ref, x)
    ensures SegmentAt(f + g, |f| + at, m, v, ref, x)
  {
    hide Ordered, Fades;
    assert forall i :: at <= i < at + 14 ==> (f + g)[|f| + i] == g[i];
  }

  lemma {:induction false} KeptAt(f: seq<real>, g: seq<real>, at: nat, m: TrailMap, v: View, ref: real, x: Segment)
    requires Ordered(m) && SegmentAt(f, at, m, v, ref, x)
    ensures SegmentAt(f + g, at, m, v, ref, x)
  {
    hide Ordered, Fades;
  }

  lemma {:induction false} AllJoin(f: seq<real>, g: seq<real>, m: TrailMap, v: View, ref: real, gs: seq<Segment>,
                                   hs: seq<Segment>)
    requires Ordered(m) && AllAt(f, m, v, ref, gs) && AllAt(g, m, v, ref, hs)
    ensures AllAt(f + g, m, v, ref, gs + hs)
  {
    hide Ordered, SegmentAt;
    forall j | 0 <= j < |gs + hs|
      ensures SegmentAt(f + g, 14 * j, m, v, ref, (gs + hs)[j])
    {
      if j < |gs| {
        KeptAt(f, g, 14 * j, m, v, ref, gs[j]);
      } else {
        ShiftedAt(f, g, 14 * (j - |gs|), m, v, ref, hs[j - |gs|]);
        assert |f| + 14 * (j - |gs|) == 14 * j;
      }
    }
  }

  lemma {:induction false} OneAt(m: TrailMap, v: View, ref: real, g: Segment)
    requires Ordered(m) && v.seconds > 0.0 && g.k < |m.order| && 1 <= g.i < |Nth(m, g.k).s|
    ensures var t := Nth(m, g.k);
      AllAt(SegmentFloats(t.s[g.i - 1], t.s[g.i], v.color(t.cat), ref, v.seconds), m, v, ref, [g])
  {
    hide Ordered, Fades, Alpha;
    var t := Nth(m, g.k);
    AlphaFades(Age(t.s[g.i - 1], ref), v.seconds);
    AlphaFades(Age(t.s[g.i], ref), v.seconds);
  }

  lemma QualifiesIff(m: TrailMap, v: View, ref: real, k: nat, i: nat)
    requires Ordered(m) && k < |m.order| && 1 <= i < |Nth(m, k).s|
    ensures IsDrawn(m, v, ref, Segment(k, i)) <==>
      Drawn(v, m.order[k], Nth(m, k)) && Qualifies(Nth(m, k).s, i, ref, v.seconds)
  {
    hide Ordered;
  }

  lemma NothingAt(m: TrailMap, v: View, ref: real)
    requires Ordered(m)
    ensures AllAt([], m, v, ref, [])
  {
    hide Ordered;
  }

  /** One trail. */
  lemma {:induction false} TrailShows(m: TrailMap, v: View, ref: real, k: nat, n: nat)
    requires Ordered(m) && v.seconds > 0.0 && k < |m.order| && n <= |Nth(m, k).s|
    ensures var t, gs := Nth(m, k), TrailList(m, v, ref, k, n);
      if Drawn(v, m.order[k], t) then AllAt(TrailFloats(t.s, n, v.color(t.cat), ref, v.seconds), m, v, ref, gs)
      else gs == []
  {
    hide Ordered, AllAt, IsDrawn, Qualifies, Drawn, SegmentFloats;
    NothingAt(m, v, ref);
    if n > 1 {
      TrailShows(m, v, ref, k, n - 1);
      QualifiesIff(m, v, ref, k, n - 1);
      var t := Nth(m, k);
      OneAt(m, v, ref, Segment(k, n - 1));
      if Drawn(v, m.order[k], t) {
        var f, gs := TrailFloats(t.s, n - 1, v.color(t.cat), ref, v.seconds), TrailList(m, v, ref, k, n - 1);
        if Qualifies(t.s, n - 1, ref, v.seconds) {
          AllJoin(f, SegmentFloats(t.s[n - 2], t.s[n - 1], v.color(t.cat), ref, v.seconds), m, v, ref, gs,
                  [Segment(k, n - 1)]);
        } else {
          assert f + [] == f && gs + [] == gs;
        }
      }
    }
  }

  /** The buffer of a map, read back: it holds exactly its drawn segments, in the order of the trails and of their
      samples, each in fourteen floats. */
  lemma {:induction false} BufferShows(m: TrailMap, v: View, ref: real, n: nat)
    requires Ordered(m) && v.seconds > 0.0 && n <= |m.order|
    ensures AllAt(MapFloats(m, n, v, ref), m, v, ref, MapList(m, v, ref, n))
  {
    hide Ordered, AllAt, TrailFloats, TrailList, Drawn;
    if n == 0 {
      NothingAt(m, v, ref);
    } else {
      BufferShows(m, v, ref, n - 1);
      var t := Nth(m, n - 1);
      TrailShows(m, v, ref, n - 1, |t.s|);
      var f, gs := MapFloats(m, n - 1, v, ref), MapList(m, v, ref, n - 1);
      if Drawn(v, m.order[n - 1], t) {
        AllJoin(f, TrailFloats(t.s, |t.s|, v.color(t.cat), ref, v.seconds), m, v, ref, gs,
                TrailList(m, v, ref, n - 1, |t.s|));
      } else {
        assert f + [] == f && gs + [] == gs;
      }
    }
  }

  predicate Before(a: Segment, b: Segment) {
    a.k < b.k || (a.k == b.k && a.i < b.i)
  }

  lemma {:induction false} TrailListIs(m: TrailMap, v: View, ref: real, k: nat, n: nat)
    requires Ordered(m)
    ensures var gs := TrailList(m, v, ref, k, n);
      && (forall a, b :: 0 <= a < b < |gs| ==> Before(gs[a], gs[b]))
      && (forall g :: g in gs <==> g.k == k && 1 <= g.i < n && IsDrawn(m, v, ref, g))
  {
    hide Ordered, IsDrawn;
    if n > 1 {
      TrailListIs(m, v, ref, k, n - 1);
      var front := TrailList(m, v, ref, k, n - 1);
      assert forall a :: 0 <= a < |front| ==> front[a] in front;
    }
  }

  /** The list holds every drawn segment of the first `n` trails once, in order. */
  lemma {:induction false} MapListIs(m: TrailMap, v: View, ref: real, n: nat)
    requires Ordered(m) && n <= |m.order|
    ensures var gs := MapList(m, v, ref, n);
      && (forall a, b :: 0 <= a < b < |gs| ==> Before(gs[a], gs[b]))
      && (forall g :: g in gs <==> g.k < n && IsDrawn(m, v, ref, g))
  {
    hide Ordered, TrailList;
    if n > 0 {
      MapListIs(m, v, ref, n - 1);
      TrailListIs(m, v, ref, n - 1, |Nth(m, n - 1).s|);
      hide IsDrawn;
      var front, more := MapList(m, v, ref, n - 1), TrailList(m, v, ref, n - 1, |Nth(m, n - 1).s|);
      assert forall a :: 0 <= a < |front| ==> front[a] in front;
      assert forall a :: 0 <= a < |more| ==> more[a] in more;
      forall g
        ensures g in MapList(m, v, ref, n) <==> g.k < n && IsDrawn(m, v, ref, g)
      {
        DrawnInTrail(m, v, ref, g);
      }
    }
  }

  lemma DrawnInTrail(m: TrailMap, v: View, ref: real, g: Segment)
    requires Ordered(m)
    ensures IsDrawn(m, v, ref, g) ==> g.k < |m.order| && 1 <= g.i < |Nth(m, g.k).s|
  {
    hide Ordered;
  }
}
