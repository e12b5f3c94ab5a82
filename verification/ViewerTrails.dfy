/** The messages a client was delivered, and the trails its viewer draws from them. */
module ViewerTrails {
  import opened Bytes
  import opened Records
  import opened Collections
  import opened Json
  import opened ClientMessage
  import opened Viewer
  import opened Delivery
  import opened Trails
  import opened TrailRuns
  import Sessions

  /** A delivered message and the viewer's clock when it came. */
  datatype Receipt = Receipt(m: Sessions.Message, now: real)

  /** Date.parse: milliseconds, if the text is a date. */
  type Anchor = string -> Option<real>

  // ----- a message as a scene -----

  function Coordinate(pos: seq<Value>, i: nat): real {
    if i < |pos| then RealOf(pos[i]) else 0.0
  }

  function PosOf(pos: seq<Value>): Vec {
    Vec(Coordinate(pos, 0), Coordinate(pos, 1), Coordinate(pos, 2))
  }

  function PointOf(p: ClientTrailPoint): ScenePoint {
    ScenePoint(RealOf(p.id), RealOf(p.t), PosOf(p.pos))
  }

  function RowOf(o: ClientObject): SceneObject {
    SceneObject(RealOf(o.id), o.category, PosOf(o.pos))
  }

  function SceneOf(m: Message, anchor: Anchor): Scene
    requires m.State?
  {
    Scene(anchor(m.serverTime), Each(m.objects, RowOf),
          if m.satellite.Some? then Some(SceneSatellite(RealOf(m.satellite.value.id), PosOf(m.satellite.value.pos)))
          else None,
          Each(m.trailPoints, PointOf))
  }

  /** onmessage: every state message that can be read becomes a snapshot; the others change nothing. */
  function ArrivalOf(r: Receipt, anchor: Anchor): seq<Arrival> {
    if !r.m.StateFrame? then [] else
    var parsed := ParseStateMessage(r.m.text);
    if parsed.Ok? && parsed.value.State? then [Arrival(SceneOf(parsed.value, anchor), r.now)] else []
  }

  function ArrivalsOf(receipts: seq<Receipt>, anchor: Anchor): seq<Arrival> {
    if receipts == [] then [] else
    ArrivalsOf(receipts[..|receipts| - 1], anchor) + ArrivalOf(receipts[|receipts| - 1], anchor)
  }

  function MessagesOf(receipts: seq<Receipt>): (ms: seq<Sessions.Message>)
    ensures |ms| == |receipts| && forall i :: 0 <= i < |ms| ==> ms[i] == receipts[i].m
  {
    seq(|receipts|, i requires 0 <= i < |receipts| => receipts[i].m)
  }

  // ----- the points a client reads, on its viewer's clock -----

  function PointsOfMessage(m: Sessions.Message): seq<ClientTrailPoint> {
    if m.StateFrame? then PointsIn(m.text) else []
  }

  function ServerTimeOf(m: Sessions.Message, anchor: Anchor): Option<real> {
    if !m.StateFrame? then None else
    var parsed := ParseStateMessage(m.text);
    if parsed.Ok? && parsed.value.State? then anchor(parsed.value.serverTime) else None
  }

  /** The points of an id in one message, mapped by the clocks of that message. */
  function SamplesIn(r: Receipt, anchor: Anchor, world: World, id: u32): seq<Sample> {
    var server := ServerTimeOf(r.m, anchor);
    if server.None? then [] else
    MappedAll(Each(SeenFor(PointsOfMessage(r.m), id), PointOf), r.now, server.value, world)
  }

  function SamplesRead(receipts: seq<Receipt>, anchor: Anchor, world: World, id: u32): seq<Sample> {
    if receipts == [] then [] else
    SamplesRead(receipts[..|receipts| - 1], anchor, world, id) + SamplesIn(receipts[|receipts| - 1], anchor, world, id)
  }

  /** Every message with points of the id has a server time. */
  ghost predicate TimesKnown(receipts: seq<Receipt>, anchor: Anchor, id: u32) {
    forall i :: 0 <= i < |receipts| && SeenFor(PointsOfMessage(receipts[i].m), id) != [] ==>
      ServerTimeOf(receipts[i].m, anchor).Some?
  }

  lemma {:induction false} SeenForJoin(a: seq<ClientTrailPoint>, b: seq<ClientTrailPoint>, id: u32)
    ensures SeenFor(a + b, id) == SeenFor(a, id) + SeenFor(b, id)
    decreases |b|
  {
    hide HasId;
    if b == [] {
      assert a + b == a;
    } else {
      var n := |b| - 1;
      SeenForJoin(a, b[..n], id);
      assert (a + b)[..|a| + n] == a + b[..n];
    }
  }

  lemma {:induction false} ReadOneMore(front: seq<Receipt>, last: Receipt)
    ensures Read(MessagesOf(front + [last])) == Read(MessagesOf(front)) + PointsOfMessage(last.m)
  {
    hide PointsIn;
    var ms := MessagesOf(front + [last]);
    assert ms[..|ms| - 1] == MessagesOf(front) && ms[|ms| - 1] == last.m;
  }

  /** Every point read has a sample exactly when every message with points has a server time. */
  lemma {:induction false} EverySampledIff(receipts: seq<Receipt>, anchor: Anchor, world: World, id: u32)
    ensures var xs, points := SamplesRead(receipts, anchor, world, id), SeenFor(Read(MessagesOf(receipts)), id);
      |xs| <= |points| && (|xs| == |points| <==> TimesKnown(receipts, anchor, id))
  {
    hide PointsOfMessage, ServerTimeOf, MappedAll, PointOf, Read, SeenFor;
    if receipts == [] {
      NothingSeen(receipts, id);
    } else {
      var front, last := receipts[..|receipts| - 1], receipts[|receipts| - 1];
      EverySampledIff(front, anchor, world, id);
      assert receipts == front + [last];
      ReadOneMore(front, last);
      SeenForJoin(Read(MessagesOf(front)), PointsOfMessage(last.m), id);
      KnownSplits(front, last, anchor, id);
    }
  }

  lemma NothingSeen(receipts: seq<Receipt>, id: u32)
    requires receipts == []
    ensures SeenFor(Read(MessagesOf(receipts)), id) == []
  {
  }

  lemma {:induction false} KnownSplits(front: seq<Receipt>, last: Receipt, anchor: Anchor, id: u32)
    ensures TimesKnown(front + [last], anchor, id) <==>
      TimesKnown(front, anchor, id)
      && (SeenFor(PointsOfMessage(last.m), id) != [] ==> ServerTimeOf(last.m, anchor).Some?)
  {
    hide PointsOfMessage, ServerTimeOf, SeenFor;
    var all := front + [last];
    assert forall i :: 0 <= i < |front| ==> all[i] == front[i];
    assert all[|front|] == last;
  }

  /** Which points move a trail forward depends on all their clocks: every point read enters a trail that ends like
      `s` exactly when each message with points has a server time, and the mapped times strictly ascend from `s` on,
      within messages and from one to the next. */
  lemma {:induction false} EveryPointEntersIff(s: seq<Sample>, receipts: seq<Receipt>, anchor: Anchor, world: World,
                                               id: u32)
    ensures var xs, points := SamplesRead(receipts, anchor, world, id), SeenFor(Read(MessagesOf(receipts)), id);
      && |Forward(s, xs)| <= |points|
      && (|Forward(s, xs)| == |points| <==> TimesKnown(receipts, anchor, id) && Ascends(s, xs))
      && (TimesKnown(receipts, anchor, id) && Ascends(s, xs) ==> Forward(s, xs) == xs)
  {
    hide SamplesRead, SeenFor, Read, TimesKnown, Ascends;
    EverySampledIff(receipts, anchor, world, id);
    AllForwardIff(s, SamplesRead(receipts, anchor, world, id));
  }

  /** The points of one id among those of a message. */
  lemma {:induction false} PointsOfRead(points: seq<ClientTrailPoint>, id: u32)
    ensures PointsOf(Each(points, PointOf), id as real) == Each(SeenFor(points, id), PointOf)
  {
    hide RealOf, PosOf;
    if points != [] {
      var n := |points| - 1;
      PointsOfRead(points[..n], id);
      var all := Each(points, PointOf);
      assert all[..n] == Each(points[..n], PointOf) && all[n] == PointOf(points[n]);
      var seen := SeenFor(points[..n], id);
      if HasId(points[n], id) {
        assert Each(seen + [points[n]], PointOf) == Each(seen, PointOf) + [PointOf(points[n])];
      } else {
        assert seen + [] == seen;
      }
    }
  }

  // ----- every category can be drawn -----

  lemma CategoryNamed(n: int)
    ensures IsCategory(CategoryName(n))
  {
  }

  lemma {:induction false} RowsHaveCategories(rows: seq<Json>)
    ensures ParseRows(rows).Ok? ==>
      forall i :: 0 <= i < |ParseRows(rows).value| ==> IsCategory(ParseRows(rows).value[i].category)
  {
    hide IsFiniteNumber, AreFiniteNumbers, ParseRowVelocity, CategoryName, IsCategory, ValueIn, NumbersOf;
    if rows != [] && ParseRows(rows).Ok? {
      RowsHaveCategories(rows[1..]);
      CategoryNamed(IntegerValue(ValueIn(rows[0].items[1])).value);
    }
  }

  lemma {:induction false} CategoriesKnown(objects: seq<SceneObject>, id: real)
    requires forall i :: 0 <= i < |objects| ==> IsCategory(objects[i].cat)
    ensures var row := CategoryOfRow(CatById(objects), id); row.Some? ==> IsCategory(row.value)
  {
    hide IsCategory;
    if objects != [] {
      CategoriesKnown(objects[..|objects| - 1], id);
    }
  }

  lemma {:induction false} MessageCategories(text: string, id: real)
    ensures var r := ParseStateMessage(text);
      r.Ok? && r.value.State? ==>
        var row := CategoryOfRow(CatById(Each(r.value.objects, RowOf)), id); row.Some? ==> IsCategory(row.value)
  {
    hide ParseText, Lookup, ParseRows, ParseSatellite, ParseTrailPoints, IsFiniteNumber, IsCategory, CategoryOfRow;
    var r := ParseStateMessage(text);
    if r.Ok? && r.value.State? {
      var m := ParseText(text).value.members;
      RowsHaveCategories(Lookup(m, "objects").value.items);
      CategoriesKnown(Each(r.value.objects, RowOf), id);
    }
  }

  // ----- what the trails are fed with -----

  lemma {:induction false} OneMoreArrival(r: Receipt, anchor: Anchor, world: World, id: u32)
    ensures |ArrivalOf(r, anchor)| <= 1
    ensures SamplesIn(r, anchor, world, id) ==
      if ArrivalOf(r, anchor) == [] then [] else MappedIn(ArrivalOf(r, anchor)[0], world, id as real)
  {
    hide ParseStateMessage, PointOf, RowOf, PointsOf, SeenFor, Mapped, CatById, CategoryOfRow, IsCategory;
    if ArrivalOf(r, anchor) != [] {
      MessageCategories(r.m.text, id as real);
      PointsOfRead(PointsOfMessage(r.m), id);
    }
  }

  lemma {:induction false} MappedPrefix(a: seq<Arrival>, b: seq<Arrival>, i: nat, n: nat, world: World, id: real)
    requires i <= n <= |a| && a <= b
    ensures MappedBetween(a, i, n, world, id) == MappedBetween(b, i, n, world, id)
    decreases n
  {
    hide MappedIn;
    if i < n {
      MappedPrefix(a, b, i, n - 1, world, id);
    }
  }

  /** What the viewer feeds the trail of an id with is what the client has read for it. */
  lemma {:induction false} SamplesAreRead(before: seq<Receipt>, since: seq<Receipt>, anchor: Anchor, world: World,
                                          id: u32)
    ensures var arrivals, i := ArrivalsOf(before + since, anchor), |ArrivalsOf(before, anchor)|;
      && i <= |arrivals|
      && MappedBetween(arrivals, i, |arrivals|, world, id as real) == SamplesRead(since, anchor, world, id)
    decreases |since|
  {
    hide ArrivalOf, SamplesIn, MappedIn;
    if since == [] {
      assert before + since == before;
    } else {
      var front, last := since[..|since| - 1], since[|since| - 1];
      SamplesAreRead(before, front, anchor, world, id);
      assert (before + since)[..|before + since| - 1] == before + front;
      var was, arrivals := ArrivalsOf(before + front, anchor), ArrivalsOf(before + since, anchor);
      assert arrivals == was + ArrivalOf(last, anchor);
      OneMoreArrival(last, anchor, world, id);
      MappedPrefix(was, arrivals, |ArrivalsOf(before, anchor)|, |was|, world, id as real);
      if ArrivalOf(last, anchor) == [] {
        assert arrivals == was;
      } else {
        assert arrivals[|was|] == ArrivalOf(last, anchor)[0];
      }
    }
  }

  // ----- the theorems -----

  /** Whatever a client is delivered, and whatever its clock shows as it comes: the server-fed trail of an id lives
      as long as no message finds its last sample too old, and holds the last 512 of what it held and of the points
      of that id the client has read since that moved it forward, each mapped by the clocks of its own message. */
  lemma {:induction false} TrailHoldsWhatWasRead(before: seq<Receipt>, since: seq<Receipt>, anchor: Anchor,
                                                 world: World, id: u32)
    requires var arrivals, i := ArrivalsOf(before + since, anchor), |ArrivalsOf(before, anchor)|;
      && i <= |arrivals| && ClockAdvances(arrivals) && OfObject(id as real) in TrailsAfter(arrivals, i, world).at
      && TrailsAfter(arrivals, i, world).at[OfObject(id as real)].server
    ensures var arrivals, i := ArrivalsOf(before + since, anchor), |ArrivalsOf(before, anchor)|;
      var n, was := |arrivals|, TrailsAfter(arrivals, i, world).at[OfObject(id as real)].s;
      && (StaysFresh(was, arrivals, i, n, world, id as real) <==> Lives(arrivals, i, n, world, id as real))
      && (StaysFresh(was, arrivals, i, n, world, id as real) ==>
          Holds(TrailsAfter(arrivals, n, world), id as real,
                was + Forward(was, SamplesRead(since, anchor, world, id))))
  {
    hide ArrivalsOf, TrailsAfter, Forward, LastN, SamplesRead, ClockAdvances, MappedBetween, StaysFresh, Lives;
    var arrivals, i := ArrivalsOf(before + since, anchor), |ArrivalsOf(before, anchor)|;
    var was := TrailsAfter(arrivals, i, world).at[OfObject(id as real)].s;
    HeldIsOk(arrivals, i, world, OfObject(id as real));
    ServerTrailOverRun(arrivals, i, |arrivals|, world, id as real, was);
    SamplesAreRead(before, since, anchor, world, id);
  }

  /** A trail on the map has samples, and no more than fit. */
  lemma {:induction false} HeldIsOk(arrivals: seq<Arrival>, i: nat, world: World, k: Key)
    requires i <= |arrivals| && ClockAdvances(arrivals) && k in TrailsAfter(arrivals, i, world).at
    requires TrailsAfter(arrivals, i, world).at[k].server
    ensures var s := TrailsAfter(arrivals, i, world).at[k].s; s != [] && LastN(s, SERVER_TRAIL_CAP) == s
  {
    hide AfterSnapshot, Ordered, InTimeOrder, IsCategory;
    assert i > 0;
    TrailsStayOk(arrivals, i - 1, world);
    assert TrailOk(k, TrailsAfter(arrivals, i, world).at[k], arrivals[i - 1].now);
  }

  /** Snapshot `i` has a row for the id, and its first points, and there is no trail yet. */
  ghost predicate FirstPointAt(arrivals: seq<Arrival>, i: nat, world: World, id: real) {
    && i < |arrivals| && OfObject(id) !in TrailsAfter(arrivals, i, world).at
    && CategoryOfRow(CatById(arrivals[i].scene.objects), id).Some? && MappedIn(arrivals[i], world, id) != []
  }

  /** From the first point of an id on, its trail lives as long, and is the last 512 of the points of that id the
      client has read since that moved it forward. */
  lemma {:induction false} TrailFromFirstPoint(before: seq<Receipt>, since: seq<Receipt>, anchor: Anchor, world: World,
                                               id: u32)
    requires ClockAdvances(ArrivalsOf(before + since, anchor))
    requires FirstPointAt(ArrivalsOf(before + since, anchor), |ArrivalsOf(before, anchor)|, world, id as real)
    ensures var arrivals, i := ArrivalsOf(before + since, anchor), |ArrivalsOf(before, anchor)|;
      var n := |arrivals|;
      && (StaysFresh([], arrivals, i, n, world, id as real) <==> Lives(arrivals, i + 1, n, world, id as real))
      && (StaysFresh([], arrivals, i, n, world, id as real) ==>
          Holds(TrailsAfter(arrivals, n, world), id as real, Forward([], SamplesRead(since, anchor, world, id))))
  {
    hide ArrivalsOf, TrailsAfter, Forward, Holds, SamplesRead, ClockAdvances, MappedBetween, StaysFresh, MappedIn;
    hide Lives;
    hide CategoryOfRow, CatById;
    var arrivals, i := ArrivalsOf(before + since, anchor), |ArrivalsOf(before, anchor)|;
    ServerTrailFromStart(arrivals, i, |arrivals|, world, id as real);
    SamplesAreRead(before, since, anchor, world, id);
  }

  /** If each message with points has a server time and the mapped times strictly ascend, the trail is the last 512
      points read for the id, each mapped by the clocks of its own message. */
  lemma {:induction false} TrailIsLastPointsRead(before: seq<Receipt>, since: seq<Receipt>, anchor: Anchor,
                                                 world: World, id: u32)
    requires ClockAdvances(ArrivalsOf(before + since, anchor))
    requires FirstPointAt(ArrivalsOf(before + since, anchor), |ArrivalsOf(before, anchor)|, world, id as real)
    requires var arrivals, i := ArrivalsOf(before + since, anchor), |ArrivalsOf(before, anchor)|;
      StaysFresh([], arrivals, i, |arrivals|, world, id as real)
    requires TimesKnown(since, anchor, id) && Ascends([], SamplesRead(since, anchor, world, id))
    ensures var arrivals, xs := ArrivalsOf(before + since, anchor), SamplesRead(since, anchor, world, id);
      |xs| == |SeenFor(Read(MessagesOf(since)), id)| && Holds(TrailsAfter(arrivals, |arrivals|, world), id as real, xs)
  {
    hide ArrivalsOf, TrailsAfter, Holds, SamplesRead, ClockAdvances, StaysFresh, FirstPointAt, TimesKnown, Ascends;
    hide SeenFor, Read;
    TrailFromFirstPoint(before, since, anchor, world, id);
    EveryPointEntersIff([], since, anchor, world, id);
  }
}
