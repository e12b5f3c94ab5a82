/** A message that comes less late than the one before it loses its point. */
module Jitter {
  import opened Floats
  import opened Records
  import opened Collections
  import opened Decimal
  import opened Json
  import opened Printf
  import opened Store
  import opened StateMessage
  import opened ClientMessage
  import opened MessageRoundTrip
  import opened SnapshotFits
  import opened SpoiledFrames
  import opened SpoilingInputs
  import opened Viewer
  import opened Delivery
  import opened Trails
  import opened TrailRuns
  import opened ViewerTrails
  import Sessions

  /** The pattern of two seconds. */
  const TWO: F64 := 0x4000_0000_0000_0000

  /** What a server shows after one datagram: debris with the id 7, and one trail point of it. */
  function OnePoint(t: F64): Snapshot {
    Snapshot(None, [ObjectRecord(7, 1, 0, 100, ZERO_VEC64, ZERO_VEC32, 0)], Some(0), Stats(1, 1, 0, 0, 116), 0.0,
             [TrailPoint(7, t, ZERO_VEC64)])
  }

  function TextOf(t: F64, b: Broadcast): string {
    Print(StateTree(OnePoint(t), b))
  }

  /** The points of the first and the second second, the one a second later on its way than the other. */
  function Late(b: Broadcast, c: Broadcast): seq<Receipt> {
    [Receipt(Sessions.StateFrame(1, TextOf(ONE, b)), 1000.0), Receipt(Sessions.StateFrame(2, TextOf(TWO, c)), 2000.0)]
  }

  // ----- what is printed and read -----

  lemma {:induction false} WholeSeconds(t: F64, k: nat)
    requires Finite64(t) && t < SIGN64 && Units(Magnitude(t)) == k * Pow2(1074) && k < 10
    ensures Shown64(t, 3) == Fixed(false, 1000 * k, 3)
    ensures ReadsWhole(Shown64(t, 3)) && RealOf(Exact(Shown64(t, 3))) == k as real
  {
    assert Pow10(3) == 1000;
    hide Pow2, Units, RoundHalfEven, Pow10;
    Thousandfold(k, Pow2(1074));
    ExactQuotient(1000 * k, Pow2(1074));
    SecondsRead(k);
  }

  lemma {:induction false} SecondsRead(k: nat)
    requires k < 10
    ensures ReadsWhole(Fixed(false, 1000 * k, 3)) && RealOf(Exact(Fixed(false, 1000 * k, 3))) == k as real
  {
    var s := Fixed(false, 1000 * k, 3);
    assert Pow10(3) == 1000;
    Pow10Of20();
    hide Pow10, Fits, WholePart;
    Pow10Monotone(20, 45);
    FewUnitsFit(s);
    FitsLead(s);
    ValueOfPlain(false, 1000 * k, 3);
    TrimKeepsNumber(false, 1000 * k, 3);
  }

  lemma FitsLead(s: Shown)
    requires Fits(s) && s.places > 0
    ensures Lead(s) <= 45
  {
    hide WholePart, FractionPart;
  }

  lemma {:induction false} TwoSeconds()
    ensures Units(Magnitude(ONE)) == 1 * Pow2(1074) && Units(Magnitude(TWO)) == 2 * Pow2(1074)
  {
    OneMeter();
    hide Pow2;
    Pow2Of52();
    Pow2Add(52, 1023);
    assert Pow2(1075) == 2 * Pow2(1074) by { Pow2Next(1074); }
  }

  lemma Pow2Next(n: nat)
    ensures Pow2(n + 1) == 2 * Pow2(n)
  {
  }

  lemma {:induction false} OnePointRead(t: F64, k: nat, b: Broadcast)
    requires GoodBroadcast(b) && Finite64(t) && Floats.Key(t) > 0 && t < SIGN64 && k < 10
    requires Units(Magnitude(t)) == k * Pow2(1074)
    ensures ParseStateMessage(TextOf(t, b)) == Ok(Faithful(OnePoint(t), b))
    ensures RealOf(Exact(Shown64(t, 3))) == k as real
  {
    hide ParseStateMessage, Print, StateTree, Faithful, GoodBroadcast, Units, Pow2, Shown64, ReadsWhole;
    WholeSeconds(t, k);
    RateOfNothing();
    OnePointDecoded(t);
    DecodedRecoveredIff(OnePoint(t), b);
  }

  lemma {:induction false} RateOfNothing()
    ensures Survives(ShownRate(0.0))
  {
    assert ShownRate(0.0) == Fixed(false, 0, 2);
    Pow10Of20();
    hide Pow10, Fits, Survives;
    FewUnitsFit(Fixed(false, 0, 2));
    FitsSurvives(Fixed(false, 0, 2));
  }

  lemma OnePointDecoded(t: F64)
    requires Finite64(t) && Floats.Key(t) > 0
    ensures FromDecoders(OnePoint(t)) && SatelliteMoves(OnePoint(t))
  {
  }

  /** The message, its row and its point. */
  lemma {:induction false} OnePointScene(t: F64, k: nat, b: Broadcast)
    requires RealOf(Exact(Shown64(t, 3))) == k as real
    ensures var m := Faithful(OnePoint(t), b);
      && m.State? && m.serverTime == Iso(b, b.serverTime)
      && |m.objects| == 1 && RealOf(m.objects[0].id) == 7.0 && m.objects[0].category == "debris"
      && |m.trailPoints| == 1 && RealOf(m.trailPoints[0].id) == 7.0 && RealOf(m.trailPoints[0].t) == k as real
      && m.trailPoints[0].pos == ClientPosition(ZERO_VEC64, Exact)
  {
    hide Shown64, Shown32, Exact, RealOf, StatsFor, HasVelocity, ClientPosition;
    WholeIsNumber(7);
    var m := Faithful(OnePoint(t), b);
    assert m.objects[0] == ObjectFor(OnePoint(t).objects[0], Exact);
    assert m.trailPoints[0] == TrailFor(OnePoint(t).trailPoints[0], Exact);
  }

  // ----- the run -----

  function Place(world: World): Vec {
    world(PosOf(ClientPosition(ZERO_VEC64, Exact)))
  }

  /** One such message as a snapshot, and as a point read. */
  lemma {:induction false} OneReceipt(r: Receipt, t: F64, k: nat, b: Broadcast, anchor: Anchor, world: World,
                                      server: real)
    requires r.m.StateFrame? && r.m.text == TextOf(t, b)
    requires ParseStateMessage(TextOf(t, b)) == Ok(Faithful(OnePoint(t), b))
    requires RealOf(Exact(Shown64(t, 3))) == k as real && anchor(Iso(b, b.serverTime)) == Some(server)
    ensures |ArrivalOf(r, anchor)| == 1 && ArrivalOf(r, anchor)[0].now == r.now
    ensures CategoryOfRow(CatById(ArrivalOf(r, anchor)[0].scene.objects), 7.0) == Some("debris")
    ensures |SeenFor(PointsOfMessage(r.m), 7)| == 1
    ensures RealOf(SeenFor(PointsOfMessage(r.m), 7)[0].t) == k as real
    ensures SamplesIn(r, anchor, world, 7) == [Sample(r.now - (server - k as real * 1000.0), Place(world))]
  {
    hide ParseStateMessage, TextOf, Faithful, Shown64, Exact, RealOf, ClientPosition, PosOf, OnePoint, SeenFor;
    hide ArrivalOf, PointsOfMessage, ServerTimeOf, RowOf, CatById, CategoryOfRow;
    OnePointScene(t, k, b);
    var m := Faithful(OnePoint(t), b);
    ReceivedMessage(r, m, anchor);
    OneRow(m.objects);
    var p := m.trailPoints[0];
    assert m.trailPoints == [p];
    OneSeen(p);
    assert Each([p], PointOf) == [PointOf(p)];
  }

  lemma ReceivedMessage(r: Receipt, m: Message, anchor: Anchor)
    requires r.m.StateFrame? && m.State? && ParseStateMessage(r.m.text) == Ok(m)
    ensures ArrivalOf(r, anchor) == [Arrival(SceneOf(m, anchor), r.now)]
    ensures PointsOfMessage(r.m) == m.trailPoints && ServerTimeOf(r.m, anchor) == anchor(m.serverTime)
  {
    hide ParseStateMessage;
  }

  lemma {:induction false} OneRow(objects: seq<ClientObject>)
    requires |objects| == 1 && RealOf(objects[0].id) == 7.0 && objects[0].category == "debris"
    ensures CategoryOfRow(CatById(Each(objects, RowOf)), 7.0) == Some("debris")
  {
    hide RealOf, PosOf;
    var rows := Each(objects, RowOf);
    assert rows[0].id == 7.0 && rows[0].cat == "debris";
  }

  lemma {:induction false} OneSeen(p: ClientTrailPoint)
    requires RealOf(p.id) == 7.0
    ensures SeenFor([p], 7) == [p]
  {
    hide RealOf;
    assert [p][..0] == [];
  }

  /** Two messages written by the server: the times read ascend and so do both clocks, yet the second point is
      lost, since its message came a second less late than the first. */
  lemma {:induction false} LessLateLosesPoint(b: Broadcast, c: Broadcast, anchor: Anchor, world: World)
    requires GoodBroadcast(b) && GoodBroadcast(c)
    requires anchor(Iso(b, b.serverTime)) == Some(1000.0) && anchor(Iso(c, c.serverTime)) == Some(3000.0)
    ensures var receipts := Late(b, c);
      var points, arrivals := SeenFor(Read(MessagesOf(receipts)), 7), ArrivalsOf(receipts, anchor);
      && |points| == 2 && RealOf(points[0].t) == 1.0 && RealOf(points[1].t) == 2.0
      && ClockAdvances(arrivals) && OfObject(7.0) in TrailsAfter(arrivals, |arrivals|, world).at
      && TrailsAfter(arrivals, |arrivals|, world).at[OfObject(7.0)].s == [Sample(1000.0, Place(world))]
  {
    hide ParseStateMessage, TextOf, Faithful, Shown64, Exact, RealOf, Place, SeenFor, Read, TrailsAfter, Units, Pow2;
    hide SamplesRead, ArrivalsOf, StaysFresh, CatById, CategoryOfRow, GoodBroadcast, Forward, Iso;
    TwoSeconds();
    OnePointRead(ONE, 1, b);
    OnePointRead(TWO, 2, c);
    var x, y := Late(b, c)[0], Late(b, c)[1];
    assert Late(b, c) == [x, y];
    OneReceipt(x, ONE, 1, b, anchor, world, 1000.0);
    OneReceipt(y, TWO, 2, c, anchor, world, 3000.0);
    TwoReceipts(x, y, anchor, world);
    TwoPointsRead(x, y);
    LostPoint(x, y, anchor, world);
  }

  lemma {:induction false} TwoReceipts(x: Receipt, y: Receipt, anchor: Anchor, world: World)
    ensures ArrivalsOf([x, y], anchor) == ArrivalOf(x, anchor) + ArrivalOf(y, anchor)
    ensures SamplesRead([x, y], anchor, world, 7) == SamplesIn(x, anchor, world, 7) + SamplesIn(y, anchor, world, 7)
  {
    hide ArrivalOf, SamplesIn, ArrivalsOf, SamplesRead;
    OneMoreReceipt([x], y, anchor, world);
    OneMoreReceipt([], x, anchor, world);
    NoArrivals(anchor);
    NoSamples(anchor, world);
    assert [x] + [y] == [x, y] && [] + [x] == [x];
    assert [] + ArrivalOf(x, anchor) == ArrivalOf(x, anchor);
    assert [] + SamplesIn(x, anchor, world, 7) == SamplesIn(x, anchor, world, 7);
  }

  lemma {:induction false} OneMoreReceipt(front: seq<Receipt>, last: Receipt, anchor: Anchor, world: World)
    ensures ArrivalsOf(front + [last], anchor) == ArrivalsOf(front, anchor) + ArrivalOf(last, anchor)
    ensures SamplesRead(front + [last], anchor, world, 7)
      == SamplesRead(front, anchor, world, 7) + SamplesIn(last, anchor, world, 7)
  {
    hide ArrivalOf, SamplesIn;
    assert (front + [last])[..|front|] == front;
  }

  lemma NoSamples(anchor: Anchor, world: World)
    ensures SamplesRead([], anchor, world, 7) == []
  {
  }

  lemma {:induction false} TwoPointsRead(x: Receipt, y: Receipt)
    ensures SeenFor(Read(MessagesOf([x, y])), 7) == SeenFor(PointsOfMessage(x.m), 7) + SeenFor(PointsOfMessage(y.m), 7)
  {
    hide PointsOfMessage, SeenFor, Read;
    ReadOneMore([x], y);
    ReadOneMore([], x);
    assert [] + [x] == [x] && [x] + [y] == [x, y];
    NothingRead();
    assert [] + PointsOfMessage(x.m) == PointsOfMessage(x.m);
    SeenForJoin(PointsOfMessage(x.m), PointsOfMessage(y.m), 7);
  }

  lemma NothingRead()
    ensures Read(MessagesOf([])) == []
  {
  }

  /** Two samples mapped to one time: only the first enters. */
  lemma {:induction false} LostPoint(x: Receipt, y: Receipt, anchor: Anchor, world: World)
    requires |ArrivalOf(x, anchor)| == |ArrivalOf(y, anchor)| == 1
    requires ArrivalOf(x, anchor)[0].now == 1000.0 && ArrivalOf(y, anchor)[0].now == 2000.0
    requires ArrivalsOf([x, y], anchor) == ArrivalOf(x, anchor) + ArrivalOf(y, anchor)
    requires CategoryOfRow(CatById(ArrivalOf(x, anchor)[0].scene.objects), 7.0).Some?
    requires SamplesIn(x, anchor, world, 7) == SamplesIn(y, anchor, world, 7) == [Sample(1000.0, Place(world))]
    requires SamplesRead([x, y], anchor, world, 7) == SamplesIn(x, anchor, world, 7) + SamplesIn(y, anchor, world, 7)
    ensures var arrivals := ArrivalsOf([x, y], anchor);
      && ClockAdvances(arrivals) && OfObject(7.0) in TrailsAfter(arrivals, |arrivals|, world).at
      && TrailsAfter(arrivals, |arrivals|, world).at[OfObject(7.0)].s == [Sample(1000.0, Place(world))]
  {
    hide ArrivalOf, SamplesIn, ArrivalsOf, SamplesRead, CatById, CategoryOfRow, Place, MappedIn;
    var s := Sample(1000.0, Place(world));
    var arrivals := ArrivalsOf([x, y], anchor);
    OneMoreArrival(x, anchor, world, 7);
    OneMoreArrival(y, anchor, world, 7);
    TwiceForward(s);
    assert [] + [x, y] == [x, y];
    NoArrivals(anchor);
    TrailFromFirstPoint([], [x, y], anchor, world, 7);
    MappedTwo(arrivals, world, s);
    hide TrailsAfter, Forward, MappedBetween;
    assert StaysFresh([], arrivals, 0, 2, world, 7.0);
    assert LastN([s], SERVER_TRAIL_CAP) == [s];
  }

  lemma NoArrivals(anchor: Anchor)
    ensures ArrivalsOf([], anchor) == []
  {
  }

  lemma {:induction false} TwiceForward(s: Sample)
    ensures Forward([], [s]) == [s] && Forward([], [s] + [s]) == [s]
  {
    assert [s][..0] == [] && ([s] + [s])[..1] == [s] && [] + [s] == [s];
  }

  lemma {:induction false} MappedTwo(arrivals: seq<Arrival>, world: World, s: Sample)
    requires |arrivals| == 2 && MappedIn(arrivals[0], world, 7.0) == MappedIn(arrivals[1], world, 7.0) == [s]
    ensures MappedBetween(arrivals, 0, 1, world, 7.0) == [s] && MappedBetween(arrivals, 0, 2, world, 7.0) == [s] + [s]
  {
    hide MappedIn;
  }
}
