/** Exactly which snapshots make a message that is not JSON. */
module SpoiledFrames {
  import opened Floats
  import opened Records
  import opened Decimal
  import opened Json
  import opened Printf
  import opened Store
  import opened StateMessage
  import opened ClientMessage
  import opened MessageRoundTrip
  import opened SnapshotFits

  /** A number whose text is not cut right after the point. */
  predicate Spells(s: Shown) {
    s.Fixed? && Lead(s) != FLOAT_BUFFER - 2
  }

  lemma {:induction false} SpelledIffSpells(s: Shown)
    requires s.Fixed? ==> s.places > 0
    ensures Spelled(s) <==> Spells(s)
  {
    hide ValidNumber, NumberOf, FloatText, WholePart, FractionPart;
    if !s.Fixed? {
      NoNumberIsNotSpelled(s);
    } else if Fits(s) {
      ReadsBackIffFits(s);
    } else {
      CutNumber(s);
    }
  }

  lemma {:induction false} AllSpellIff(s: seq<Shown>)
    requires Pointed(s)
    ensures All(s, Spelled) <==> All(s, Spells)
  {
    hide Spelled, Spells;
    forall i | 0 <= i < |s|
      ensures Spelled(s[i]) <==> Spells(s[i])
    {
      SpelledIffSpells(s[i]);
    }
  }

  lemma RowPointed(o: ObjectRecord)
    ensures Pointed(RowShown(o))
  {
    hide HasVelocity, RoundHalfEven, Units, Pow2, Pow10;
  }

  lemma SatellitePointed(s: Satellite)
    ensures Pointed(SatelliteShown(s))
  {
    hide RoundHalfEven, Units, Pow2, Pow10;
  }

  lemma TrailPointed(p: TrailPoint)
    ensures Pointed(TrailShown(p))
  {
    hide RoundHalfEven, Units, Pow2, Pow10;
  }

  lemma {:induction false} EverySpelledIff(snap: Snapshot)
    ensures EveryShown(snap, Spelled) <==> EveryShown(snap, Spells)
  {
    hide All, Spelled, Spells, RowShown, TrailShown, SatelliteShown;
    if snap.satellite.Some? {
      SatellitePointed(snap.satellite.value);
      AllSpellIff(SatelliteShown(snap.satellite.value));
    }
    forall i | 0 <= i < |snap.objects|
      ensures All(RowShown(snap.objects[i]), Spelled) <==> All(RowShown(snap.objects[i]), Spells)
    {
      RowPointed(snap.objects[i]);
      AllSpellIff(RowShown(snap.objects[i]));
    }
    forall i | 0 <= i < |snap.trailPoints|
      ensures All(TrailShown(snap.trailPoints[i]), Spelled) <==> All(TrailShown(snap.trailPoints[i]), Spells)
    {
      TrailPointed(snap.trailPoints[i]);
      AllSpellIff(TrailShown(snap.trailPoints[i]));
    }
    SpelledIffSpells(ShownRate(snap.rateHz));
  }

  /** A message is not JSON exactly when one of its values is no number, or has 46 characters before the point;
      otherwise the viewer takes it. */
  lemma {:induction false} UnreadableIff(snap: Snapshot, b: Broadcast)
    requires GoodBroadcast(b)
    ensures var r := ParseStateMessage(Print(StateTree(snap, b)));
      (r == Err(NotJson) <==> !EveryShown(snap, Spells)) && (r.Ok? <==> EveryShown(snap, Spells))
  {
    hide ParseStateMessage, Print, StateTree, GoodBroadcast, EveryShown, MessageFor;
    TextParses(snap, b);
    EverySpelledIff(snap);
  }

  predicate IsNumber(s: Shown) {
    s.Fixed?
  }

  /** One infinity or not-a-number anywhere makes the whole message something that is not JSON: the snapshot
      has to be finite, which nothing checks in DIS mode or after estimating a velocity. */
  lemma {:induction false} NonFiniteSpoilsFrame(snap: Snapshot, b: Broadcast)
    requires GoodBroadcast(b) && !EveryShown(snap, IsNumber)
    ensures ParseStateMessage(Print(StateTree(snap, b))) == Err(NotJson)
  {
    hide ParseStateMessage, Print, StateTree, GoodBroadcast, ShownRate, RowShown, TrailShown, SatelliteShown, Lead;
    UnreadableIff(snap, b);
  }

  // ----- values that the decoders let through -----

  /** The text of a time has 46 digits before the point, so that the point is the last character kept. */
  predicate BarePoint(t: F64) {
    Shown64(t, 3).Fixed? && Lead(Shown64(t, 3)) == FLOAT_BUFFER - 2
  }

  lemma {:induction false} VelocitySpellsIff(v: Vec32)
    ensures All(VelocityShown(v), Spells) <==> FiniteVec32(v)
  {
    hide Shown32, Finite32, Lead, AllZero, FractionPart, Kept;
    var s := VelocityShown(v);
    VelocitySurvivesIff(v);
    if FiniteVec32(v) {
      assert forall i :: 0 <= i < |s| ==> Survives(s[i]) ==> Spells(s[i]);
    } else {
      NotFiniteNotShown(v.x);
      NotFiniteNotShown(v.y);
      NotFiniteNotShown(v.z);
      assert !Spells(s[0]) || !Spells(s[1]) || !Spells(s[2]);
    }
  }

  lemma {:induction false} NotFiniteNotShown(b: F32)
    ensures !Finite32(b) ==> !Shown32(b, 2).Fixed?
  {
    if !Finite32(b) {
      NotShown32(b, 2);
    }
  }

  lemma {:induction false} SurvivesSpells(s: seq<Shown>)
    requires All(s, Survives)
    ensures All(s, Spells)
  {
    hide Lead, AllZero, FractionPart, Kept;
  }

  /** With a position in range, whether a satellite spoils the frame is up to its velocity. */
  lemma {:induction false} SatelliteSpellsIff(s: Satellite)
    requires VecInRange(s.pos)
    ensures All(SatelliteShown(s), Spells) <==> FiniteVec32(s.vel)
  {
    hide PositionShown, VelocityShown, All, Spells, VecInRange, PositionPrints, FiniteVec32, Survives;
    InRangePrints(s.pos);
    PositionSurvivesIff(s.pos);
    SurvivesSpells(PositionShown(s.pos));
    VelocitySpellsIff(s.vel);
    AllSplits(PositionShown(s.pos), VelocityShown(s.vel), Spells);
  }

  lemma {:induction false} RowSpells(o: ObjectRecord)
    requires DecodedObject(o)
    ensures All(RowShown(o), Spells)
  {
    hide All, Spells, RowShown, VecInRange, PositionPrints, FiniteVec32, Finite32, HasVelocity, Survives;
    InRangePrints(o.pos);
    RowSurvivesIff(o);
    SurvivesSpells(RowShown(o));
  }

  lemma {:induction false} TrailSpellsIff(p: TrailPoint)
    requires DecodedTrail(p)
    ensures All(TrailShown(p), Spells) <==> !BarePoint(p.t)
  {
    hide All, PositionShown, VecInRange, PositionPrints, Lead, Shown64, Survives;
    InRangePrints(p.pos);
    PositionSurvivesIff(p.pos);
    SurvivesSpells(PositionShown(p.pos));
    AllSplits([Shown64(p.t, 3)], PositionShown(p.pos), Spells);
    OnlyOne(Shown64(p.t, 3), Spells);
    PositiveHasNoSign(p.t);
  }

  /** Of what the decoders let through, exactly an estimated velocity that is not finite or a sample time of 46
      digits before the point makes a message that is not JSON. */
  lemma {:induction false} DecodedUnreadableIff(snap: Snapshot, b: Broadcast)
    requires GoodBroadcast(b) && FromDecoders(snap) && Survives(ShownRate(snap.rateHz))
    ensures ParseStateMessage(Print(StateTree(snap, b))) == Err(NotJson) <==>
      !SatelliteMoves(snap) || exists i :: 0 <= i < |snap.trailPoints| && BarePoint(snap.trailPoints[i].t)
  {
    hide ParseStateMessage, Print, StateTree, ShownRate, GoodBroadcast, All, RowShown, SatelliteShown, TrailShown;
    hide VecInRange, FiniteVec32, BarePoint, DecodedObject, DecodedTrail, Lead, AllZero, FractionPart, Kept;
    UnreadableIff(snap, b);
    if snap.satellite.Some? {
      SatelliteSpellsIff(snap.satellite.value);
    }
    forall i | 0 <= i < |snap.objects|
      ensures All(RowShown(snap.objects[i]), Spells)
    {
      RowSpells(snap.objects[i]);
    }
    forall i | 0 <= i < |snap.trailPoints|
      ensures All(TrailShown(snap.trailPoints[i]), Spells) <==> !BarePoint(snap.trailPoints[i].t)
    {
      TrailSpellsIff(snap.trailPoints[i]);
    }
  }

  // ----- a time that spoils the frame -----

  /** A positive time leaves no number in the buffer exactly when it prints with 46 digits before the point. */
  lemma {:induction false} TimeSpoilsIff(t: F64)
    requires Finite64(t) && Key(t) > 0
    ensures BarePoint(t) <==> Pow10(48) <= Shown64(t, 3).units < Pow10(49)
  {
    hide Units, Pow2, Pow10, RoundHalfEven, Digits, Shown64;
    PositiveHasNoSign(t);
    var s := Shown64(t, 3);
    Pow10Monotone(3, 48);
    DigitCount(s.units, 48);
    DigitCount(s.units, 49);
  }

  /** The pattern of 2^150 seconds. */
  const LONG_TIME: F64 := 0x4950_0000_0000_0000

  lemma {:induction false} Pow2Of150()
    ensures Pow2(150) == 1427247692705959881058285969449495136382746624
  {
    assert Pow2(5) == 32;
    hide Pow2;
    Pow2Add(5, 5);
    Pow2Add(10, 10);
    Pow2Add(20, 5);
    assert Pow2(25) == 33554432;
    Pow2Add(25, 25);
    assert Pow2(50) == 1125899906842624;
    Pow2Add(50, 50);
    assert Pow2(100) == 1267650600228229401496703205376;
    Pow2Add(100, 50);
  }

  lemma {:induction false} Pow10Of49()
    ensures Pow10(48) == 1_000_000_000_000_000_000_000_000_000_000_000_000_000_000_000_000
    ensures Pow10(49) == 10 * Pow10(48)
  {
    assert Pow10(3) == 1000;
    assert Pow10(49) == 10 * Pow10(48);
    hide Pow10;
    Pow10Add(3, 3);
    Pow10Add(6, 6);
    Pow10Add(12, 12);
    Pow10Add(24, 24);
  }

  lemma {:induction false} LongTimeShown()
    ensures Shown64(LONG_TIME, 3) == Fixed(false, 1000 * Pow2(150), 3)
  {
    assert Pow10(3) == 1000;
    hide Pow10, RoundHalfEven;
    LongTimeUnits();
    hide Pow2, Units;
    var q, d := Pow2(150), Pow2(1074);
    assert (q * d) * 1000 == (1000 * q) * d by { Thousandfold(q, d); }
    ExactQuotient(1000 * q, d);
  }

  lemma {:induction false} LongTimeUnits()
    ensures Units(LONG_TIME) == Pow2(150) * Pow2(1074)
  {
    hide Pow2;
    Pow2Of52();
    Pow2Add(52, 1172);
    Pow2Add(150, 1074);
  }

  lemma {:induction false} Pow2Of52()
    ensures Pow2(52) == FRACTION64
  {
    assert Pow2(4) == 16;
    hide Pow2;
    Pow2Of24();
    Pow2Add(24, 24);
    Pow2Add(48, 4);
  }

  lemma {:induction false} LongTimeIsBare()
    ensures BarePoint(LONG_TIME)
  {
    hide Shown64, BarePoint, Pow10, Pow2;
    LongTimeShown();
    Pow2Of150();
    Pow10Of49();
    TimeSpoilsIff(LONG_TIME);
  }
}
