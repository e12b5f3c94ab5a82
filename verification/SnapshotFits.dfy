/** Which values that the decoders let through fit the buffers of the broadcast message, and which do not. */
module SnapshotFits {
  import opened Floats
  import opened Records
  import opened Decimal
  import opened Json
  import opened Printf
  import opened Store
  import opened StateMessage
  import opened ClientMessage
  import opened MessageRoundTrip

  // ----- rounding -----

  /** The rounded quotient is a nearest integer. */
  lemma {:induction false} RoundsToNearest(n: nat, d: nat)
    requires d > 0
    ensures var r := RoundHalfEven(n, d); -(d as int) <= 2 * (r * d - n) <= d
  {
    var q, r := n / d, n % d;
    assert n == q * d + r;
    assert (q + 1) * d == q * d + d;
  }

  /** `s` is a decimal nearest to `v / d`. */
  predicate Nearest(s: Shown, v: int, d: nat) {
    && s.Fixed?
    && var u: int := if s.negative then -(s.units as int) else s.units;
       -(d as int) <= 2 * (u * d - v * Pow10(s.places)) <= d
  }

  /** What is printed of a binary64 is a nearest decimal to its value, with its sign. */
  lemma {:induction false} Shown64IsNearest(b: F64, places: nat)
    requires Finite64(b)
    ensures var s := Shown64(b, places);
      s.Fixed? && s.places == places && (s.negative <==> b >= SIGN64) && Nearest(s, Floats.Value(b), Pow2(1074))
  {
    hide Units, RoundHalfEven, Pow2, Pow10;
    RoundsToNearest(Units(Magnitude(b)) * Pow10(places), Pow2(1074));
    SignedNearest(Units(Magnitude(b)), Pow10(places), RoundHalfEven(Units(Magnitude(b)) * Pow10(places), Pow2(1074)),
                  Pow2(1074));
  }

  lemma {:induction false} SignedNearest(u: nat, p: nat, r: nat, d: nat)
    requires -(d as int) <= 2 * (r * d - u * p) <= d
    ensures -(d as int) <= 2 * (-(r as int) * d - -(u as int) * p) <= d
  {
    assert -(r as int) * d == -(r * d) && -(u as int) * p == -(u * p);
  }

  /** The number a finite binary32 stands for, in units of 2^-149. */
  function Value32(b: F32): int
    requires Finite32(b)
  {
    var n: int := Units32(Magnitude32(b));
    if b < SIGN32 then n else -n
  }

  /** What is printed of a binary32 is a nearest decimal to its value, with its sign. */
  lemma {:induction false} Shown32IsNearest(b: F32, places: nat)
    requires Finite32(b)
    ensures var s := Shown32(b, places);
      s.Fixed? && s.places == places && (s.negative <==> b >= SIGN32) && Nearest(s, Value32(b), Pow2(149))
  {
    FiniteMagnitude(b);
    hide Units32, RoundHalfEven, Pow2, Pow10, Finite32;
    var u := Units32(Magnitude32(b));
    RoundsToNearest(u * Pow10(places), Pow2(149));
    SignedNearest(u, Pow10(places), RoundHalfEven(u * Pow10(places), Pow2(149)), Pow2(149));
  }

  lemma {:induction false} RoundingKeepsOrder(m: nat, n: nat, d: nat)
    requires d > 0 && m <= n
    ensures RoundHalfEven(m, d) <= RoundHalfEven(n, d)
  {
    var p, q := m / d, n / d;
    assert m == p * d + m % d && n == q * d + n % d;
    assert (q + 1) * d == q * d + d;
    ScaledLess(p, q + 1, d);
  }

  lemma {:induction false} ScaledLess(a: int, b: int, d: nat)
    requires d > 0
    ensures a < b <==> a * d < b * d
  {
    if a < b {
      MulMonotone(a, b, d);
    } else if b < a {
      MulMonotone(b, a, d);
    }
  }

  /** Sample times in order are printed in order: rounding to milliseconds never reverses two of them. */
  lemma {:induction false} TimesPrintInOrder(a: F64, b: F64)
    requires Finite64(a) && Finite64(b) && 0 < Key(a) < Key(b)
    ensures Shown64(a, 3).Fixed? && Shown64(b, 3).Fixed? && Shown64(a, 3).units <= Shown64(b, 3).units
  {
    hide Units, RoundHalfEven, Pow2, Pow10;
    UnitsMonotone(Magnitude(a), Magnitude(b));
    ScaleBoth(Units(Magnitude(a)), Units(Magnitude(b)), Pow10(3), Pow10(3));
    RoundingKeepsOrder(Units(Magnitude(a)) * Pow10(3), Units(Magnitude(b)) * Pow10(3), Pow2(1074));
  }

  // ----- what fits -----

  lemma {:induction false} Pow10Of1()
    ensures Pow10(1) == 10
  {
    assert Pow10(0) == 1;
  }

  lemma {:induction false} CoordinateUnits(b: F64)
    requires InCoordRange(b)
    ensures Finite64(b) && Units(Magnitude(b)) <= 10_000_000_000_000 * Pow2(1074)
  {
    UnitsOfLimit();
    hide Units, Pow2;
    if Magnitude(b) < COORD_LIMIT {
      UnitsMonotone(Magnitude(b), COORD_LIMIT);
    }
  }

  /** A coordinate in range always fits. */
  lemma {:induction false} CoordinateFits(b: F64)
    requires InCoordRange(b)
    ensures Fits(Shown64(b, 1))
  {
    CoordinateUnits(b);
    Pow10Of1();
    Pow10Of20();
    Pow10Monotone(20, 45);
    hide Units, Pow2, Pow10, RoundHalfEven, Fits;
    RoundedBelow(Units(Magnitude(b)) * 10, Pow2(1074), 100_000_000_000_000);
    FewUnitsFit(Shown64(b, 1));
  }

  lemma {:induction false} Pow8Below(n: nat)
    ensures Pow2(3 * n) <= Pow10(n)
  {
    if n > 0 {
      Pow8Below(n - 1);
      Pow2Add(3, 3 * (n - 1));
      assert Pow2(3) == 8;
      assert 3 + 3 * (n - 1) == 3 * n;
    }
  }

  lemma {:induction false} SpeedUnits(b: F32)
    requires Finite32(b)
    ensures Magnitude32(b) < 255 * FRACTION32 && Units32(Magnitude32(b)) <= Pow2(128) * Pow2(149)
  {
    FiniteMagnitude(b);
    hide Pow2, Magnitude32, Units32;
    UnitsBound(Magnitude32(b));
    Pow2Add(128, 149);
  }

  lemma {:induction false} UnitsBound(m: nat)
    requires m < 255 * FRACTION32
    ensures Units32(m) <= Pow2(277)
  {
    hide Pow2;
    Pow2Of24();
    var e, f := m / FRACTION32, m % FRACTION32;
    if e == 0 {
      Pow2Monotone(24, 277);
    } else {
      NormalUnits(e, f);
    }
  }

  lemma {:induction false} NormalUnits(e: nat, f: nat)
    requires 1 <= e <= 254 && f < FRACTION32
    ensures (FRACTION32 + f) * Pow2(e - 1) <= Pow2(277)
  {
    Pow2Of24();
    hide Pow2;
    Pow2Monotone(e - 1, 253);
    ScaleBoth(FRACTION32 + f, 2 * FRACTION32, Pow2(e - 1), Pow2(253));
    Pow2Add(24, 253);
  }

  lemma {:induction false} FiniteMagnitude(b: F32)
    requires Finite32(b)
    ensures Magnitude32(b) < 255 * FRACTION32
  {
    var m := Magnitude32(b);
    assert b / FRACTION32 == m / FRACTION32 + (if b < SIGN32 then 0 else 256);
  }

  lemma {:induction false} Pow2Of24()
    ensures Pow2(24) == 0x100_0000
  {
    assert Pow2(4) == 16;
    Pow2Add(4, 4);
    Pow2Add(8, 8);
    Pow2Add(16, 8);
  }

  /** A finite binary32 fits with one or two digits after the point, whatever its size. */
  lemma {:induction false} SpeedFits(b: F32, places: nat)
    requires Finite32(b) && 1 <= places <= 2
    ensures Fits(Shown32(b, places))
  {
    SpeedUnits(b);
    HundredTimes2To128();
    Pow10Monotone(places, 2);
    hide Units32, Pow2, Pow10, RoundHalfEven, Fits, Magnitude32;
    RoundedProduct(Units32(Magnitude32(b)), Pow10(places), Pow2(128), Pow2(149));
    FewUnitsFit(Shown32(b, places));
  }

  lemma {:induction false} RoundedProduct(u: nat, p: nat, top: nat, d: nat)
    requires u <= top * d && p <= 100 && d > 0
    ensures RoundHalfEven(u * p, d) <= 100 * top
  {
    hide RoundHalfEven;
    ScaleBoth(u, top * d, p, 100);
    assert top * d * 100 == (100 * top) * d;
    RoundedBelow(u * p, d, 100 * top);
  }

  lemma {:induction false} HundredTimes2To128()
    ensures Pow10(2) == 100 && 100 * Pow2(128) < Pow10(45)
  {
    Pow10Of1();
    assert Pow10(2) == 10 * Pow10(1);
    assert Pow2(129) == 2 * Pow2(128);
    hide Pow2, Pow10;
    Pow8Below(43);
    Pow10Add(43, 2);
  }

  // ----- which snapshots are recovered -----

  lemma {:induction false} ExactQuotient(q: nat, d: nat)
    requires d > 0
    ensures RoundHalfEven(q * d, d) == q
  {
    var n := q * d;
    var p, r := n / d, n % d;
    assert n == p * d + r && (p + 1) * d == p * d + d && (q + 1) * d == q * d + d;
    ScaledLess(p, q + 1, d);
    ScaledLess(q, p + 1, d);
  }

  /** The sign and the digits before the point leave room for a digit after it, or end where the buffer ends. */
  predicate ReadsWhole(s: Shown) {
    s.Fixed? && (Lead(s) <= 45 || Lead(s) == 47)
  }

  /** What fits survives. */
  lemma {:induction false} FitsSurvives(s: Shown)
    requires Fits(s) && s.places > 0
    ensures Survives(s)
  {
    hide WholePart, FractionPart;
  }

  /** A binary64 too long for the buffer is an integer. */
  lemma {:induction false} LongIsWhole(b: F64, places: nat)
    requires 0 < places <= 3 && Finite64(b) && !Fits(Shown64(b, places))
    ensures Shown64(b, places).Fixed? && AllZero(FractionPart(Shown64(b, places)))
  {
    hide Fits, FractionPart, WholePart, AllZero, RoundHalfEven, Units, Pow2, Pow10;
    var m := Magnitude(b);
    if m / FRACTION64 >= 1075 {
      WholeUnits(m, places);
      ZeroFraction(Shown64(b, places), (FRACTION64 + m % FRACTION64) * Pow2(m / FRACTION64 - 1075));
    } else {
      SmallUnits(m);
      SmallFits(Shown64(b, places), Units(m), places);
    }
  }

  /** From the exponent of 2^52 on, the value is a whole number of units. */
  lemma {:induction false} WholeUnits(m: nat, places: nat)
    requires m / FRACTION64 >= 1075
    ensures var v := (FRACTION64 + m % FRACTION64) * Pow2(m / FRACTION64 - 1075);
      RoundHalfEven(Units(m) * Pow10(places), Pow2(1074)) == v * Pow10(places)
  {
    hide RoundHalfEven, Pow10, Pow2;
    var e, f := m / FRACTION64, FRACTION64 + m % FRACTION64;
    Pow2Add(e - 1075, 1074);
    assert e - 1075 + 1074 == e - 1;
    assert Units(m) == f * Pow2(e - 1);
    hide Units;
    var v, d, p := f * Pow2(e - 1075), Pow2(1074), Pow10(places);
    Regroup(f, Pow2(e - 1075), d);
    Swap(v, d, p);
    ExactQuotient(v * p, d);
  }

  lemma {:induction false} Swap(a: nat, b: nat, c: nat)
    ensures (a * b) * c == (a * c) * b
  {
    assert (a * b) * c == a * (b * c);
    assert (a * c) * b == a * (c * b);
  }

  lemma {:induction false} SmallUnits(m: nat)
    requires m / FRACTION64 < 1075
    ensures Units(m) <= 2 * FRACTION64 * Pow2(1074)
  {
    var e, f := m / FRACTION64, m % FRACTION64;
    hide Pow2;
    if e == 0 {
      ScaleUp(2 * FRACTION64, Pow2(1074));
    } else {
      Pow2Monotone(e - 1, 1074);
      ScaleBoth(FRACTION64 + f, 2 * FRACTION64, Pow2(e - 1), Pow2(1074));
    }
  }

  lemma {:induction false} SmallFits(s: Shown, u: nat, places: nat)
    requires 0 < places <= 3 && u <= 2 * FRACTION64 * Pow2(1074)
    requires s.Fixed? && s.places == places && s.units == RoundHalfEven(u * Pow10(places), Pow2(1074))
    ensures Fits(s)
  {
    hide Pow2, Pow10, RoundHalfEven, Fits;
    Powers(places);
    var d, p := Pow2(1074), Pow10(places);
    RoundedThousandfold(u, p, 2 * FRACTION64, d);
    FewUnitsFit(s);
  }

  lemma {:induction false} Powers(places: nat)
    requires places <= 3
    ensures Pow10(places) <= 1000 && 10_000 * FRACTION64 < Pow10(45)
  {
    Pow10Of20();
    assert Pow10(3) == 1000;
    hide Pow10;
    Pow10Monotone(places, 3);
    Pow10Monotone(20, 45);
  }

  lemma {:induction false} RoundedThousandfold(u: nat, p: nat, top: nat, d: nat)
    requires u <= top * d && p <= 1000 && d > 0
    ensures RoundHalfEven(u * p, d) <= 1000 * top
  {
    hide RoundHalfEven;
    ScaleBoth(u, top * d, p, 1000);
    Thousandfold(top, d);
    RoundedBelow(u * p, d, 1000 * top);
  }

  lemma Thousandfold(q: nat, d: nat)
    ensures (q * d) * 1000 == (1000 * q) * d
  {
  }

  /** The digits after the point of a whole number are zeros. */
  lemma {:induction false} ZeroFraction(s: Shown, v: nat)
    requires s.Fixed? && s.units == v * Pow10(s.places)
    ensures AllZero(FractionPart(s))
  {
    hide NatOf, WholePart, FractionPart, AllZero, Pow10;
    var w, f := WholePart(s), FractionPart(s);
    WholePartLeads(s);
    NatOfJoin(w, f);
    NatBelow(f);
    ZeroIffZeros(f);
    NoRemainder(NatOf(w), NatOf(f), v, Pow10(s.places));
  }

  lemma {:induction false} NoRemainder(w: nat, f: nat, v: nat, p: nat)
    requires p > 0 && w * p + f == v * p && f < p
    ensures f == 0
  {
    assert (w + 1) * p == w * p + p;
    ScaledLess(v, w + 1, p);
    ScaledLess(w, v + 1, p);
    assert (v + 1) * p == v * p + p;
  }

  /** A binary64 is read back exactly when it is finite and its sign and digits before the point are at most 45,
      or exactly 47. */
  lemma {:induction false} Survives64Iff(b: F64, places: nat)
    requires 0 < places <= 3
    ensures Survives(Shown64(b, places)) <==> ReadsWhole(Shown64(b, places))
  {
    var s := Shown64(b, places);
    if Finite64(b) {
      assert s.Fixed? && s.places == places by { FiniteIsShown(b, places); }
      if Fits(s) {
        hide Shown64;
        FitsSurvives(s);
      } else {
        LongIsWhole(b, places);
        hide Shown64, Fits, WholePart, FractionPart;
        var f, k := FractionPart(s), Kept(s);
        assert forall i :: 0 <= i < |f[k..]| ==> f[k..][i] == f[k + i];
      }
    } else {
      assert !s.Fixed?;
    }
  }

  lemma FiniteIsShown(b: F64, places: nat)
    requires Finite64(b)
    ensures Shown64(b, places).Fixed? && Shown64(b, places).places == places
  {
    hide Units, RoundHalfEven, Pow2, Pow10;
  }

  predicate PositionPrints(p: Vec64) {
    ReadsWhole(Shown64(p.x, 1)) && ReadsWhole(Shown64(p.y, 1)) && ReadsWhole(Shown64(p.z, 1))
  }

  predicate SatellitePrints(s: Satellite) {
    PositionPrints(s.pos) && FiniteVec32(s.vel)
  }

  predicate RowPrints(o: ObjectRecord) {
    PositionPrints(o.pos) && (HasVelocity(o) ==> FiniteVec32(o.vel)) && Finite32(o.intensity)
  }

  predicate TimePrints(t: F64) {
    ReadsWhole(Shown64(t, 3))
  }

  /** Every value of the snapshot can be printed whole. */
  predicate ValuesPrint(snap: Snapshot) {
    && (snap.satellite.Some? ==> SatellitePrints(snap.satellite.value))
    && (forall i :: 0 <= i < |snap.objects| ==> RowPrints(snap.objects[i]))
    && (forall i :: 0 <= i < |snap.trailPoints| ==>
          TimePrints(snap.trailPoints[i].t) && PositionPrints(snap.trailPoints[i].pos))
  }

  lemma {:induction false} PositionSurvivesIff(p: Vec64)
    ensures All(PositionShown(p), Survives) <==> PositionPrints(p)
  {
    hide Survives, ReadsWhole, Shown64;
    Survives64Iff(p.x, 1);
    Survives64Iff(p.y, 1);
    Survives64Iff(p.z, 1);
    var s := PositionShown(p);
    assert Survives(s[0]) <==> ReadsWhole(Shown64(p.x, 1));
    assert Survives(s[1]) <==> ReadsWhole(Shown64(p.y, 1));
    assert Survives(s[2]) <==> ReadsWhole(Shown64(p.z, 1));
  }

  /** A binary32 fits exactly when it is finite. */
  lemma {:induction false} SpeedFitsIff(b: F32, places: nat)
    requires 1 <= places <= 2
    ensures Fits(Shown32(b, places)) <==> Finite32(b)
  {
    if Finite32(b) {
      SpeedFits(b, places);
    } else {
      assert Magnitude32(b) >= 255 * FRACTION32 by {
        assert b / FRACTION32 == Magnitude32(b) / FRACTION32 + (if b < SIGN32 then 0 else 256);
      }
    }
  }

  lemma {:induction false} SpeedSurvivesIff(b: F32, places: nat)
    requires 1 <= places <= 2
    ensures Survives(Shown32(b, places)) <==> Finite32(b)
  {
    hide Fits, Survives;
    SpeedFitsIff(b, places);
    if Finite32(b) {
      FitsSurvives(Shown32(b, places));
    } else {
      NotShown32(b, places);
    }
  }

  lemma {:induction false} NotShown32(b: F32, places: nat)
    requires !Finite32(b)
    ensures !Shown32(b, places).Fixed? && !Survives(Shown32(b, places))
  {
    assert b / FRACTION32 == Magnitude32(b) / FRACTION32 + (if b < SIGN32 then 0 else 256);
  }

  lemma {:induction false} VelocitySurvivesIff(v: Vec32)
    ensures All(VelocityShown(v), Survives) <==> FiniteVec32(v)
  {
    hide Survives, Shown32, Finite32;
    SpeedSurvivesIff(v.x, 2);
    SpeedSurvivesIff(v.y, 2);
    SpeedSurvivesIff(v.z, 2);
    var s := VelocityShown(v);
    assert Survives(s[0]) <==> Finite32(v.x);
    assert Survives(s[1]) <==> Finite32(v.y);
    assert Survives(s[2]) <==> Finite32(v.z);
  }

  lemma {:induction false} SatelliteSurvivesIff(s: Satellite)
    ensures All(SatelliteShown(s), Survives) <==> SatellitePrints(s)
  {
    hide PositionShown, VelocityShown, All, Survives, PositionPrints, FiniteVec32;
    AllSplits(PositionShown(s.pos), VelocityShown(s.vel), Survives);
    PositionSurvivesIff(s.pos);
    VelocitySurvivesIff(s.vel);
  }

  lemma {:induction false} RowSurvivesIff(o: ObjectRecord)
    ensures All(RowShown(o), Survives) <==> RowPrints(o)
  {
    hide All, Survives, RowShown, PositionShown, VelocityShown, PositionPrints, FiniteVec32, Finite32, Shown32;
    hide HasVelocity;
    AllFloats(o, Survives);
    PositionSurvivesIff(o.pos);
    VelocitySurvivesIff(o.vel);
    SpeedSurvivesIff(o.intensity, 1);
  }

  lemma {:induction false} TrailSurvivesIff(p: TrailPoint)
    ensures All(TrailShown(p), Survives) <==> TimePrints(p.t) && PositionPrints(p.pos)
  {
    hide All, Survives, PositionShown, PositionPrints, ReadsWhole, Shown64;
    AllSplits([Shown64(p.t, 3)], PositionShown(p.pos), Survives);
    OnlyOne(Shown64(p.t, 3), Survives);
    PositionSurvivesIff(p.pos);
    Survives64Iff(p.t, 3);
  }

  /** The viewer recovers any snapshot exactly when its velocities and intensities are finite and its positions
      and times have, with their sign, at most 45 or exactly 47 digits before the point. */
  lemma {:induction false} RecoveredIffPrints(snap: Snapshot, b: Broadcast)
    requires GoodBroadcast(b) && Survives(ShownRate(snap.rateHz))
    ensures ParseStateMessage(Print(StateTree(snap, b))) == Ok(Faithful(snap, b)) <==> ValuesPrint(snap)
  {
    hide ParseStateMessage, Print, StateTree, Faithful, ShownRate, Survives, GoodBroadcast, All;
    hide RowShown, SatelliteShown, TrailShown, SatellitePrints, RowPrints, TimePrints, PositionPrints;
    RecoversIffSurvives(snap, b);
    if snap.satellite.Some? {
      SatelliteSurvivesIff(snap.satellite.value);
    }
    forall i | 0 <= i < |snap.objects|
      ensures All(RowShown(snap.objects[i]), Survives) <==> RowPrints(snap.objects[i])
    {
      RowSurvivesIff(snap.objects[i]);
    }
    forall i | 0 <= i < |snap.trailPoints|
      ensures All(TrailShown(snap.trailPoints[i]), Survives) <==>
        TimePrints(snap.trailPoints[i].t) && PositionPrints(snap.trailPoints[i].pos)
    {
      TrailSurvivesIff(snap.trailPoints[i]);
    }
  }

  // ----- snapshots made from decoded packets -----

  predicate DecodedObject(o: ObjectRecord) {
    VecInRange(o.pos) && FiniteVec32(o.vel) && Finite32(o.intensity)
  }

  predicate DecodedTrail(p: TrailPoint) {
    Finite64(p.t) && Key(p.t) > 0 && VecInRange(p.pos)
  }

  /** What the checks of both decoders promise about the values of a snapshot: nothing about the satellite's
      velocity, which may have been estimated. */
  predicate FromDecoders(snap: Snapshot) {
    && (snap.satellite.Some? ==> VecInRange(snap.satellite.value.pos))
    && (forall i :: 0 <= i < |snap.objects| ==> DecodedObject(snap.objects[i]))
    && (forall i :: 0 <= i < |snap.trailPoints| ==> DecodedTrail(snap.trailPoints[i]))
  }

  lemma {:induction false} InRangePrints(p: Vec64)
    requires VecInRange(p)
    ensures PositionPrints(p)
  {
    hide InCoordRange, ReadsWhole, Shown64;
    CoordinateReadsWhole(p.x);
    CoordinateReadsWhole(p.y);
    CoordinateReadsWhole(p.z);
  }

  lemma {:induction false} CoordinateReadsWhole(b: F64)
    requires InCoordRange(b)
    ensures ReadsWhole(Shown64(b, 1))
  {
    hide Fits, Survives, ReadsWhole, Units, RoundHalfEven, Pow2, Pow10;
    CoordinateFits(b);
    FitsSurvives(Shown64(b, 1));
    Survives64Iff(b, 1);
  }

  predicate SatelliteMoves(snap: Snapshot) {
    snap.satellite.Some? ==> FiniteVec32(snap.satellite.value.vel)
  }

  /** Of what the decoders let through only an estimated velocity or a sample time can be lost: the viewer
      recovers the snapshot exactly when the one is finite and the others have at most 45 or exactly 47 digits before
      the point. */
  lemma {:induction false} DecodedRecoveredIff(snap: Snapshot, b: Broadcast)
    requires GoodBroadcast(b) && FromDecoders(snap) && Survives(ShownRate(snap.rateHz))
    ensures ParseStateMessage(Print(StateTree(snap, b))) == Ok(Faithful(snap, b)) <==>
      SatelliteMoves(snap) && forall i :: 0 <= i < |snap.trailPoints| ==> TimePrints(snap.trailPoints[i].t)
  {
    hide ParseStateMessage, Print, StateTree, Faithful, ShownRate, Survives, GoodBroadcast;
    hide VecInRange, FiniteVec32, Finite32, TimePrints, PositionPrints, HasVelocity;
    RecoveredIffPrints(snap, b);
    if snap.satellite.Some? {
      InRangePrints(snap.satellite.value.pos);
    }
    forall i | 0 <= i < |snap.objects|
      ensures RowPrints(snap.objects[i])
    {
      InRangePrints(snap.objects[i].pos);
    }
    forall i | 0 <= i < |snap.trailPoints|
      ensures PositionPrints(snap.trailPoints[i].pos)
    {
      InRangePrints(snap.trailPoints[i].pos);
    }
  }

  /** With a finite satellite velocity only sample times are left to be lost. */
  lemma {:induction false} OnlyTimesCanBeLost(snap: Snapshot, b: Broadcast)
    requires GoodBroadcast(b) && FromDecoders(snap) && SatelliteMoves(snap) && Survives(ShownRate(snap.rateHz))
    ensures ParseStateMessage(Print(StateTree(snap, b))) == Ok(Faithful(snap, b)) <==>
      forall i :: 0 <= i < |snap.trailPoints| ==>
        var s := Shown64(snap.trailPoints[i].t, 3);
        s.Fixed? && (|WholePart(s)| <= 45 || |WholePart(s)| == 47)
  {
    hide ParseStateMessage, Print, StateTree, Faithful, ShownRate, Survives, GoodBroadcast, Shown64, WholePart;
    hide VecInRange, FiniteVec32, Finite32, SatelliteMoves;
    DecodedRecoveredIff(snap, b);
    forall i | 0 <= i < |snap.trailPoints|
      ensures var s := Shown64(snap.trailPoints[i].t, 3);
        TimePrints(snap.trailPoints[i].t) <==> s.Fixed? && (|WholePart(s)| <= 45 || |WholePart(s)| == 47)
    {
      assert DecodedTrail(snap.trailPoints[i]);
      PositiveHasNoSign(snap.trailPoints[i].t);
    }
  }

  lemma {:induction false} PositiveHasNoSign(t: F64)
    requires Finite64(t) && Key(t) > 0
    ensures Shown64(t, 3).Fixed? && !Shown64(t, 3).negative && Shown64(t, 3).places == 3
  {
    hide Units, RoundHalfEven, Pow2, Pow10;
  }

  /** Sample times in order are read in order. */
  lemma {:induction false} TimesReadInOrder(a: F64, b: F64)
    requires Finite64(a) && Finite64(b) && 0 < Key(a) < Key(b)
    ensures RealOf(Exact(Shown64(a, 3))) <= RealOf(Exact(Shown64(b, 3)))
  {
    PositiveHasNoSign(a);
    PositiveHasNoSign(b);
    TimesPrintInOrder(a, b);
    hide Key, Shown64;
    var s, t := Shown64(a, 3), Shown64(b, 3);
    assert Pow10(3) == 1000;
    hide Pow10;
    ValueOfPlain(false, s.units, 3);
    ValueOfPlain(false, t.units, 3);
    TrimKeepsNumber(false, s.units, 3);
    TrimKeepsNumber(false, t.units, 3);
  }
}
