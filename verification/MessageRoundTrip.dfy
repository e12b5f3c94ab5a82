/** The viewer reads back what the broadcaster wrote, exactly when the value of every number survives its buffer. */
module MessageRoundTrip {
  import opened ByteNumbers
  import opened Bytes
  import opened Floats
  import opened Records
  import opened Decimal
  import opened Json
  import opened Printf
  import opened Store
  import opened StateMessage
  import opened ClientMessage

  // ----- short decimals are finite -----

  lemma {:induction false} Pow10BelowPow16(n: nat)
    ensures Pow10(n) <= Pow2(4 * n)
  {
    if n > 0 {
      Pow10BelowPow16(n - 1);
      Pow2Add(4, 4 * (n - 1));
      assert Pow2(4) == 16;
      assert 4 + 4 * (n - 1) == 4 * n;
    }
  }

  lemma {:induction false} ShortIsFinite(n: Number)
    requires n.exponent == 0 && n.units < Pow10(47)
    ensures FiniteDecimal(n)
  {
    hide Pow2, Pow10;
    Pow10BelowPow16(47);
    Pow2Monotone(188, 970);
    Pow2Monotone(970, 1023);
    assert Pow2(1024) == 2 * Pow2(1023) by { Pow2Step(); }
    assert Pow10(0) == 1 by { Pow10Zero(); }
    if n.places > 0 {
      ScaleUp(Overflow(), Pow10(n.places));
    }
  }

  lemma Pow2Step()
    ensures Pow2(1024) == 2 * Pow2(1023)
  {
  }

  lemma Pow10Zero()
    ensures Pow10(0) == 1
  {
  }

  lemma {:induction false} NatBelow(d: string)
    requires AllDigits(d)
    ensures NatOf(d) < Pow10(|d|)
  {
    if d != [] {
      NatBelow(d[..|d| - 1]);
    }
  }

  lemma {:induction false} Pow10Monotone(m: nat, n: nat)
    requires m <= n
    ensures Pow10(m) <= Pow10(n)
    decreases n
  {
    if m < n {
      Pow10Monotone(m, n - 1);
    }
  }

  lemma {:induction false} DigitsAreFinite(negative: bool, d: string, places: nat)
    requires AllDigits(d) && |d| <= 47
    ensures FiniteDecimal(Number(negative, NatOf(d), places, 0))
  {
    hide Pow10, FiniteDecimal;
    NatBelow(d);
    Pow10Monotone(|d|, 47);
    ShortIsFinite(Number(negative, NatOf(d), places, 0));
  }

  /** Whatever the buffer holds is either a finite number or not a number at all. */
  lemma {:induction false} SpelledIsFinite(s: Shown)
    requires Spelled(s) && (s.Fixed? ==> s.places > 0)
    ensures IsFiniteNumber(Num(FloatText(s))) && ValueIn(Num(FloatText(s))) == Buffered(s)
  {
    hide ValidNumber, NumberOf, NatOf, WholePart, FractionPart, FiniteDecimal;
    if !s.Fixed? {
      assert ShownText(s) == "inf" || ShownText(s) == "-inf" || ShownText(s) == "nan" || ShownText(s) == "-nan" by {
        assert s.Infinite? && s.negative ==> ShownText(s) == "-inf";
        assert s.NotANumber? && s.negative ==> ShownText(s) == "-nan";
        assert s.Infinite? && !s.negative ==> ShownText(s) == "inf";
        assert s.NotANumber? && !s.negative ==> ShownText(s) == "nan";
      }
      WordIsNoNumber(ShownText(s));
      assert false;
    } else {
      WholePartLeads(s);
      var t, w, f, g := FloatText(s), WholePart(s), FractionPart(s), Sign(s.negative);
      assert ShownText(s) == g + w + ("." + f);
      if |g| + |w| >= FLOAT_BUFFER - 1 {
        var k := FLOAT_BUFFER - 1 - |g|;
        assert t == g + w[..k];
        WholeNumber(s.negative, w[..k]);
        DigitsAreFinite(s.negative, w[..k], 0);
      } else {
        var k := if |f| < FLOAT_BUFFER - 2 - |g| - |w| then |f| else FLOAT_BUFFER - 2 - |g| - |w|;
        assert t == g + w + ("." + f[..k]);
        PointedNumber(s.negative, w, f[..k]);
        DigitsAreFinite(s.negative, w + f[..k], k);
      }
    }
  }

  lemma {:induction false} NoNumberIsNotSpelled(s: Shown)
    requires !s.Fixed?
    ensures !Spelled(s)
  {
    hide ValidNumber;
    var text := ShownText(s);
    assert s.Infinite? && s.negative ==> text == "-inf";
    assert s.NotANumber? && s.negative ==> text == "-nan";
    assert s.Infinite? && !s.negative ==> text == "inf";
    assert s.NotANumber? && !s.negative ==> text == "nan";
    WordIsNoNumber(text);
  }

  lemma {:induction false} IntegerIsFinite(n: int)
    requires -0x8000_0000_0000_0000 <= n <= 0xFFFF_FFFF_FFFF_FFFF
    ensures IsFiniteNumber(Num(IntText(n))) && NumberLike(IntText(n)) && ValidNumber(IntText(n))
    ensures ValueIn(Num(IntText(n))) == SmallValue(n)
  {
    hide ValidNumber, NumberOf, NatOf, Digits, FiniteDecimal, Pow10, Cut, IntegerText;
    IntegerTokens(n);
    IntegerFits(n);
    Pow10Of20();
    Pow10Monotone(20, 47);
    ShortIsFinite(NumberOf(IntText(n)));
    Pow10Zero();
  }

  lemma {:induction false} CounterIsFinite(n: nat)
    ensures IsFiniteNumber(Counter(n)) && NumberLike(CounterText(n)) && ValidNumber(CounterText(n))
    ensures ValueIn(Counter(n)) == Whole(n % TWO64)
  {
    hide IsFiniteNumber, NumberLike, ValidNumber, NumberOf, ValueIn, IntegerText, Cut;
    IntegerIsFinite(n % TWO64);
  }

  // ----- survives, or does not read back -----

  lemma {:induction false} SurvivesIffFaithful(s: Shown)
    requires s.Fixed? ==> s.places > 0
    ensures Survives(s) <==> Spelled(s) && Buffered(s) == Exact(s)
  {
    hide ValidNumber, NumberOf, FloatText, Survives, ValueOf;
    ValueSurvivesIff(s);
    if !s.Fixed? {
      NoNumberIsNotSpelled(s);
    }
  }

  /** Every float of a message has digits after the point. */
  predicate Pointed(s: seq<Shown>) {
    forall i :: 0 <= i < |s| ==> s[i].Fixed? ==> s[i].places > 0
  }

  function Readings(s: seq<Shown>, read: Reading): (r: seq<Value>)
    ensures |r| == |s| && forall i :: 0 <= i < |r| ==> r[i] == read(s[i])
  {
    seq(|s|, i requires 0 <= i < |s| => read(s[i]))
  }

  lemma {:induction false} AllSurviveIffFaithful(s: seq<Shown>)
    requires Pointed(s)
    ensures All(s, Survives) <==> All(s, Spelled) && Readings(s, Buffered) == Readings(s, Exact)
  {
    hide Survives, Spelled, Buffered, Exact;
    forall i | 0 <= i < |s|
      ensures Survives(s[i]) <==> Spelled(s[i]) && Buffered(s[i]) == Exact(s[i])
    {
      SurvivesIffFaithful(s[i]);
    }
    if All(s, Spelled) && Readings(s, Buffered) == Readings(s, Exact) {
      forall i | 0 <= i < |s|
        ensures Survives(s[i])
      {
        assert Readings(s, Buffered)[i] == Readings(s, Exact)[i];
      }
    }
  }

  lemma {:induction false} AllSpelledAreFinite(s: seq<Shown>)
    requires Pointed(s) && All(s, Spelled)
    ensures forall i :: 0 <= i < |s| ==>
      IsFiniteNumber(Num(FloatText(s[i]))) && ValueIn(Num(FloatText(s[i]))) == Buffered(s[i])
  {
    hide NumberOf, ValueIn, Spelled, FloatText, Buffered, ValidNumber, FiniteDecimal;
    forall i | 0 <= i < |s|
      ensures IsFiniteNumber(Num(FloatText(s[i]))) && ValueIn(Num(FloatText(s[i]))) == Buffered(s[i])
    {
      assert Spelled(s[i]);
      SpelledIsFinite(s[i]);
    }
  }

  // ----- reading each part of the tree -----

  lemma {:induction false} PositionParses(p: Vec64)
    requires All(PositionShown(p), Spelled)
    ensures IsNumberArray(PositionTree(p), 3) && NumbersOf(PositionTree(p).items) == ClientPosition(p, Buffered)
  {
    hide IsFiniteNumber, NumberOf, ValueIn, Spelled, FloatText, Buffered;
    var s := PositionShown(p);
    AllSpelledAreFinite(s);
    var items := PositionTree(p).items;
    assert forall i :: 0 <= i < 3 ==> items[i] == Num(FloatText(s[i]));
  }

  lemma {:induction false} VelocityParses(v: Vec32)
    requires All(VelocityShown(v), Spelled)
    ensures IsNumberArray(VelocityTree(v), 3) && NumbersOf(VelocityTree(v).items) == ClientVelocity(v, Buffered)
  {
    hide IsFiniteNumber, NumberOf, ValueIn, Spelled, FloatText, Buffered;
    var s := VelocityShown(v);
    AllSpelledAreFinite(s);
    var items := VelocityTree(v).items;
    assert forall i :: 0 <= i < 3 ==> items[i] == Num(FloatText(s[i]));
  }

  lemma {:induction false} AllSplits(a: seq<Shown>, b: seq<Shown>, p: Shown -> bool)
    ensures All(a + b, p) <==> All(a, p) && All(b, p)
  {
    if All(a + b, p) {
      forall i | 0 <= i < |a|
        ensures p(a[i])
      {
        assert (a + b)[i] == a[i];
      }
      forall i | 0 <= i < |b|
        ensures p(b[i])
      {
        assert (a + b)[|a| + i] == b[i];
      }
    }
  }

  lemma {:induction false} SatelliteParses(s: Satellite)
    requires All(SatelliteShown(s), Spelled)
    ensures ParseSatellite(Some(SatelliteTree(s))) == Ok(Some(SatelliteFor(s, Buffered)))
  {
    hide IsFiniteNumber, NumberOf, ValueIn, Spelled, CounterText, PositionTree, VelocityTree, ClientPosition;
    hide ClientVelocity;
    AllSplits(PositionShown(s.pos), VelocityShown(s.vel), Spelled);
    PositionParses(s.pos);
    VelocityParses(s.vel);
    CounterIsFinite(s.id);
    CounterIsFinite(s.sequence);
    SatelliteFields(s);
  }

  lemma {:induction false} SatelliteFields(s: Satellite)
    ensures var m := SatelliteTree(s).members;
      && Lookup(m, "id") == Some(Counter(s.id)) && Lookup(m, "seq") == Some(Counter(s.sequence))
      && Lookup(m, "pos") == Some(PositionTree(s.pos)) && Lookup(m, "vel") == Some(VelocityTree(s.vel))
  {
    hide Counter, PositionTree, VelocityTree;
    var m := SatelliteTree(s).members;
    KeysDiffer();
    LookupAt(m, 0);
    LookupAt(m, 1);
    LookupAt(m, 2);
    LookupAt(m, 3);
  }

  /** A name is found where no later member has it. */
  lemma {:induction false} LookupAt(m: seq<Member>, k: nat)
    requires k < |m| && forall j :: k < j < |m| ==> m[j].key != m[k].key
    ensures Lookup(m, m[k].key) == Some(m[k].value)
  {
    if k < |m| - 1 {
      LookupAt(m[..|m| - 1], k);
    }
  }

  lemma {:induction false} LookupMissing(m: seq<Member>, key: string)
    requires forall j :: 0 <= j < |m| ==> m[j].key != key
    ensures Lookup(m, key) == None
  {
    if m != [] {
      LookupMissing(m[..|m| - 1], key);
    }
  }

  lemma {:induction false} KeysDiffer()
    ensures "id" != "seq" && "pos" != "vel" && "id" != "pos" && "id" != "vel" && "seq" != "pos" && "seq" != "vel"
  {
    assert "id"[0] == 'i' && "seq"[0] == 's' && "pos"[0] == 'p' && "vel"[0] == 'v';
  }

  lemma {:induction false} RowVelocityParses(o: ObjectRecord)
    requires HasVelocity(o) ==> All(VelocityShown(o.vel), Spelled)
    ensures ParseRowVelocity([Column(o, o.vel.x), Column(o, o.vel.y), Column(o, o.vel.z)]) ==
      Ok(if HasVelocity(o) then Some(ClientVelocity(o.vel, Buffered)) else None)
  {
    hide IsFiniteNumber, NumberOf, ValueIn, Spelled, FloatText, Buffered, HasVelocity, ClientVelocity;
    var v := [Column(o, o.vel.x), Column(o, o.vel.y), Column(o, o.vel.z)];
    if HasVelocity(o) {
      VelocityParses(o.vel);
      assert v == VelocityTree(o.vel).items;
    }
  }

  lemma ByteBounds(b: byte)
    ensures 0 <= b as int < 256
  {
  }

  /** The columns of a row read as the fields of a record. */
  ghost predicate ColumnsRead(c: seq<Json>, o: ObjectRecord) {
    && |c| == 11 && ScalarsRead(c, o)
    && AreFiniteNumbers(c[2..5]) && NumbersOf(c[2..5]) == ClientPosition(o.pos, Buffered)
    && ParseRowVelocity(c[5..8]) == Ok(if HasVelocity(o) then Some(ClientVelocity(o.vel, Buffered)) else None)
  }

  predicate ScalarsRead(c: seq<Json>, o: ObjectRecord)
    requires |c| == 11
  {
    && Reads(c[0], Whole(o.id))
    && Reads(c[1], ByteValue(o.kind)) && IsInteger(c[1]) && IntegerValue(ByteValue(o.kind)) == Some(o.kind as int)
    && Reads(c[8], ByteValue(o.confidence))
    && Reads(c[9], Buffered(Shown32(o.intensity, 1)))
    && Reads(c[10], ByteValue(o.flags))
  }

  function ByteValue(b: byte): Value {
    ByteBounds(b);
    Whole(b as int)
  }

  /** A JSON value is the number `n`. */
  predicate Reads(v: Json, n: Value) {
    IsFiniteNumber(v) && ValueIn(v) == n
  }

  lemma {:induction false} RowColumnsRead(o: ObjectRecord)
    requires All(RowShown(o), Spelled)
    ensures ColumnsRead(RowTree(o).items, o)
  {
    hide Reads, IsInteger, Meters, Spelled, Buffered, HasVelocity, All, AreFiniteNumbers, IntegerValue, RowShown;
    hide ClientPosition, ClientVelocity, ParseRowVelocity, Column, NumbersOf, Shown32, Counter, Small;
    hide PositionShown, VelocityShown, FloatText;
    RowColumns(o);
    hide RowTree;
    RowShownParts(o);
    IdReads(o.id);
    ByteReads(o.kind);
    ByteReads(o.confidence);
    ByteReads(o.flags);
    IntensityParses(o);
    RowPositionReads(o, RowTree(o).items[2..5]);
    RowVelocityParses(o);
  }

  lemma RowColumns(o: ObjectRecord)
    ensures RowTree(o).Arr? && |RowTree(o).items| == 11
    ensures var c := RowTree(o).items;
      && c[0] == Counter(o.id) && c[1] == Small(o.kind as int)
      && c[2..5] == [Meters(o.pos.x), Meters(o.pos.y), Meters(o.pos.z)]
      && c[5..8] == [Column(o, o.vel.x), Column(o, o.vel.y), Column(o, o.vel.z)]
      && c[8] == Small(o.confidence as int) && c[9] == Num(FloatText(Shown32(o.intensity, 1)))
      && c[10] == Small(o.flags as int)
  {
    hide Counter, Small, Meters, Column, FloatText, Shown32;
  }

  lemma {:induction false} RowParses(o: ObjectRecord)
    requires All(RowShown(o), Spelled)
    ensures ParseObjectRow(RowTree(o)) == Ok(ObjectFor(o, Buffered))
  {
    hide IsFiniteNumber, NumberOf, ValueIn, Spelled, Buffered, HasVelocity, CategoryName, All, RowShown;
    hide AreFiniteNumbers;
    hide ClientVelocity, ParseRowVelocity, ClientPosition, NumbersOf, IntegerValue;
    RowColumnsRead(o);
    hide RowTree;
  }

  lemma {:induction false} RowPositionReads(o: ObjectRecord, columns: seq<Json>)
    requires All(PositionShown(o.pos), Spelled) && columns == [Meters(o.pos.x), Meters(o.pos.y), Meters(o.pos.z)]
    ensures AreFiniteNumbers(columns) && NumbersOf(columns) == ClientPosition(o.pos, Buffered)
  {
    hide AreFiniteNumbers, NumbersOf, ClientPosition, All, PositionShown, Meters;
    PositionParses(o.pos);
  }

  lemma {:induction false} RowShownParts(o: ObjectRecord)
    requires All(RowShown(o), Spelled)
    ensures All(PositionShown(o.pos), Spelled) && All([Shown32(o.intensity, 1)], Spelled)
    ensures HasVelocity(o) ==> All(VelocityShown(o.vel), Spelled)
  {
    hide All, PositionShown, VelocityShown, Spelled, HasVelocity, Shown32;
    var vel := if HasVelocity(o) then VelocityShown(o.vel) else [];
    AllSplits(PositionShown(o.pos) + vel, [Shown32(o.intensity, 1)], Spelled);
    AllSplits(PositionShown(o.pos), vel, Spelled);
  }

  lemma {:induction false} IdReads(id: u32)
    ensures Reads(Counter(id), Whole(id))
  {
    hide NumberOf, ValueIn, CounterText, IsFiniteNumber;
    CounterIsFinite(id);
  }

  lemma {:induction false} ByteReads(b: byte)
    ensures var n := b as int;
      Reads(Small(n), Whole(n)) && IsInteger(Small(n)) && IntegerValue(Whole(n)) == Some(n)
  {
    hide NumberOf, ValueIn, IntText, IntegerValue, IsFiniteNumber;
    ByteBounds(b);
    IntegerIsFinite(b as int);
    WholeIsInteger(b as int);
  }

  lemma {:induction false} IntensityParses(o: ObjectRecord)
    requires All([Shown32(o.intensity, 1)], Spelled)
    ensures Reads(Num(FloatText(Shown32(o.intensity, 1))), Buffered(Shown32(o.intensity, 1)))
  {
    hide IsFiniteNumber, NumberOf, ValueIn, Spelled, FloatText, Buffered;
    assert Spelled([Shown32(o.intensity, 1)][0]);
    SpelledIsFinite(Shown32(o.intensity, 1));
  }

  lemma WholeIsInteger(n: nat)
    ensures IntegerValue(Whole(n)) == Some(n)
  {
  }

  lemma {:induction false} TrailRowParses(p: TrailPoint)
    requires All(TrailShown(p), Spelled)
    ensures ParseTrailRow(TrailTree(p)) == Ok(TrailFor(p, Buffered))
  {
    hide IsFiniteNumber, NumberOf, ValueIn, Spelled, FloatText, Buffered, CounterText, Shown64;
    var s := TrailShown(p);
    assert Spelled(s[0]) && Spelled(s[1]) && Spelled(s[2]) && Spelled(s[3]);
    PointedShown(p.t, 3);
    PointedShown(p.pos.x, 1);
    PointedShown(p.pos.y, 1);
    PointedShown(p.pos.z, 1);
    SpelledIsFinite(s[0]);
    SpelledIsFinite(s[1]);
    SpelledIsFinite(s[2]);
    SpelledIsFinite(s[3]);
    CounterIsFinite(p.id);
    assert NumbersOf(TrailTree(p).items)[2..5] == ClientPosition(p.pos, Buffered);
  }

  lemma PointedShown(b: F64, places: nat)
    ensures Shown64(b, places).Fixed? ==> Shown64(b, places).places == places
  {
  }

  lemma {:induction false} RowsParse(objects: seq<ObjectRecord>)
    requires forall i :: 0 <= i < |objects| ==> All(RowShown(objects[i]), Spelled)
    ensures ParseRows(RowTrees(objects)) == Ok(ObjectsFor(objects, Buffered))
  {
    hide ParseObjectRow, RowTree, ObjectFor, RowShown, All;
    if objects != [] {
      RowParses(objects[0]);
      RowsParse(objects[1..]);
      assert RowTrees(objects)[1..] == RowTrees(objects[1..]);
      assert ObjectsFor(objects, Buffered) == [ObjectFor(objects[0], Buffered)] + ObjectsFor(objects[1..], Buffered);
    }
  }

  lemma {:induction false} TrailRowsParse(points: seq<TrailPoint>)
    requires forall i :: 0 <= i < |points| ==> All(TrailShown(points[i]), Spelled)
    ensures ParseTrailRows(TrailTrees(points)) == Ok(TrailsFor(points, Buffered))
  {
    hide ParseTrailRow, TrailTree, TrailFor, TrailShown, All;
    if points != [] {
      TrailRowParses(points[0]);
      TrailRowsParse(points[1..]);
      assert TrailTrees(points)[1..] == TrailTrees(points[1..]);
      assert TrailsFor(points, Buffered) == [TrailFor(points[0], Buffered)] + TrailsFor(points[1..], Buffered);
    }
  }

  // ----- the tree prints, and is valid when its floats are -----

  lemma {:induction false} FloatLeaf(s: Shown)
    ensures Printable(Num(FloatText(s))) && (NumbersValid(Num(FloatText(s))) <==> Spelled(s))
  {
    hide FloatText, NumberLike, ValidNumber;
    FloatTextIsNumberLike(s);
  }

  lemma {:induction false} CounterLeaf(n: nat)
    ensures Printable(Counter(n)) && NumbersValid(Counter(n))
  {
    hide CounterText, NumberLike, ValidNumber, IsFiniteNumber;
    CounterIsFinite(n);
  }

  lemma {:induction false} SmallLeaf(n: int)
    requires -0x8000_0000 <= n < 0x8000_0000
    ensures Printable(Small(n)) && NumbersValid(Small(n))
  {
    hide IntText, NumberLike, ValidNumber, IsFiniteNumber;
    IntegerIsFinite(n);
  }

  lemma {:induction false} PositionLeaves(p: Vec64)
    ensures Printable(PositionTree(p)) && (NumbersValid(PositionTree(p)) <==> All(PositionShown(p), Spelled))
    ensures AllPrintable(PositionTree(p).items)
    ensures AllValid(PositionTree(p).items) <==> All(PositionShown(p), Spelled)
  {
    hide Spelled, FloatText, NumberLike, ValidNumber, Shown64;
    var s := PositionShown(p);
    FloatLeaf(s[0]);
    FloatLeaf(s[1]);
    FloatLeaf(s[2]);
    assert NumbersValid(PositionTree(p).items[0]) <==> Spelled(s[0]);
    assert NumbersValid(PositionTree(p).items[1]) <==> Spelled(s[1]);
    assert NumbersValid(PositionTree(p).items[2]) <==> Spelled(s[2]);
  }

  lemma {:induction false} VelocityLeaves(v: Vec32)
    ensures Printable(VelocityTree(v)) && (NumbersValid(VelocityTree(v)) <==> All(VelocityShown(v), Spelled))
    ensures AllPrintable(VelocityTree(v).items)
    ensures AllValid(VelocityTree(v).items) <==> All(VelocityShown(v), Spelled)
  {
    hide Spelled, FloatText, NumberLike, ValidNumber, Shown32;
    var s := VelocityShown(v);
    FloatLeaf(s[0]);
    FloatLeaf(s[1]);
    FloatLeaf(s[2]);
    assert NumbersValid(VelocityTree(v).items[0]) <==> Spelled(s[0]);
    assert NumbersValid(VelocityTree(v).items[1]) <==> Spelled(s[1]);
    assert NumbersValid(VelocityTree(v).items[2]) <==> Spelled(s[2]);
  }

  predicate AllPrintable(items: seq<Json>) {
    forall i :: 0 <= i < |items| ==> Printable(items[i])
  }

  predicate AllValid(items: seq<Json>) {
    forall i :: 0 <= i < |items| ==> NumbersValid(items[i])
  }

  lemma {:induction false} Joined(a: seq<Json>, b: seq<Json>)
    ensures AllPrintable(a + b) <==> AllPrintable(a) && AllPrintable(b)
    ensures AllValid(a + b) <==> AllValid(a) && AllValid(b)
  {
    hide Printable, NumbersValid;
    var c := a + b;
    assert forall i :: 0 <= i < |a| ==> c[i] == a[i];
    assert forall i :: 0 <= i < |b| ==> c[|a| + i] == b[i];
  }

  lemma {:induction false} ColumnLeaves(o: ObjectRecord)
    ensures var c := [Column(o, o.vel.x), Column(o, o.vel.y), Column(o, o.vel.z)];
      AllPrintable(c) && (AllValid(c) <==> (HasVelocity(o) ==> All(VelocityShown(o.vel), Spelled)))
  {
    hide HasVelocity, All, FloatText, Shown32, VelocityShown, Spelled;
    var c := [Column(o, o.vel.x), Column(o, o.vel.y), Column(o, o.vel.z)];
    if HasVelocity(o) {
      VelocityLeaves(o.vel);
      assert c == VelocityTree(o.vel).items;
    }
  }

  lemma {:induction false} AllFloats(o: ObjectRecord, p: Shown -> bool)
    ensures All(RowShown(o), p) <==>
      All(PositionShown(o.pos), p) && (HasVelocity(o) ==> All(VelocityShown(o.vel), p)) && p(Shown32(o.intensity, 1))
  {
    hide PositionShown, VelocityShown, HasVelocity, Shown32;
    var vel := if HasVelocity(o) then VelocityShown(o.vel) else [];
    AllSplits(PositionShown(o.pos) + vel, [Shown32(o.intensity, 1)], p);
    AllSplits(PositionShown(o.pos), vel, p);
    assert [Shown32(o.intensity, 1)][0] == Shown32(o.intensity, 1);
  }

  /** A row's columns in three runs around its position and velocity. */
  lemma RowRuns(o: ObjectRecord, ids: seq<Json>, rest: seq<Json>)
    requires ids == [Counter(o.id), Small(o.kind as int)]
    requires rest == [Small(o.confidence as int), Num(FloatText(Shown32(o.intensity, 1))), Small(o.flags as int)]
    ensures RowTree(o).items ==
      ids + PositionTree(o.pos).items + [Column(o, o.vel.x), Column(o, o.vel.y), Column(o, o.vel.z)] + rest
  {
    hide Counter, Small, Column, Meters, FloatText, Shown32;
  }

  lemma {:induction false} RowLeaves(o: ObjectRecord)
    ensures Printable(RowTree(o)) && (NumbersValid(RowTree(o)) <==> All(RowShown(o), Spelled))
  {
    hide HasVelocity, All, FloatText, Shown32, VelocityShown, PositionShown, Spelled, Column;
    hide Counter, Small, Meters, Printable, NumbersValid, RowShown;
    var vel := [Column(o, o.vel.x), Column(o, o.vel.y), Column(o, o.vel.z)];
    var ids, pos := [Counter(o.id), Small(o.kind as int)], PositionTree(o.pos).items;
    var rest := [Small(o.confidence as int), Num(FloatText(Shown32(o.intensity, 1))), Small(o.flags as int)];
    RowRuns(o, ids, rest);
    ArrayLeaves(RowTree(o).items);
    hide RowTree, PositionTree;
    Joined(ids + pos + vel, rest);
    Joined(ids + pos, vel);
    Joined(ids, pos);
    AllFloats(o, Spelled);
    PositionLeaves(o.pos);
    ColumnLeaves(o);
    CounterLeaf(o.id);
    ByteBounds(o.kind);
    ByteBounds(o.confidence);
    ByteBounds(o.flags);
    SmallLeaf(o.kind as int);
    assert AllPrintable(ids) && AllValid(ids);
    SmallLeaf(o.confidence as int);
    SmallLeaf(o.flags as int);
    FloatLeaf(Shown32(o.intensity, 1));
    assert AllPrintable(rest);
    assert AllValid(rest) <==> NumbersValid(rest[1]);
  }

  lemma ArrayLeaves(items: seq<Json>)
    ensures Printable(Arr(items)) <==> AllPrintable(items)
    ensures NumbersValid(Arr(items)) <==> AllValid(items)
  {
  }

  lemma {:induction false} TrailLeaves(p: TrailPoint)
    ensures Printable(TrailTree(p)) && (NumbersValid(TrailTree(p)) <==> All(TrailShown(p), Spelled))
  {
    hide FloatText, Shown64, PositionShown, Spelled, Meters, Counter, All, Printable, NumbersValid;
    var first, pos := [Counter(p.id), Num(FloatText(Shown64(p.t, 3)))], PositionTree(p.pos).items;
    assert TrailTree(p).items == first + pos by { TrailRuns(p); }
    ArrayLeaves(TrailTree(p).items);
    hide TrailTree, PositionTree;
    Joined(first, pos);
    CounterLeaf(p.id);
    FloatLeaf(Shown64(p.t, 3));
    PositionLeaves(p.pos);
    AllSplits([Shown64(p.t, 3)], PositionShown(p.pos), Spelled);
    assert AllPrintable(first);
    assert AllValid(first) <==> NumbersValid(first[1]);
    OnlyOne(Shown64(p.t, 3), Spelled);
  }

  lemma TrailRuns(p: TrailPoint)
    ensures TrailTree(p).items == [Counter(p.id), Num(FloatText(Shown64(p.t, 3)))] + PositionTree(p.pos).items
  {
    hide Counter, Meters, FloatText, Shown64;
  }

  lemma {:induction false} OnlyOne(s: Shown, p: Shown -> bool)
    ensures All([s], p) <==> p(s)
  {
    assert [s][0] == s;
  }

  lemma {:induction false} SatelliteLeaves(s: Satellite)
    ensures Printable(SatelliteTree(s)) && (NumbersValid(SatelliteTree(s)) <==> All(SatelliteShown(s), Spelled))
  {
    hide PositionShown, VelocityShown, Spelled, PositionTree, VelocityTree, Counter, All;
    hide Printable, NumbersValid, PlainString;
    CounterLeaf(s.id);
    CounterLeaf(s.sequence);
    PositionLeaves(s.pos);
    VelocityLeaves(s.vel);
    AllSplits(PositionShown(s.pos), VelocityShown(s.vel), Spelled);
    var m := SatelliteTree(s).members;
    ObjectLeaves(m);
    SatelliteNames();
    assert m[2].value == PositionTree(s.pos) && m[3].value == VelocityTree(s.vel);
  }

  predicate MembersPrintable(m: seq<Member>) {
    forall i :: 0 <= i < |m| ==> PlainString(m[i].key) && Printable(m[i].value)
  }

  predicate MembersValid(m: seq<Member>) {
    forall i :: 0 <= i < |m| ==> NumbersValid(m[i].value)
  }

  lemma ObjectLeaves(m: seq<Member>)
    ensures Printable(Obj(m)) <==> MembersPrintable(m)
    ensures NumbersValid(Obj(m)) <==> MembersValid(m)
  {
  }

  lemma {:induction false} MembersJoined(a: seq<Member>, b: seq<Member>)
    ensures MembersPrintable(a + b) <==> MembersPrintable(a) && MembersPrintable(b)
    ensures MembersValid(a + b) <==> MembersValid(a) && MembersValid(b)
  {
    hide Printable, NumbersValid, PlainString;
    var c := a + b;
    assert forall i :: 0 <= i < |a| ==> c[i] == a[i];
    assert forall i :: 0 <= i < |b| ==> c[|a| + i] == b[i];
  }

  lemma SatelliteNames()
    ensures PlainString("id") && PlainString("seq") && PlainString("pos") && PlainString("vel")
  {
  }

  lemma StateNames()
    ensures PlainString("type") && PlainString("state") && PlainString("serverTime") && PlainString("lastDataTime")
    ensures PlainString("satellite") && PlainString("objects") && PlainString("trailPoints") && PlainString("stats")
  {
  }

  lemma StatsNames()
    ensures PlainString("udpReceived") && PlainString("udpAccepted") && PlainString("udpDropped")
    ensures PlainString("udpRateHz") && PlainString("wsClients") && PlainString("objectCount")
    ensures PlainString("broadcastSeq")
  {
  }

  lemma {:induction false} StatsLeaves(snap: Snapshot, b: Broadcast)
    requires GoodBroadcast(b)
    ensures var t := StatsTree(snap, b, FloatText(ShownRate(snap.rateHz)));
      Printable(t) && (NumbersValid(t) <==> Spelled(ShownRate(snap.rateHz)))
  {
    hide Spelled, Counter, Small, FloatText, ShownRate, Printable, NumbersValid, PlainString;
    CounterLeaf(snap.stats.received);
    CounterLeaf(snap.stats.accepted);
    CounterLeaf(snap.stats.malformed + snap.stats.stale);
    FloatLeaf(ShownRate(snap.rateHz));
    SmallLeaf(b.clients);
    CounterLeaf(|snap.objects|);
    CounterLeaf(b.sequence);
    StatsNames();
    var m := StatsTree(snap, b, FloatText(ShownRate(snap.rateHz))).members;
    ObjectLeaves(m);
    assert m[3].value == Num(FloatText(ShownRate(snap.rateHz)));
  }

  lemma {:induction false} RowsLeaves(objects: seq<ObjectRecord>)
    ensures Printable(Arr(RowTrees(objects)))
    ensures NumbersValid(Arr(RowTrees(objects))) <==>
      forall i :: 0 <= i < |objects| ==> All(RowShown(objects[i]), Spelled)
  {
    hide Spelled, RowTree, RowShown, All, Printable, NumbersValid;
    var t := RowTrees(objects);
    ArrayLeaves(t);
    forall i | 0 <= i < |objects|
      ensures Printable(t[i]) && (NumbersValid(t[i]) <==> All(RowShown(objects[i]), Spelled))
    {
      RowLeaves(objects[i]);
    }
  }

  lemma {:induction false} TrailsLeaves(points: seq<TrailPoint>)
    ensures Printable(Arr(TrailTrees(points)))
    ensures NumbersValid(Arr(TrailTrees(points))) <==>
      forall i :: 0 <= i < |points| ==> All(TrailShown(points[i]), Spelled)
  {
    hide Spelled, TrailTree, TrailShown, All, Printable, NumbersValid;
    var t := TrailTrees(points);
    ArrayLeaves(t);
    forall i | 0 <= i < |points|
      ensures Printable(t[i]) && (NumbersValid(t[i]) <==> All(TrailShown(points[i]), Spelled))
    {
      TrailLeaves(points[i]);
    }
  }

  lemma WordLeaf(s: string)
    requires PlainString(s)
    ensures Printable(Str(s)) && NumbersValid(Str(s)) && Printable(Null) && NumbersValid(Null)
  {
  }

  lemma TimeLeaf(t: Option<int>, b: Broadcast)
    requires GoodBroadcast(b)
    ensures Printable(Time(t, b)) && NumbersValid(Time(t, b))
  {
  }

  lemma {:induction false} OptionalSatelliteLeaves(s: Option<Satellite>)
    ensures Printable(OptionalSatellite(s))
    ensures NumbersValid(OptionalSatellite(s)) <==> (s.Some? ==> All(SatelliteShown(s.value), Spelled))
  {
    hide SatelliteTree, SatelliteShown, All, Spelled;
    if s.Some? {
      SatelliteLeaves(s.value);
    }
  }

  lemma {:induction false} LeadingPrintable(snap: Snapshot, b: Broadcast)
    requires GoodBroadcast(b)
    ensures MembersPrintable(LeadingMembers(snap, b))
  {
    hide OptionalSatellite, RowTrees, Printable, Time, SatelliteShown, RowShown, Spelled;
    StateNames();
    assert PlainString(Iso(b, b.serverTime));
    WordLeaf("state");
    WordLeaf(Iso(b, b.serverTime));
    TimeLeaf(snap.lastDataTime, b);
    hide PlainString, Iso, GoodBroadcast;
    RowsLeaves(snap.objects);
    OptionalSatelliteLeaves(snap.satellite);
  }

  lemma {:induction false} LeadingValid(snap: Snapshot, b: Broadcast)
    requires GoodBroadcast(b)
    ensures MembersValid(LeadingMembers(snap, b)) <==>
      (snap.satellite.Some? ==> All(SatelliteShown(snap.satellite.value), Spelled))
      && (forall i :: 0 <= i < |snap.objects| ==> All(RowShown(snap.objects[i]), Spelled))
  {
    hide Spelled, OptionalSatellite, RowTrees, SatelliteShown, RowShown, All, PlainString, NumbersValid, Time;
    assert PlainString(Iso(b, b.serverTime));
    StateNames();
    WordLeaf("state");
    WordLeaf(Iso(b, b.serverTime));
    TimeLeaf(snap.lastDataTime, b);
    hide Iso, GoodBroadcast;
    RowsLeaves(snap.objects);
    OptionalSatelliteLeaves(snap.satellite);
    var m := LeadingMembers(snap, b);
    assert m[3].value == OptionalSatellite(snap.satellite) && m[4].value == Arr(RowTrees(snap.objects));
  }

  /** The whole tree can be printed as it is, and is valid when each of its floats is. */
  lemma {:induction false} StateLeaves(snap: Snapshot, b: Broadcast)
    requires GoodBroadcast(b)
    ensures Printable(StateTree(snap, b)) && (NumbersValid(StateTree(snap, b)) <==> EveryShown(snap, Spelled))
  {
    hide Spelled, SatelliteTree, RowTrees, SatelliteShown, RowShown, All, PlainString, LeadingMembers, TrailTrees;
    hide TrailShown;
    hide Printable, NumbersValid, StatsTree, FloatText, ShownRate;
    var lead := LeadingMembers(snap, b);
    var trail := if snap.trailPoints == [] then [] else [Member("trailPoints", Arr(TrailTrees(snap.trailPoints)))];
    var stats := [Member("stats", StatsTree(snap, b, FloatText(ShownRate(snap.rateHz))))];
    StateNames();
    ObjectLeaves(lead + trail + stats);
    MembersJoined(lead + trail, stats);
    MembersJoined(lead, trail);
    LeadingPrintable(snap, b);
    LeadingValid(snap, b);
    StatsLeaves(snap, b);
    assert MembersValid(stats) <==> NumbersValid(stats[0].value);
    TrailsLeaves(snap.trailPoints);
    if snap.trailPoints != [] {
      assert MembersValid(trail) <==> NumbersValid(trail[0].value);
    }
  }

  // ----- the whole message -----

  lemma StateNamesDiffer()
    ensures |"type"| == 4 && |"serverTime"| == 10 && |"lastDataTime"| == 12 && |"satellite"| == 9
    ensures |"objects"| == 7 && |"trailPoints"| == 11 && |"stats"| == 5
  {
  }

  lemma {:induction false} StateFields(snap: Snapshot, b: Broadcast)
    ensures var m := StateMembers(snap, b);
      && Lookup(m, "type") == Some(Str("state"))
      && Lookup(m, "serverTime") == Some(Str(Iso(b, b.serverTime)))
      && Lookup(m, "lastDataTime") == Some(Time(snap.lastDataTime, b))
      && Lookup(m, "satellite") == Some(OptionalSatellite(snap.satellite))
      && Lookup(m, "objects") == Some(Arr(RowTrees(snap.objects)))
      && Lookup(m, "stats") == Some(StatsTree(snap, b, FloatText(ShownRate(snap.rateHz))))
      && Lookup(m, "trailPoints") ==
         (if snap.trailPoints == [] then None else Some(Arr(TrailTrees(snap.trailPoints))))
  {
    hide OptionalSatellite, RowTrees, StatsTree, TrailTrees, Time, FloatText, ShownRate, Iso, Lookup;
    StateNamesDiffer();
    var m := StateMembers(snap, b);
    LookupAt(m, 0);
    LookupAt(m, 1);
    LookupAt(m, 2);
    LookupAt(m, 3);
    LookupAt(m, 4);
    LookupAt(m, |m| - 1);
    if snap.trailPoints == [] {
      LookupMissing(m, "trailPoints");
    } else {
      LookupAt(m, 5);
    }
  }

  lemma {:induction false} StateParses(snap: Snapshot, b: Broadcast)
    requires EveryShown(snap, Spelled) && -0x8000_0000 <= b.clients < 0x8000_0000
    ensures ParseState(StateMembers(snap, b)) ==
      Ok(MessageFor(snap, b, Buffered))
  {
    hide StateMembers, Lookup, ParseRows, RowTrees, TrailTrees, ParseTrailRows, ParseSatellite, SatelliteTree;
    hide FloatText;
    hide ShownRate, ObjectsFor, TrailsFor, SatelliteFor, All, Iso, OptionalSatellite, StatsTree, ParseTrailPoints;
    hide Spelled, Load, StatsFor;
    StateFields(snap, b);
    RowsParse(snap.objects);
    TrailsRead(snap);
    SatelliteReads(snap);
    hide EveryShown;
    StatsLoad(snap, b);
  }

  lemma {:induction false} TrailsRead(snap: Snapshot)
    requires forall i :: 0 <= i < |snap.trailPoints| ==> All(TrailShown(snap.trailPoints[i]), Spelled)
    ensures ParseTrailPoints(if snap.trailPoints == [] then None else Some(Arr(TrailTrees(snap.trailPoints)))) ==
      Ok(TrailsFor(snap.trailPoints, Buffered))
  {
    hide TrailTree, TrailFor, ParseTrailRows, All, TrailShown;
    TrailRowsParse(snap.trailPoints);
  }

  /** The statistics are passed on with the numbers they spell. */
  lemma {:induction false} StatsLoad(snap: Snapshot, b: Broadcast)
    requires Spelled(ShownRate(snap.rateHz)) && -0x8000_0000 <= b.clients < 0x8000_0000
    ensures var t := StatsTree(snap, b, FloatText(ShownRate(snap.rateHz)));
      t.Obj? && Load(t) == StatsFor(snap, b, Buffered)
  {
    hide Spelled, Counter, Small, ShownRate, FloatText, Load, Buffered;
    CounterLoads(snap.stats.received);
    CounterLoads(snap.stats.accepted);
    CounterLoads(snap.stats.malformed + snap.stats.stale);
    RateLoads(ShownRate(snap.rateHz));
    SmallLoads(b.clients);
    CounterLoads(|snap.objects|);
    CounterLoads(b.sequence);
    var m := StatsTree(snap, b, FloatText(ShownRate(snap.rateHz))).members;
    LoadMembers(m);
    assert Load(Obj(m)).members == StatsFor(snap, b, Buffered).members;
  }

  lemma {:induction false} LoadMembers(m: seq<Member>)
    ensures Load(Obj(m)).LoadedObject? && |Load(Obj(m)).members| == |m|
    ensures forall i :: 0 <= i < |m| ==> Load(Obj(m)).members[i] == LoadedMember(m[i].key, Load(m[i].value))
  {
  }

  lemma {:induction false} CounterLoads(n: nat)
    ensures Load(Counter(n)) == LoadedNumber(Whole(n % TWO64))
  {
    hide IsFiniteNumber, ValidNumber, NumberOf, ValueOf, CounterText;
    CounterIsFinite(n);
  }

  lemma {:induction false} SmallLoads(n: int)
    requires -0x8000_0000 <= n < 0x8000_0000
    ensures Load(Small(n)) == LoadedNumber(SmallValue(n))
  {
    hide IsFiniteNumber, ValidNumber, NumberOf, ValueOf, IntText;
    IntegerIsFinite(n);
  }

  lemma RateLoads(s: Shown)
    requires Spelled(s)
    ensures Load(Num(FloatText(s))) == LoadedNumber(Buffered(s))
  {
  }

  lemma {:induction false} SatelliteReads(snap: Snapshot)
    requires snap.satellite.Some? ==> All(SatelliteShown(snap.satellite.value), Spelled)
    ensures ParseSatellite(Some(OptionalSatellite(snap.satellite))) ==
      Ok(if snap.satellite.Some? then Some(SatelliteFor(snap.satellite.value, Buffered)) else None)
  {
    hide SatelliteTree, All, SatelliteFor;
    if snap.satellite.Some? {
      hide ParseSatellite;
      SatelliteParses(snap.satellite.value);
    }
  }

  /** What the viewer makes of a broadcast text: the snapshot with every number as its buffer spells it, or,
      exactly when some buffer holds no number, nothing at all. */
  lemma {:induction false} TextParses(snap: Snapshot, b: Broadcast)
    requires GoodBroadcast(b)
    ensures ParseStateMessage(Print(StateTree(snap, b))) ==
      if EveryShown(snap, Spelled) then Ok(MessageFor(snap, b, Buffered))
      else Err(NotJson)
  {
    hide Print, ParseText, StateMembers, MessageFor, ParseState, EveryShown, Lookup, Printable, NumbersValid;
    StateLeaves(snap, b);
    TextReadsBack(StateTree(snap, b));
    StateFields(snap, b);
    assert "state" != "hello" by { assert "state"[0] != "hello"[0]; }
    if EveryShown(snap, Spelled) {
      StateParses(snap, b);
    }
  }

  // ----- when nothing is lost -----

  lemma ThreeReadings(s: seq<Shown>, read: Reading)
    requires |s| == 3
    ensures Readings(s, read) == [read(s[0]), read(s[1]), read(s[2])]
  {
  }

  lemma {:induction false} PositionSurvives(p: Vec64)
    ensures All(PositionShown(p), Survives) <==>
      All(PositionShown(p), Spelled) && ClientPosition(p, Buffered) == ClientPosition(p, Exact)
  {
    hide Survives, Spelled, Buffered, Exact;
    var s := PositionShown(p);
    AllSurviveIffFaithful(s);
    ThreeReadings(s, Buffered);
    ThreeReadings(s, Exact);
  }

  lemma {:induction false} VelocitySurvives(v: Vec32)
    ensures All(VelocityShown(v), Survives) <==>
      All(VelocityShown(v), Spelled) && ClientVelocity(v, Buffered) == ClientVelocity(v, Exact)
  {
    hide Survives, Spelled, Buffered, Exact;
    var s := VelocityShown(v);
    AllSurviveIffFaithful(s);
    ThreeReadings(s, Buffered);
    ThreeReadings(s, Exact);
  }

  lemma {:induction false} RowSurvives(o: ObjectRecord)
    ensures All(RowShown(o), Survives) <==> All(RowShown(o), Spelled) && ObjectFor(o, Buffered) == ObjectFor(o, Exact)
  {
    hide Survives, Spelled, Buffered, Exact, All, RowShown, ClientPosition, ClientVelocity, PositionShown;
    hide VelocityShown;
    AllFloats(o, Survives);
    AllFloats(o, Spelled);
    PositionSurvives(o.pos);
    VelocitySurvives(o.vel);
    SurvivesIffFaithful(Shown32(o.intensity, 1));
  }

  lemma {:induction false} TrailSurvives(p: TrailPoint)
    ensures All(TrailShown(p), Survives) <==> All(TrailShown(p), Spelled) && TrailFor(p, Buffered) == TrailFor(p, Exact)
  {
    hide Survives, Spelled, Buffered, Exact, All, ClientPosition, PositionShown;
    AllSplits([Shown64(p.t, 3)], PositionShown(p.pos), Survives);
    AllSplits([Shown64(p.t, 3)], PositionShown(p.pos), Spelled);
    OnlyOne(Shown64(p.t, 3), Survives);
    OnlyOne(Shown64(p.t, 3), Spelled);
    PositionSurvives(p.pos);
    SurvivesIffFaithful(Shown64(p.t, 3));
  }

  lemma {:induction false} SatelliteSurvives(s: Satellite)
    ensures All(SatelliteShown(s), Survives) <==>
      All(SatelliteShown(s), Spelled) && SatelliteFor(s, Buffered) == SatelliteFor(s, Exact)
  {
    hide Survives, Spelled, Buffered, Exact, All, ClientPosition, ClientVelocity, PositionShown, VelocityShown;
    AllSplits(PositionShown(s.pos), VelocityShown(s.vel), Survives);
    AllSplits(PositionShown(s.pos), VelocityShown(s.vel), Spelled);
    PositionSurvives(s.pos);
    VelocitySurvives(s.vel);
  }

  lemma {:induction false} RateSurvives(snap: Snapshot, b: Broadcast)
    ensures var r := ShownRate(snap.rateHz);
      Survives(r) <==> Spelled(r) && StatsFor(snap, b, Buffered) == StatsFor(snap, b, Exact)
  {
    hide Spelled, Buffered, Exact, Survives;
    var r := ShownRate(snap.rateHz);
    SurvivesIffFaithful(r);
    hide ShownRate;
    var m, n := StatsFor(snap, b, Buffered).members, StatsFor(snap, b, Exact).members;
    assert m[3].value == LoadedNumber(Buffered(r)) && n[3].value == LoadedNumber(Exact(r));
  }

  lemma {:induction false} ObjectsSurvive(objects: seq<ObjectRecord>)
    ensures (forall i :: 0 <= i < |objects| ==> All(RowShown(objects[i]), Survives)) <==>
      (forall i :: 0 <= i < |objects| ==> All(RowShown(objects[i]), Spelled))
      && ObjectsFor(objects, Buffered) == ObjectsFor(objects, Exact)
  {
    hide Survives, Spelled, Buffered, Exact, All, RowShown, ObjectFor;
    var s, t := ObjectsFor(objects, Buffered), ObjectsFor(objects, Exact);
    forall i | 0 <= i < |objects|
      ensures All(RowShown(objects[i]), Survives) <==> All(RowShown(objects[i]), Spelled) && s[i] == t[i]
    {
      RowSurvives(objects[i]);
    }
  }

  lemma {:induction false} TrailsSurvive(points: seq<TrailPoint>)
    ensures (forall i :: 0 <= i < |points| ==> All(TrailShown(points[i]), Survives)) <==>
      (forall i :: 0 <= i < |points| ==> All(TrailShown(points[i]), Spelled))
      && TrailsFor(points, Buffered) == TrailsFor(points, Exact)
  {
    hide Survives, Spelled, Buffered, Exact, All, TrailShown, TrailFor;
    var s, t := TrailsFor(points, Buffered), TrailsFor(points, Exact);
    forall i | 0 <= i < |points|
      ensures All(TrailShown(points[i]), Survives) <==> All(TrailShown(points[i]), Spelled) && s[i] == t[i]
    {
      TrailSurvives(points[i]);
    }
  }

  lemma {:induction false} EverySurvives(snap: Snapshot, b: Broadcast)
    ensures EveryShown(snap, Survives) <==>
      EveryShown(snap, Spelled) && MessageFor(snap, b, Buffered) == Faithful(snap, b)
  {
    hide Survives, Spelled, Buffered, Exact, All, ObjectsFor, TrailsFor, SatelliteFor, StatsFor, ShownRate, Iso;
    hide RowShown, TrailShown, SatelliteShown, FloatText, ShownText;
    ObjectsSurvive(snap.objects);
    TrailsSurvive(snap.trailPoints);
    RateSurvives(snap, b);
    if snap.satellite.Some? {
      SatelliteSurvives(snap.satellite.value);
    }
  }

  /** The viewer recovers the snapshot, to the printed precision, exactly when the value of every number survives
      its buffer. */
  lemma {:induction false} RecoversIffSurvives(snap: Snapshot, b: Broadcast)
    requires GoodBroadcast(b)
    ensures ParseStateMessage(Print(StateTree(snap, b))) == Ok(Faithful(snap, b)) <==> EveryShown(snap, Survives)
  {
    hide ParseStateMessage, Print, StateTree, MessageFor, Faithful, EveryShown, Survives, Spelled;
    TextParses(snap, b);
    EverySurvives(snap, b);
  }
}
