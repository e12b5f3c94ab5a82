/** "%.<places>f" into a buffer, from bit patterns, and when the text reads back as the number it shows. */
module Printf {
  import opened Floats
  import opened Decimal
  import opened Json

  /** Bytes in the buffer a float is formatted into; the last holds the terminator. */
  const FLOAT_BUFFER: nat := 48
  const INTEGER_BUFFER: nat := 24

  /** What a conversion shows: a decimal of the given precision, or no number. */
  datatype Shown =
    | Fixed(negative: bool, units: nat, places: nat)
    | Infinite(negative: bool)
    | NotANumber(negative: bool)

  function RoundHalfEven(n: nat, d: nat): nat
    requires d > 0
  {
    var q, r := n / d, n % d;
    if 2 * r < d || (2 * r == d && q % 2 == 0) then q else q + 1
  }

  /** The nearest decimal of `places` digits after the point; ties to even. */
  function Shown64(b: F64, places: nat): Shown {
    if NaN64(b) then NotANumber(b >= SIGN64)
    else if !Finite64(b) then Infinite(b >= SIGN64)
    else Fixed(b >= SIGN64, RoundHalfEven(Units(Magnitude(b)) * Pow10(places), Pow2(1074)), places)
  }

  const SIGN32: int := 0x8000_0000
  const FRACTION32: int := 0x80_0000

  function Magnitude32(b: F32): nat {
    if b < SIGN32 then b else b - SIGN32
  }

  /** In units of 2^-149, the smallest subnormal. */
  function Units32(mag: nat): nat {
    var e, f := mag / FRACTION32, mag % FRACTION32;
    if e == 0 then f else (FRACTION32 + f) * Pow2(e - 1)
  }

  function Shown32(b: F32, places: nat): Shown {
    if Magnitude32(b) > 255 * FRACTION32 then NotANumber(b >= SIGN32)
    else if Magnitude32(b) == 255 * FRACTION32 then Infinite(b >= SIGN32)
    else Fixed(b >= SIGN32, RoundHalfEven(Units32(Magnitude32(b)) * Pow10(places), Pow2(149)), places)
  }

  // ----- text -----

  function Sign(negative: bool): string {
    if negative then "-" else ""
  }

  /** At least one digit stands before the point. */
  function FixedDigits(s: Shown): (d: string)
    requires s.Fixed?
    ensures AllDigits(d) && |d| > s.places
  {
    PaddedDigits(s.units, s.places + 1)
  }

  function WholePart(s: Shown): (d: string)
    requires s.Fixed?
    ensures d != [] && AllDigits(d)
  {
    FixedDigits(s)[..|FixedDigits(s)| - s.places]
  }

  function FractionPart(s: Shown): (d: string)
    requires s.Fixed?
    ensures |d| == s.places && AllDigits(d)
  {
    FixedDigits(s)[|FixedDigits(s)| - s.places..]
  }

  function ShownText(s: Shown): string {
    match s
    case Fixed(negative, _, places) =>
      Sign(negative) + WholePart(s) + (if places == 0 then "" else "." + FractionPart(s))
    case Infinite(negative) => Sign(negative) + "inf"
    case NotANumber(negative) => Sign(negative) + "nan"
  }

  /** What snprintf leaves in a buffer. */
  function Cut(text: string, buffer: nat): string
    requires buffer > 0
  {
    if |text| < buffer then text else text[..buffer - 1]
  }

  function FloatText(s: Shown): string {
    Cut(ShownText(s), FLOAT_BUFFER)
  }

  /** A number, and its text fits the buffer. */
  predicate Fits(s: Shown) {
    s.Fixed? && |ShownText(s)| < FLOAT_BUFFER
  }

  function NumberShown(s: Shown): Number
    requires s.Fixed?
  {
    Number(s.negative, s.units, s.places, 0)
  }

  // ----- the text as a JSON number -----

  lemma {:induction false} RunOfDigits(d: string, rest: string)
    requires AllDigits(d) && (rest == [] || !IsDigit(rest[0]))
    ensures DigitRun(d + rest) == |d|
  {
    if d == [] {
      assert d + rest == rest;
    } else {
      assert (d + rest)[1..] == d[1..] + rest;
      RunOfDigits(d[1..], rest);
    }
  }

  /** [ minus ] digits, a point and more digits. */
  lemma {:induction false} PointedNumber(negative: bool, whole: string, fraction: string)
    requires AllDigits(whole) && AllDigits(fraction) && whole != [] && (|whole| > 1 ==> whole[0] != '0')
    ensures var t := Sign(negative) + whole + ("." + fraction);
      && (ValidNumber(t) <==> fraction != [])
      && (ValidNumber(t) ==> NumberOf(t) == Number(negative, NatOf(whole + fraction), |fraction|, 0))
  {
    hide NatOf, FractionOf, AfterFraction, DigitRun, Unsigned;
    var u := whole + ("." + fraction);
    var t := Sign(negative) + whole + ("." + fraction);
    assert t == Sign(negative) + u;
    SignComesOff(negative, u);
    PointedParts(whole, fraction);
    assert t[0] == if negative then '-' else whole[0];
  }

  lemma {:induction false} PointedParts(whole: string, fraction: string)
    requires AllDigits(whole) && AllDigits(fraction)
    ensures var u := whole + ("." + fraction);
      && DigitRun(u) == |whole| && u[..|whole|] == whole && u[|whole|] == '.'
      && FractionOf(u[|whole|..]) == fraction && AfterFraction(u[|whole|..]) == []
  {
    hide DigitRun;
    var f := "." + fraction;
    var u := whole + f;
    RunOfDigits(whole, f);
    assert u[|whole|..] == f && f[1..] == fraction;
    RunOfDigits(fraction, []);
    assert fraction + [] == fraction && fraction[..|fraction|] == fraction;
  }

  /** [ minus ] digits. */
  lemma {:induction false} WholeNumber(negative: bool, whole: string)
    requires AllDigits(whole) && whole != [] && (|whole| > 1 ==> whole[0] != '0')
    ensures var t := Sign(negative) + whole;
      ValidNumber(t) && NumberOf(t) == Number(negative, NatOf(whole), 0, 0)
  {
    hide NatOf;
    var t := Sign(negative) + whole;
    var u := Unsigned(t);
    SignComesOff(negative, whole);
    RunOfDigits(whole, []);
    assert whole + [] == whole;
    assert u[|whole|..] == [] && u[..|whole|] == whole;
    hide DigitRun, Unsigned;
    assert t[0] == if negative then '-' else whole[0];
  }

  lemma {:induction false} SignComesOff(negative: bool, u: string)
    requires u != [] && IsDigit(u[0])
    ensures Unsigned(Sign(negative) + u) == u
  {
    assert negative ==> (Sign(negative) + u)[1..] == u;
    assert !negative ==> Sign(negative) + u == u;
  }

  lemma {:induction false} WholePartLeads(s: Shown)
    requires s.Fixed?
    ensures |WholePart(s)| > 1 ==> WholePart(s)[0] != '0'
    ensures NatOf(WholePart(s) + FractionPart(s)) == s.units
  {
    hide NatOf, Digits, Zeros;
    NatOfDigits(s.units);
    NatOfPadded(s.units, s.places + 1);
    assert WholePart(s) + FractionPart(s) == FixedDigits(s);
    if s.units == 0 {
      assert Digits(0) == "0" by { DigitsOfZero(); }
    }
  }

  lemma DigitsOfZero()
    ensures Digits(0) == "0"
  {
  }

  /** With digits after the point, the buffer spells the decimal shown, digit for digit, exactly when it holds all
      of the text. */
  lemma {:induction false} ReadsBackIffFits(s: Shown)
    requires s.Fixed? ==> s.places > 0
    ensures Fits(s) <==> (ValidNumber(FloatText(s)) && s.Fixed? && NumberOf(FloatText(s)) == NumberShown(s))
  {
    hide ValidNumber, NumberOf, NatOf, WholePart, FractionPart;
    if s.Fixed? {
      var w, f := WholePart(s), FractionPart(s);
      WholePartLeads(s);
      if Fits(s) {
        PointedNumber(s.negative, w, f);
      } else {
        CutNumber(s);
      }
    }
  }

  /** What is left of a text that does not fit. */
  lemma {:induction false} CutNumber(s: Shown)
    requires s.Fixed? && s.places > 0 && !Fits(s)
    ensures var t, whole := FloatText(s), |Sign(s.negative)| + |WholePart(s)|;
      && (ValidNumber(t) <==> whole != FLOAT_BUFFER - 2)
      && (ValidNumber(t) ==> NumberOf(t).places < s.places)
  {
    hide ValidNumber, NumberOf, NatOf, WholePart, FractionPart;
    WholePartLeads(s);
    var t, w, f, g := FloatText(s), WholePart(s), FractionPart(s), Sign(s.negative);
    var text := ShownText(s);
    assert text == g + w + ("." + f);
    if |g| + |w| >= FLOAT_BUFFER - 1 {
      var k := FLOAT_BUFFER - 1 - |g|;
      assert t == g + w[..k];
      WholeNumber(s.negative, w[..k]);
    } else {
      var k := FLOAT_BUFFER - 2 - |g| - |w|;
      assert t == g + w + ("." + f[..k]);
      PointedNumber(s.negative, w, f[..k]);
    }
  }

  // ----- the text as a value -----

  predicate AllZero(d: string) {
    forall i :: 0 <= i < |d| ==> d[i] == '0'
  }

  /** Sign and digits before the point. */
  function Lead(s: Shown): nat
    requires s.Fixed?
  {
    |Sign(s.negative)| + |WholePart(s)|
  }

  /** How many digits after the point the buffer has room for. */
  function Kept(s: Shown): (k: nat)
    requires s.Fixed?
    ensures k <= s.places
  {
    if Lead(s) + 1 + s.places < FLOAT_BUFFER then s.places
    else if Lead(s) < FLOAT_BUFFER - 2 then FLOAT_BUFFER - 2 - Lead(s)
    else 0
  }

  /** The buffer holds a digit after the point or ends just before it, and what it has no room for is zeros. */
  predicate Survives(s: Shown) {
    s.Fixed? && (Lead(s) < FLOAT_BUFFER - 2 || Lead(s) == FLOAT_BUFFER - 1) && AllZero(FractionPart(s)[Kept(s)..])
  }

  lemma {:induction false} NatOfJoin(a: string, b: string)
    requires AllDigits(a) && AllDigits(b)
    ensures NatOf(a + b) == NatOf(a) * Pow10(|b|) + NatOf(b)
    decreases |b|
  {
    if b == [] {
      assert a + b == a && Pow10(0) == 1;
    } else {
      var n := |b| - 1;
      NatOfJoin(a, b[..n]);
      assert (a + b)[..|a| + n] == a + b[..n];
      OneMoreTen(NatOf(a), n);
    }
  }

  lemma {:induction false} ZeroIffZeros(d: string)
    requires AllDigits(d)
    ensures NatOf(d) == 0 <==> AllZero(d)
  {
    if d != [] {
      ZeroIffZeros(d[..|d| - 1]);
    }
  }

  /** Dropping the digits `c` after `k` digits of fraction keeps the value exactly when they are zeros. */
  lemma {:induction false} DroppedIffZeros(negative: bool, d: string, c: string, k: nat)
    requires AllDigits(d) && AllDigits(c)
    ensures Trim(negative, NatOf(d), k) == Trim(negative, NatOf(d + c), k + |c|) <==> AllZero(c)
  {
    hide NatOf, AllZero, Trim;
    NatOfJoin(d, c);
    ZeroIffZeros(c);
    SameValueIff(negative, NatOf(d), k, NatOf(d + c), k + |c|);
    Pow10Add(|c|, k);
    assert k + |c| == |c| + k;
    hide Pow10;
    DroppedScaled(NatOf(d), NatOf(c), Pow10(|c|), Pow10(k));
  }

  lemma {:induction false} DroppedScaled(a: nat, b: nat, p: nat, q: nat)
    requires q > 0
    ensures a * (p * q) == (a * p + b) * q <==> b == 0
  {
    Regroup(a, p, q);
    assert (a * p + b) * q == (a * p) * q + b * q;
    if b > 0 {
      Strictly(0, b, q);
    }
  }

  /** Losing digits before the point loses the value. */
  lemma {:induction false} LostDigitsDiffer(negative: bool, d: string, c: string, f: string)
    requires AllDigits(d) && AllDigits(c) && AllDigits(f) && NatOf(d) > 0 && c != []
    ensures Trim(negative, NatOf(d), 0) != Trim(negative, NatOf((d + c) + f), |f|)
  {
    hide NatOf, Trim;
    NatOfJoin(d + c, f);
    NatOfJoin(d, c);
    SameValueIff(negative, NatOf(d), 0, NatOf((d + c) + f), |f|);
    assert Pow10(0) == 1;
    assert Pow10(|c|) == 10 * Pow10(|c| - 1);
    var q, w, p := Pow10(|f|), NatOf(d + c), Pow10(|c| - 1);
    hide Pow10;
    MoreThanTenfold(NatOf(d), p);
    Strictly(NatOf(d), w, q);
  }

  lemma {:induction false} MoreThanTenfold(a: nat, p: nat)
    requires a > 0 && p > 0
    ensures a * (10 * p) > a
  {
    assert a * (10 * p) == 10 * (a * p);
    Floats.ScaleUp(a, p);
  }

  lemma {:induction false} LeadingDigitCounts(d: string)
    requires AllDigits(d) && d != [] && d[0] != '0'
    ensures NatOf(d) > 0
  {
    ZeroIffZeros(d);
  }

  /** The value a conversion shows. */
  function ValueShown(s: Shown): Value
    requires s.Fixed?
  {
    ValueOf(NumberShown(s))
  }

  /** With digits after the point, the buffer holds a number of the value shown exactly when the sign and the
      digits before the point are at most 45 or exactly 47, and the digits that find no room are zeros. */
  lemma {:induction false} ValueSurvivesIff(s: Shown)
    requires s.Fixed? ==> s.places > 0
    ensures Survives(s) <==>
      (ValidNumber(FloatText(s)) && s.Fixed? && ValueOf(NumberOf(FloatText(s))) == ValueShown(s))
  {
    hide ValidNumber, NumberOf, NatOf, WholePart, FractionPart, AllZero, Trim, Pow10;
    if s.Fixed? {
      WholePartLeads(s);
      var t, w, f, g := FloatText(s), WholePart(s), FractionPart(s), Sign(s.negative);
      assert ShownText(s) == g + w + ("." + f);
      if Lead(s) < FLOAT_BUFFER - 1 {
        var k := Kept(s);
        assert t == g + w + ("." + f[..k]);
        PointedNumber(s.negative, w, f[..k]);
        assert w + f == (w + f[..k]) + f[k..];
        DroppedIffZeros(s.negative, w + f[..k], f[k..], k);
        ValueOfPlain(s.negative, NatOf(w + f[..k]), k);
        ValueOfPlain(s.negative, s.units, s.places);
        NothingIsZero();
      } else {
        CutBeforePoint(s);
      }
    }
  }

  lemma {:induction false} NothingIsZero()
    ensures AllZero("")
  {
  }

  lemma {:induction false} ValueOfPlain(negative: bool, units: nat, places: nat)
    ensures ValueOf(Number(negative, units, places, 0)) == Trim(negative, units, places)
  {
    assert Pow10(0) == 1;
  }

  lemma {:induction false} CutBeforePoint(s: Shown)
    requires s.Fixed? && s.places > 0 && Lead(s) >= FLOAT_BUFFER - 1
    ensures ValidNumber(FloatText(s))
    ensures ValueOf(NumberOf(FloatText(s))) == ValueShown(s) <==> Survives(s)
  {
    hide ValidNumber, NumberOf, NatOf, WholePart, FractionPart, AllZero, Trim, Pow10;
    WholePartLeads(s);
    var t, w, f, g := FloatText(s), WholePart(s), FractionPart(s), Sign(s.negative);
    assert ShownText(s) == g + w + ("." + f);
    var m := FLOAT_BUFFER - 1 - |g|;
    var d, c := w[..m], w[m..];
    assert t == g + d && w == d + c;
    WholeNumber(s.negative, d);
    ValueOfPlain(s.negative, NatOf(d), 0);
    ValueOfPlain(s.negative, s.units, s.places);
    if c == [] {
      assert w == d && f[0..] == f;
      DroppedIffZeros(s.negative, w, f, 0);
    } else {
      LeadingDigitCounts(d);
      LostDigitsDiffer(s.negative, d, c, f);
    }
  }

  lemma {:induction false} FloatTextIsNumberLike(s: Shown)
    ensures NumberLike(FloatText(s))
  {
    hide WholePart, FractionPart;
    match s
    case Fixed(negative, _, _) =>
      var w := WholePart(s);
      var text := ShownText(s);
      assert text[0] == if negative then '-' else w[0];
      var tail := if s.places == 0 then "" else "." + FractionPart(s);
      assert forall i :: 0 <= i < |tail| ==> IsNumberChar(tail[i]);
      assert text == Sign(negative) + w + tail;
      assert forall i :: 0 <= i < |text| ==> IsNumberChar(text[i]);
    case Infinite(negative) =>
      assert negative ==> ShownText(s) == "-inf";
      assert !negative ==> ShownText(s) == "inf";
    case NotANumber(negative) =>
      assert negative ==> ShownText(s) == "-nan";
      assert !negative ==> ShownText(s) == "nan";
  }

  // ----- integers -----

  lemma {:induction false} IntegerTokens(n: int)
    ensures var t := IntegerText(n);
      && NumberLike(t) && ValidNumber(t)
      && NumberOf(t) == Number(n < 0, if n < 0 then -n else n, 0, 0)
  {
    hide ValidNumber, NumberOf, NatOf, Digits;
    var m := if n < 0 then -n else n;
    var d := Digits(m);
    NatOfDigits(m);
    if m == 0 { DigitsOfZero(); }
    WholeNumber(n < 0, d);
    assert IntegerText(n) == Sign(n < 0) + d;
    assert d[0] == '0' ==> |d| == 1 || m > 0;
    assert forall i :: 0 <= i < |d| ==> IsNumberChar(d[i]);
  }

  lemma {:induction false} Pow10Of20()
    ensures Pow10(20) == 100_000_000_000_000_000_000
  {
    assert Pow10(5) == 100_000;
    Pow10Add(5, 5);
    Pow10Add(10, 10);
  }

  /** A 64-bit integer never fills its buffer. */
  lemma {:induction false} IntegerFits(n: int)
    requires -0x8000_0000_0000_0000 <= n <= 0xFFFF_FFFF_FFFF_FFFF
    ensures Cut(IntegerText(n), INTEGER_BUFFER) == IntegerText(n)
  {
    hide Digits;
    Pow10Of20();
    DigitCount(if n < 0 then -n else n, 20);
  }

  // ----- which floats fit -----

  lemma FitsIffDigits(s: Shown)
    requires s.Fixed? && s.places > 0
    ensures Fits(s) <==> |FixedDigits(s)| + |Sign(s.negative)| <= FLOAT_BUFFER - 2
  {
  }

  lemma {:induction false} FewUnitsFit(s: Shown)
    requires s.Fixed? && 0 < s.places < 40 && s.units < Pow10(45)
    ensures Fits(s)
  {
    hide Digits;
    DigitCount(s.units, 45);
    FitsIffDigits(s);
  }

  lemma {:induction false} RoundedBelow(n: nat, d: nat, m: nat)
    requires d > 0 && n <= m * d
    ensures RoundHalfEven(n, d) <= m
  {
    var q, r := n / d, n % d;
    assert n == q * d + r;
    if q > m {
      MulMonotone(m, q, d);
      assert false;
    }
    if q == m {
      assert r == 0;
    }
  }
}
