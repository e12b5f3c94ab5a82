/** Which unquoted tokens the configuration parser accepts. */
module TomlScalars {
  import opened Records
  import opened Decimal
  import opened Toml

  function Unsigned(t: string): string {
    if t != [] && (t[0] == '+' || t[0] == '-') then t[1..] else t
  }

  /** Only digits from `i` up to `j`. */
  predicate DigitsBetween(t: string, i: nat, j: nat)
    requires j <= |t|
  {
    forall k :: i <= k < j ==> IsDigit(t[k])
  }

  /** Digits, a point, and digits. */
  predicate PointAt(u: string, p: nat) {
    0 < p < |u| - 1 && u[p] == '.' && DigitsBetween(u, 0, p) && DigitsBetween(u, p + 1, |u|)
  }

  predicate IsFloat(t: string) {
    exists p: nat :: p < |t| && PointAt(Unsigned(t), p)
  }

  // ----- the scan from `i` on: only digits, or one point with digits around it -----

  predicate WholeFrom(t: string, i: nat) {
    DigitsBetween(t, i, |t|)
  }

  predicate PointFrom(t: string, i: nat, p: nat) {
    && i <= p < |t| - 1 && 0 < p && t[p] == '.' && IsDigit(t[p - 1])
    && DigitsBetween(t, i, p) && DigitsBetween(t, p + 1, |t|)
  }

  predicate PointLater(t: string, i: nat) {
    exists p: nat :: p < |t| && PointFrom(t, i, p)
  }

  lemma {:induction false} ScanAfterPoint(t: string, i: nat, digit: bool)
    requires 0 < i <= |t|
    ensures ScanNumber(t, i, true, digit).Ok? <==> WholeFrom(t, i)
    ensures WholeFrom(t, i) ==> ScanNumber(t, i, true, digit) == Ok((true, digit || i < |t|))
    decreases |t| - i
  {
    if i < |t| {
      ScanAfterPoint(t, i + 1, true);
    }
  }

  lemma {:induction false} NextFrom(t: string, i: nat)
    requires 0 < i < |t|
    ensures PointLater(t, i) <==> if IsDigit(t[i]) then PointLater(t, i + 1) else PointFrom(t, i, i)
  {
    if p: nat :| PointFrom(t, i, p) {
      assert IsDigit(t[i]) ==> PointFrom(t, i + 1, p);
      assert !IsDigit(t[i]) ==> p == i;
    }
    var j := i + 1;
    if p: nat :| IsDigit(t[i]) && PointFrom(t, j, p) {
      assert PointFrom(t, i, p);
    }
  }

  lemma {:induction false} ScanBeforePoint(t: string, i: nat, digit: bool)
    requires 0 < i <= |t|
    ensures ScanNumber(t, i, false, digit).Ok? <==> WholeFrom(t, i) || PointLater(t, i)
    ensures WholeFrom(t, i) ==> ScanNumber(t, i, false, digit) == Ok((false, digit || i < |t|))
    ensures PointLater(t, i) ==> ScanNumber(t, i, false, digit) == Ok((true, true))
    decreases |t| - i
  {
    if i < |t| {
      NextFrom(t, i);
      if IsDigit(t[i]) {
        ScanBeforePoint(t, i + 1, true);
      } else if t[i] == '.' && i + 1 < |t| {
        ScanAfterPoint(t, i + 1, digit);
        assert PointFrom(t, i, i) <==> IsDigit(t[i - 1]) && WholeFrom(t, i + 1);
      }
    }
  }

  lemma {:induction false} ScanStart(t: string)
    requires t != []
    ensures var signed := t[0] == '+' || t[0] == '-';
      ScanNumber(t, 0, false, false) ==
        if signed then ScanNumber(t, 1, false, false)
        else if IsDigit(t[0]) then ScanNumber(t, 1, false, true)
        else ScanNumber(t, 0, false, false)
    ensures !(t[0] == '+' || t[0] == '-' || IsDigit(t[0])) ==> ScanNumber(t, 0, false, false).Err?
  {
  }

  /** A point after the first character is a point in the unsigned token. */
  lemma {:induction false} FloatIffPoint(t: string)
    requires t != [] && (t[0] == '+' || t[0] == '-' || IsDigit(t[0]))
    ensures IsFloat(t) <==> PointLater(t, 1)
  {
    var u := Unsigned(t);
    var k := |t| - |u|;
    assert forall i :: 0 <= i < |u| ==> u[i] == t[i + k];
    if p: nat :| p < |t| && PointAt(u, p) {
      ShiftPoint(t, u, k, p);
      assert PointFrom(t, 1, p + k);
    }
    if p: nat :| PointFrom(t, 1, p) {
      UnshiftPoint(t, u, k, p);
    }
  }

  lemma {:induction false} ShiftPoint(t: string, u: string, k: nat, p: nat)
    requires k <= 1 && |t| == |u| + k && (forall i :: 0 <= i < |u| ==> u[i] == t[i + k]) && PointAt(u, p)
    ensures PointFrom(t, 1, p + k)
  {
    forall j | 1 <= j < p + k
      ensures IsDigit(t[j])
    {
      assert t[j] == u[j - k];
    }
    forall j | p + k + 1 <= j < |t|
      ensures IsDigit(t[j])
    {
      assert t[j] == u[j - k];
    }
    assert t[p + k - 1] == u[p - 1];
  }

  lemma {:induction false} UnshiftPoint(t: string, u: string, k: nat, p: nat)
    requires k <= 1 && |t| == |u| + k && (forall i :: 0 <= i < |u| ==> u[i] == t[i + k]) && PointFrom(t, 1, p)
    requires if k == 1 then !IsDigit(t[0]) else IsDigit(t[0])
    ensures p >= k && PointAt(u, p - k)
  {
  }

  lemma {:induction false} IntegerIffWhole(t: string)
    requires t != []
    ensures AllDigits(Unsigned(t)) && Unsigned(t) != [] <==>
      if t[0] == '+' || t[0] == '-' then |t| > 1 && WholeFrom(t, 1) else IsDigit(t[0]) && WholeFrom(t, 1)
  {
    assert t == [t[0]] + t[1..];
  }

  /** What an accepted token stands for. */
  function Meant(t: string): Value {
    if t == "true" || t == "false" then Boolean(t == "true")
    else if IntegerOf(t).Some? then Integer(IntegerOf(t).value)
    else Float(t)
  }

  /** The accepted tokens are exactly the booleans, the signed digits within 64 bits, and the signed digits with a
      point among them whose conversion stays in range; and each is taken for what it is. */
  lemma {:induction false} ScalarAcceptsExactly(t: string, inRange: string -> bool)
    ensures Scalar(t, inRange).Ok? <==>
      t == "true" || t == "false" || IntegerOf(t).Some? || (IsFloat(t) && inRange(t))
    ensures Scalar(t, inRange).Ok? ==> Scalar(t, inRange).value == Meant(t)
  {
    hide ScanNumber, NatOf, AllDigits, PointLater, WholeFrom, PointAt, DigitsBetween;
    if t == [] {
      assert !IsFloat(t) && IntegerOf(t).None?;
    } else {
      IntegerIffWhole(t);
      ScanStart(t);
      ScanBeforePoint(t, 1, false);
      ScanBeforePoint(t, 1, true);
      if t[0] == '+' || t[0] == '-' || IsDigit(t[0]) {
        FloatIffPoint(t);
        WholeOrPoint(t);
      } else {
        NoNumberStart(t);
        WordsStart();
      }
    }
  }

  /** A token of digits has no point. */
  lemma {:induction false} WholeOrPoint(t: string)
    ensures WholeFrom(t, 1) ==> !PointLater(t, 1)
  {
  }

  lemma {:induction false} NoNumberStart(t: string)
    requires t != [] && !(t[0] == '+' || t[0] == '-' || IsDigit(t[0]))
    ensures !IsFloat(t) && IntegerOf(t).None?
  {
  }

  lemma {:induction false} WordsStart()
    ensures "true"[0] == 't' && "false"[0] == 'f'
  {
  }

  /** A sign or none, and digits, whose number is within 64 bits. */
  ghost predicate Spells(t: string, n: int) {
    -0x8000_0000_0000_0000 <= n < 0x8000_0000_0000_0000
    && exists d: string :: AllDigits(d) && d != []
         && (((t == d || t == "+" + d) && n == NatOf(d)) || (t == "-" + d && n == -(NatOf(d) as int)))
  }

  /** The integer of a token is the one its digits spell. */
  lemma {:induction false} IntegerIff(t: string, n: int)
    ensures IntegerOf(t) == Some(n) <==> Spells(t, n)
  {
    hide NatOf;
    if IntegerOf(t) == Some(n) {
      var d := if t[0] == '+' || t[0] == '-' then t[1..] else t;
      assert t == d || t == "+" + d || t == "-" + d;
    }
    if Spells(t, n) {
      var d: string :| AllDigits(d) && d != []
        && (((t == d || t == "+" + d) && n == NatOf(d)) || (t == "-" + d && n == -(NatOf(d) as int)));
      assert IsDigit(d[0]);
      assert t != d ==> t[1..] == d;
    }
  }
}
