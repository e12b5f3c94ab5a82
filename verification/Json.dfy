/** JSON texts: a reader for the grammar of RFC 8259 (sections 2 to 7), and the compact printer it undoes. */
module Json {
  import opened Records
  import opened Decimal

  /** A number keeps its spelling until someone asks for its value. */
  datatype Json =
    | Null
    | Bool(b: bool)
    | Num(token: string)
    | Str(s: string)
    | Arr(items: seq<Json>)
    | Obj(members: seq<Member>)

  datatype Member = Member(key: string, value: Json)

  // ----- numbers (section 6) -----

  predicate IsNumberChar(c: char) {
    IsDigit(c) || c == '-' || c == '+' || c == '.' || c == 'e' || c == 'E'
  }

  function NumberRun(s: string): (n: nat)
    ensures n <= |s|
  {
    if s != [] && IsNumberChar(s[0]) then 1 + NumberRun(s[1..]) else 0
  }

  /** How many digits lead the text. */
  function DigitRun(s: string): (n: nat)
    ensures n <= |s| && AllDigits(s[..n])
    ensures n < |s| ==> !IsDigit(s[n])
  {
    if s != [] && IsDigit(s[0]) then
      var n := DigitRun(s[1..]);
      assert s[..n + 1] == [s[0]] + s[1..][..n];
      n + 1
    else 0
  }

  function Unsigned(t: string): string {
    if t != [] && t[0] == '-' then t[1..] else t
  }

  /** The digits after the point, if there is one. */
  function FractionOf(t: string): (f: string)
    ensures AllDigits(f)
  {
    if t != [] && t[0] == '.' then t[1..][..DigitRun(t[1..])] else []
  }

  /** What follows the fraction. */
  function AfterFraction(t: string): string {
    if t != [] && t[0] == '.' then t[1..][DigitRun(t[1..])..] else t
  }

  predicate ValidExponent(t: string) {
    t == [] || ((t[0] == 'e' || t[0] == 'E') && ExponentDigits(t) != [] && AllDigits(ExponentDigits(t)))
  }

  function ExponentDigits(t: string): string
    requires t != []
  {
    if |t| > 1 && (t[1] == '-' || t[1] == '+') then t[2..] else t[1..]
  }

  /** [ minus ] int [ frac ] [ exp ] */
  predicate ValidNumber(t: string) {
    var u := Unsigned(t);
    var n := DigitRun(u);
    n > 0 && (n > 1 ==> u[0] != '0')
    && (n < |u| && u[n] == '.' ==> FractionOf(u[n..]) != [])
    && ValidExponent(AfterFraction(u[n..]))
  }

  /** The decimal a number spells: units * 10^(exponent - places), with its sign. */
  datatype Number = Number(negative: bool, units: nat, places: nat, exponent: int)

  function NumberOf(t: string): Number
    requires ValidNumber(t)
  {
    var u := Unsigned(t);
    var n := DigitRun(u);
    var fraction, rest := FractionOf(u[n..]), AfterFraction(u[n..]);
    Number(t[0] == '-', NatOf(u[..n] + fraction), |fraction|, ExponentOf(rest))
  }

  /** The value of a decimal, however it is spelled: no zero ends the digits after the point. */
  datatype Value = Value(negative: bool, units: nat, places: nat)

  function Trim(negative: bool, units: nat, places: nat): Value
    decreases places
  {
    if places > 0 && units % 10 == 0 then Trim(negative, units / 10, places - 1) else Value(negative, units, places)
  }

  function ValueOf(n: Number): Value {
    if n.exponent >= n.places then Value(n.negative, n.units * Pow10(n.exponent - n.places), 0)
    else Trim(n.negative, n.units, n.places - n.exponent)
  }

  /** The number a value stands for. */
  function RealOf(v: Value): real {
    (if v.negative then -(v.units as real) else v.units as real) / Pow10(v.places) as real
  }

  lemma {:induction false} TrimKeepsNumber(negative: bool, units: nat, places: nat)
    ensures RealOf(Trim(negative, units, places)) == RealOf(Value(negative, units, places))
    decreases places
  {
    if places > 0 && units % 10 == 0 {
      TrimKeepsNumber(negative, units / 10, places - 1);
      assert Pow10(places) == 10 * Pow10(places - 1);
      hide Pow10;
      TenthsCancel(units / 10, Pow10(places - 1));
    }
  }

  lemma TenthsCancel(a: nat, p: nat)
    requires p > 0
    ensures a as real / p as real == (10 * a) as real / (10 * p) as real
    ensures -(a as real) / p as real == -((10 * a) as real) / (10 * p) as real
  {
  }

  lemma {:induction false} TrimScales(negative: bool, units: nat, places: nat)
    ensures var t := Trim(negative, units, places);
      && t.negative == negative && t.places <= places && t.units * Pow10(places - t.places) == units
      && (t.places > 0 ==> t.units % 10 != 0)
    decreases places
  {
    if places > 0 && units % 10 == 0 {
      TrimScales(negative, units / 10, places - 1);
      var t := Trim(negative, units / 10, places - 1);
      OneMoreTen(t.units, places - 1 - t.places);
    } else {
      assert Pow10(0) == 1;
    }
  }

  lemma {:induction false} OneMoreTen(a: nat, k: nat)
    ensures a * Pow10(k + 1) == 10 * (a * Pow10(k))
  {
    assert Pow10(k + 1) == 10 * Pow10(k);
  }

  lemma {:induction false} Cancel(a: nat, b: nat, p: nat)
    requires p > 0 && a * p == b * p
    ensures a == b
  {
    if a < b {
      Strictly(a, b, p);
    } else if b < a {
      Strictly(b, a, p);
    }
  }

  lemma {:induction false} Strictly(a: nat, b: nat, p: nat)
    requires a < b && p > 0
    ensures a * p < b * p
  {
  }

  lemma {:induction false} Scaled(u: nat, t: nat, k: nat, q: nat)
    requires t * Pow10(k) == u
    ensures u * Pow10(q) == t * Pow10(k + q)
  {
    Pow10Add(k, q);
    hide Pow10;
    Regroup(t, Pow10(k), Pow10(q));
  }

  lemma {:induction false} Regroup(a: nat, b: nat, c: nat)
    ensures (a * b) * c == a * (b * c)
  {
  }

  /** Fewer places, no zero at the end: two such numbers are equal only if they are the same. */
  lemma {:induction false} TrimmedDiffer(t: nat, p: nat, s: nat, q: nat, n: nat)
    requires p < q <= n && s % 10 != 0
    ensures t * Pow10(n - p) != s * Pow10(n - q)
  {
    if t * Pow10(n - p) == s * Pow10(n - q) {
      assert Pow10(q - p) == 10 * Pow10(q - p - 1);
      Pow10Add(q - p, n - q);
      assert q - p + (n - q) == n - p;
      hide Pow10;
      Regroup(t, Pow10(q - p), Pow10(n - q));
      Cancel(t * Pow10(q - p), s, Pow10(n - q));
      Regroup(t, 10, Pow10(q - p - 1));
      Tenfold(t, Pow10(q - p - 1));
      assert false;
    }
  }

  lemma {:induction false} Tenfold(t: nat, p: nat)
    ensures (t * (10 * p)) % 10 == 0
  {
    assert t * (10 * p) == 10 * (t * p);
  }

  /** Two decimals have one value exactly when they are equal at a common precision. */
  lemma {:induction false} SameValueIff(negative: bool, u: nat, p: nat, v: nat, q: nat)
    ensures Trim(negative, u, p) == Trim(negative, v, q) <==> u * Pow10(q) == v * Pow10(p)
  {
    var s, t := Trim(negative, u, p), Trim(negative, v, q);
    TrimScales(negative, u, p);
    TrimScales(negative, v, q);
    Scaled(u, s.units, p - s.places, q);
    Scaled(v, t.units, q - t.places, p);
    var n := p + q;
    assert p - s.places + q == n - s.places && q - t.places + p == n - t.places;
    hide Trim;
    if s.places < t.places {
      TrimmedDiffer(s.units, s.places, t.units, t.places, n);
    } else if t.places < s.places {
      TrimmedDiffer(t.units, t.places, s.units, s.places, n);
    } else if u * Pow10(q) == v * Pow10(p) {
      Cancel(s.units, t.units, Pow10(n - s.places));
    }
  }

  function ExponentOf(t: string): int
    requires ValidExponent(t)
  {
    if t == [] then 0 else
    var n: int := NatOf(ExponentDigits(t));
    if |t| > 1 && t[1] == '-' then -n else n
  }

  // ----- strings (section 7) -----

  /** What may stand in a string as itself. */
  predicate Unescaped(c: char) {
    c >= ' ' && c != '"' && c != '\\'
  }

  function TwoCharacterEscape(c: char): Option<char> {
    match c
    case '"' => Some('"')
    case '\\' => Some('\\')
    case '/' => Some('/')
    case 'b' => Some(8 as char)
    case 'f' => Some(12 as char)
    case 'n' => Some('\n')
    case 'r' => Some('\r')
    case 't' => Some('\t')
    case _ => None
  }

  function HexValue(c: char): Option<nat> {
    if IsDigit(c) then Some(DigitValue(c))
    else if 'a' <= c <= 'f' then Some(c as int - 'a' as int + 10)
    else if 'A' <= c <= 'F' then Some(c as int - 'A' as int + 10)
    else None
  }

  /** The code unit of four hexadecimal digits; a surrogate is no character on its own. */
  function HexEscape(s: string): Option<char>
    requires |s| == 4
  {
    var a, b, c, d := HexValue(s[0]), HexValue(s[1]), HexValue(s[2]), HexValue(s[3]);
    if a.None? || b.None? || c.None? || d.None? then None else
    var n := ((a.value * 16 + b.value) * 16 + c.value) * 16 + d.value;
    if n < 0xD800 || 0xE000 <= n < 0x1_0000 then Some(n as char) else None
  }

  /** From inside a string to past its closing quote. */
  function ParseString(s: string): (r: Option<(string, string)>)
    ensures r.Some? ==> |r.value.1| < |s|
  {
    if s == [] then None
    else if s[0] == '"' then Some(([], s[1..]))
    else if s[0] != '\\' then
      if Unescaped(s[0]) then Prepend(s[0], ParseString(s[1..])) else None
    else if |s| >= 6 && s[1] == 'u' then
      var c := HexEscape(s[2..6]);
      if c.Some? then Prepend(c.value, ParseString(s[6..])) else None
    else if |s| >= 2 then
      var c := TwoCharacterEscape(s[1]);
      if c.Some? then Prepend(c.value, ParseString(s[2..])) else None
    else None
  }

  function Prepend(c: char, r: Option<(string, string)>): Option<(string, string)> {
    if r.Some? then Some(([c] + r.value.0, r.value.1)) else None
  }

  // ----- values (sections 2 to 5) -----

  predicate IsWhite(c: char) {
    c == ' ' || c == '\t' || c == '\n' || c == '\r'
  }

  function SkipWhite(s: string): (r: string)
    ensures |r| <= |s|
  {
    if s != [] && IsWhite(s[0]) then SkipWhite(s[1..]) else s
  }

  predicate StartsWith(s: string, word: string) {
    |word| <= |s| && s[..|word|] == word
  }

  function ParseValue(s: string): (r: Option<(Json, string)>)
    ensures r.Some? ==> |r.value.1| < |s|
    decreases |s|, 0
  {
    if s == [] then None
    else if s[0] == '[' then
      var t := SkipWhite(s[1..]);
      if t != [] && t[0] == ']' then Some((Arr([]), t[1..])) else
      var r := ParseElements(t);
      if r.Some? then Some((Arr(r.value.0), r.value.1)) else None
    else if s[0] == '{' then
      var t := SkipWhite(s[1..]);
      if t != [] && t[0] == '}' then Some((Obj([]), t[1..])) else
      var r := ParseMembers(t);
      if r.Some? then Some((Obj(r.value.0), r.value.1)) else None
    else if s[0] == '"' then
      var r := ParseString(s[1..]);
      if r.Some? then Some((Str(r.value.0), r.value.1)) else None
    else if s[0] == '-' || IsDigit(s[0]) then
      var n := NumberRun(s);
      if n > 0 && ValidNumber(s[..n]) then Some((Num(s[..n]), s[n..])) else None
    else if StartsWith(s, "true") then Some((Bool(true), s[4..]))
    else if StartsWith(s, "false") then Some((Bool(false), s[5..]))
    else if StartsWith(s, "null") then Some((Null, s[4..]))
    else None
  }

  /** One value or more, commas between, to past the closing bracket. */
  function ParseElements(s: string): (r: Option<(seq<Json>, string)>)
    ensures r.Some? ==> |r.value.1| < |s|
    decreases |s|, 1
  {
    var v := ParseValue(s);
    if v.None? then None else
    var t := SkipWhite(v.value.1);
    if t == [] then None
    else if t[0] == ']' then Some(([v.value.0], t[1..]))
    else if t[0] == ',' then
      var r := ParseElements(SkipWhite(t[1..]));
      if r.Some? then Some(([v.value.0] + r.value.0, r.value.1)) else None
    else None
  }

  /** A name and its value. */
  function ParseMember(s: string): (r: Option<(Member, string)>)
    ensures r.Some? ==> |r.value.1| < |s|
    decreases |s|, 1
  {
    if s == [] || s[0] != '"' then None else
    var key := ParseString(s[1..]);
    if key.None? then None else
    var t := SkipWhite(key.value.1);
    if t == [] || t[0] != ':' then None else
    var v := ParseValue(SkipWhite(t[1..]));
    if v.Some? then Some((Member(key.value.0, v.value.0), v.value.1)) else None
  }

  function ParseMembers(s: string): (r: Option<(seq<Member>, string)>)
    ensures r.Some? ==> |r.value.1| < |s|
    decreases |s|, 2
  {
    var m := ParseMember(s);
    if m.None? then None else
    var t := SkipWhite(m.value.1);
    if t == [] then None
    else if t[0] == '}' then Some(([m.value.0], t[1..]))
    else if t[0] == ',' then
      var r := ParseMembers(SkipWhite(t[1..]));
      if r.Some? then Some(([m.value.0] + r.value.0, r.value.1)) else None
    else None
  }

  /** A whole text is one value, with white space around it. */
  function ParseText(s: string): Option<Json> {
    var r := ParseValue(SkipWhite(s));
    if r.Some? && SkipWhite(r.value.1) == [] then Some(r.value.0) else None
  }

  // ----- printing without spaces -----

  function Quoted(s: string): string {
    "\"" + s + "\""
  }

  function Print(v: Json): string
    decreases v
  {
    match v
    case Null => "null"
    case Bool(b) => if b then "true" else "false"
    case Num(token) => token
    case Str(s) => Quoted(s)
    case Arr(items) => "[" + Elements(items, 0)
    case Obj(members) => "{" + Members(members, 0)
  }

  /** From item `k` to the closing bracket. */
  function Elements(items: seq<Json>, k: nat): string
    requires k <= |items|
    decreases items, |items| - k
  {
    if k == |items| then "]" else (if k > 0 then "," else "") + (Print(items[k]) + Elements(items, k + 1))
  }

  function KeyText(key: string): string {
    Quoted(key) + ":"
  }

  function MemberText(m: Member): string
    decreases m
  {
    KeyText(m.key) + Print(m.value)
  }

  function Members(members: seq<Member>, k: nat): string
    requires k <= |members|
    decreases members, |members| - k
  {
    if k == |members| then "}" else (if k > 0 then "," else "") + (MemberText(members[k]) + Members(members, k + 1))
  }

  // ----- the reader undoes the printer -----

  predicate PlainString(s: string) {
    forall i :: 0 <= i < |s| ==> Unescaped(s[i])
  }

  /** A spelling that is taken for a number, or one of those a C library gives for no number. */
  predicate NumberLike(t: string) {
    (t != [] && (t[0] == '-' || IsDigit(t[0])) && forall i :: 0 <= i < |t| ==> IsNumberChar(t[i]))
    || t == "inf" || t == "-inf" || t == "nan" || t == "-nan"
  }

  /** No string needs an escape. */
  predicate Printable(v: Json) {
    match v
    case Num(token) => NumberLike(token)
    case Str(s) => PlainString(s)
    case Arr(items) => forall i :: 0 <= i < |items| ==> Printable(items[i])
    case Obj(members) => forall i :: 0 <= i < |members| ==> PlainString(members[i].key) && Printable(members[i].value)
    case _ => true
  }

  /** Every number is spelled as the grammar wants. */
  predicate NumbersValid(v: Json) {
    match v
    case Num(token) => ValidNumber(token)
    case Arr(items) => forall i :: 0 <= i < |items| ==> NumbersValid(items[i])
    case Obj(members) => forall i :: 0 <= i < |members| ==> NumbersValid(members[i].value)
    case _ => true
  }

  /** What may follow a value. */
  predicate Stops(rest: string) {
    rest == [] || !IsNumberChar(rest[0])
  }

  lemma {:induction false} RunOfToken(t: string, rest: string)
    requires (forall i :: 0 <= i < |t| ==> IsNumberChar(t[i])) && Stops(rest)
    ensures NumberRun(t + rest) == |t|
  {
    if t != [] {
      assert (t + rest)[1..] == t[1..] + rest;
      RunOfToken(t[1..], rest);
    } else {
      assert t + rest == rest;
    }
  }

  lemma {:induction false} TokenReadsBack(t: string, rest: string)
    requires NumberLike(t) && Stops(rest)
    ensures ParseValue(t + rest) == if ValidNumber(t) then Some((Num(t), rest)) else None
  {
    hide ValidNumber;
    var s := t + rest;
    assert s[0] == t[0];
    if t == "inf" || t == "nan" {
      WordIsNoNumber(t);
      assert !StartsWith(s, "null") by { assert "null"[1] == 'u' && s[1] == t[1]; }
    } else if t == "-inf" || t == "-nan" {
      WordIsNoNumber(t);
      assert s == "-" + (t[1..] + rest);
      assert !IsNumberChar((t[1..] + rest)[0]);
      RunOfToken("-", t[1..] + rest);
      assert s[..1] == "-";
    } else {
      RunOfToken(t, rest);
      assert s[..|t|] == t && s[|t|..] == rest;
    }
  }

  lemma {:induction false} WordIsNoNumber(t: string)
    requires t == "inf" || t == "nan" || t == "-inf" || t == "-nan"
    ensures !ValidNumber(t) && !ValidNumber("-")
  {
    assert DigitRun(Unsigned(t)) == 0;
    assert DigitRun(Unsigned("-")) == 0;
  }

  lemma {:induction false} StringReadsBack(s: string, rest: string)
    requires PlainString(s)
    ensures ParseString(s + ("\"" + rest)) == Some((s, rest))
  {
    var t := s + ("\"" + rest);
    if s == [] {
      assert t == "\"" + rest && t[1..] == rest;
    } else {
      assert t[0] == s[0] && t[1..] == s[1..] + ("\"" + rest);
      StringReadsBack(s[1..], rest);
      assert [s[0]] + s[1..] == s;
    }
  }

  lemma {:induction false} QuotedReadsBack(s: string, rest: string)
    requires PlainString(s)
    ensures ParseValue(Quoted(s) + rest) == Some((Str(s), rest))
  {
    var t := Quoted(s) + rest;
    assert t[0] == '"' && t[1..] == s + ("\"" + rest);
    StringReadsBack(s, rest);
  }

  lemma {:induction false} WordReadsBack(v: Json, rest: string)
    requires v.Null? || v.Bool?
    ensures ParseValue(Print(v) + rest) == Some((v, rest))
  {
    var w := Print(v);
    var t := w + rest;
    assert t[0] == w[0] && t[..|w|] == w && t[|w|..] == rest;
    assert w[0] == 'n' || w[0] == 't' || w[0] == 'f';
    assert "true"[0] == 't' && "false"[0] == 'f';
    assert StartsWith(t, w);
    assert StartsWith(t, "true") ==> t[..4][0] == 't';
    assert StartsWith(t, "false") ==> t[..5][0] == 'f';
  }

  /** What a value can begin with. */
  lemma PrintStart(v: Json)
    requires Printable(v)
    ensures Print(v) != [] && !IsWhite(Print(v)[0]) && Print(v)[0] != ']' && Print(v)[0] != '}'
  {
    hide Elements, Members;
  }

  /** Reading what was printed gives it back, or fails exactly when a number is misspelled. */
  lemma {:induction false} ReadsBack(v: Json, rest: string)
    requires Printable(v) && Stops(rest)
    ensures ParseValue(Print(v) + rest) == if NumbersValid(v) then Some((v, rest)) else None
    decreases v, 0
  {
    hide Quoted, ParseValue, ParseElements, ParseMembers, NumberRun, ValidNumber;
    match v
    case Num(t) =>
      TokenReadsBack(t, rest);
    case Str(s) =>
      QuotedReadsBack(s, rest);
    case Arr(items) =>
      if items != [] {
        ElementsReadBack(items, 0, rest);
        assert items[0..] == items;
      }
      hide Print;
      ArrayReadsAsElements(items, rest);
    case Obj(members) =>
      if members != [] {
        MembersReadBack(members, 0, rest);
        assert members[0..] == members;
      }
      hide Print;
      ObjectReadsAsMembers(members, rest);
    case _ =>
      WordReadsBack(v, rest);
  }

  /** An array is its opening bracket, then its elements or the closing one. */
  lemma {:induction false} ArrayReadsAsElements(items: seq<Json>, rest: string)
    requires forall i :: 0 <= i < |items| ==> Printable(items[i])
    ensures ParseValue(Print(Arr(items)) + rest) ==
      if items == [] then Some((Arr([]), rest)) else
      var r := ParseElements(Print(items[0]) + (Elements(items, 1) + rest));
      if r.Some? then Some((Arr(r.value.0), r.value.1)) else None
  {
    hide ParseElements, ParseMembers, ParseString, NumberRun, ValidNumber, Printable;
    var t := Print(Arr(items)) + rest;
    assert t[0] == '[' && t[1..] == Elements(items, 0) + rest;
    hide Print;
    if items == [] {
      assert t[1..][0] == ']' && t[1..][1..] == rest;
    } else {
      PrintStart(items[0]);
      assert t[1..] == Print(items[0]) + (Elements(items, 1) + rest);
    }
  }

  lemma {:induction false} ObjectReadsAsMembers(members: seq<Member>, rest: string)
    ensures ParseValue(Print(Obj(members)) + rest) ==
      if members == [] then Some((Obj([]), rest)) else
      var r := ParseMembers(MemberText(members[0]) + (Members(members, 1) + rest));
      if r.Some? then Some((Obj(r.value.0), r.value.1)) else None
  {
    hide ParseElements, ParseMembers, ParseString, NumberRun, ValidNumber;
    var t := Print(Obj(members)) + rest;
    assert t[0] == '{' && t[1..] == Members(members, 0) + rest;
    hide Print;
    if members == [] {
      assert t[1..][0] == '}' && t[1..][1..] == rest;
    } else {
      MemberStart(members[0]);
      hide MemberText;
      assert t[1..] == MemberText(members[0]) + (Members(members, 1) + rest);
    }
  }

  lemma MemberStart(m: Member)
    ensures MemberText(m) != [] && MemberText(m)[0] == '"'
  {
  }

  lemma {:induction false} ElementsReadBack(items: seq<Json>, k: nat, rest: string)
    requires k < |items| && forall i :: 0 <= i < |items| ==> Printable(items[i])
    ensures ParseElements(Print(items[k]) + (Elements(items, k + 1) + rest)) ==
      if forall i :: k <= i < |items| ==> NumbersValid(items[i]) then Some((items[k..], rest)) else None
    decreases items, 1, |items| - k
  {
    hide Print, ParseValue, NumbersValid, Printable;
    var after := Elements(items, k + 1) + rest;
    assert after[0] == if k + 1 == |items| then ']' else ',';
    ReadsBack(items[k], after);
    if k + 1 == |items| {
      assert after[1..] == rest && items[k..] == [items[k]];
    } else {
      PrintStart(items[k + 1]);
      var next := Print(items[k + 1]) + (Elements(items, k + 2) + rest);
      assert after == "," + next;
      assert after[1..] == next;
      ElementsReadBack(items, k + 1, rest);
      assert items[k..] == [items[k]] + items[k + 1..];
    }
  }

  lemma {:induction false} MemberReadsBack(m: Member, rest: string)
    requires PlainString(m.key) && Printable(m.value) && Stops(rest)
    ensures ParseMember(MemberText(m) + rest) == if NumbersValid(m.value) then Some((m, rest)) else None
    decreases m, 0
  {
    hide Print, ParseValue, NumbersValid, Printable, ParseString;
    var s := MemberText(m) + rest;
    var afterKey := ":" + (Print(m.value) + rest);
    assert s[1..] == m.key + ("\"" + afterKey);
    StringReadsBack(m.key, afterKey);
    PrintStart(m.value);
    assert afterKey[1..] == Print(m.value) + rest;
    ReadsBack(m.value, rest);
  }

  lemma {:induction false} MembersReadBack(members: seq<Member>, k: nat, rest: string)
    requires k < |members|
    requires forall i :: 0 <= i < |members| ==> PlainString(members[i].key) && Printable(members[i].value)
    ensures ParseMembers(MemberText(members[k]) + (Members(members, k + 1) + rest)) ==
      if forall i :: k <= i < |members| ==> NumbersValid(members[i].value) then Some((members[k..], rest)) else None
    decreases members, 1, |members| - k
  {
    hide Print, ParseMember, NumbersValid, Printable, MemberText;
    var after := Members(members, k + 1) + rest;
    assert after[0] == if k + 1 == |members| then '}' else ',';
    MemberReadsBack(members[k], after);
    if k + 1 == |members| {
      assert after[1..] == rest && members[k..] == [members[k]];
    } else {
      MemberStart(members[k + 1]);
      var next := MemberText(members[k + 1]) + (Members(members, k + 2) + rest);
      assert after == "," + next;
      assert after[1..] == next;
      MembersReadBack(members, k + 1, rest);
      assert members[k..] == [members[k]] + members[k + 1..];
    }
  }

  /** A printed value is a JSON text, and is that value, exactly when all of its numbers are spelled right. */
  lemma {:induction false} TextReadsBack(v: Json)
    requires Printable(v)
    ensures ParseText(Print(v)) == if NumbersValid(v) then Some(v) else None
  {
    hide Print, ParseValue, NumbersValid, Printable;
    PrintStart(v);
    ReadsBack(v, []);
    assert Print(v) + [] == Print(v);
  }
}
