/** The configuration parser: a TOML subset, read line by line and character by character. */
module Toml {
  import opened Records
  import opened Decimal

  /** A float keeps its text: converting it to binary is not modelled. */
  datatype Value = Str(s: string) | Integer(i: int) | Float(text: string) | Boolean(b: bool)

  datatype Error =
    | UnterminatedEscape | UnsupportedEscape | UnterminatedString
    | MissingScalar | MisplacedSign | SecondPoint | BarePoint | UnsupportedValue | InvalidFloat | InvalidInteger
    | MissingBracket | EmptyTableName | InvalidTableName | TextAfterHeader
    | MissingKey | DottedKey | MissingEquals | MissingValue | Arrays | SingleQuoted | TextAfterValue | DuplicateKey

  const INT64_MIN: int := -0x8000_0000_0000_0000
  const INT64_MAX: int := 0x7FFF_FFFF_FFFF_FFFF

  // ----- characters and scanning -----

  predicate IsBareKeyChar(c: char) {
    'a' <= c <= 'z' || 'A' <= c <= 'Z' || IsDigit(c) || c == '_' || c == '-'
  }

  predicate IsSpace(c: char) {
    c == ' ' || c == '\t'
  }

  function SkipSpace(s: string, i: nat): (j: nat)
    requires i <= |s|
    ensures i <= j <= |s|
    decreases |s| - i
  {
    if i < |s| && IsSpace(s[i]) then SkipSpace(s, i + 1) else i
  }

  predicate OnlyTrailing(s: string, i: nat)
    requires i <= |s|
  {
    var j := SkipSpace(s, i);
    j >= |s| || s[j] == '#'
  }

  function FindChar(s: string, c: char, i: nat): (j: nat)
    requires i <= |s|
    ensures i <= j <= |s|
    decreases |s| - i
  {
    if i < |s| && s[i] != c then FindChar(s, c, i + 1) else i
  }

  function SkipKey(s: string, i: nat): (j: nat)
    requires i <= |s|
    ensures i <= j <= |s|
    decreases |s| - i
  {
    if i < |s| && IsBareKeyChar(s[i]) then SkipKey(s, i + 1) else i
  }

  function SkipToken(s: string, i: nat): (j: nat)
    requires i <= |s|
    ensures i <= j <= |s|
    decreases |s| - i
  {
    if i < |s| && !IsSpace(s[i]) && s[i] != '#' then SkipToken(s, i + 1) else i
  }

  /** The character an escape stands for. */
  function Unescaped(e: char): Option<char> {
    match e
    case '"' => Some('"')
    case '\\' => Some('\\')
    case 'n' => Some('\n')
    case 't' => Some('\t')
    case 'r' => Some('\r')
    case _ => None
  }

  /** The text of a quoted string from inside it on, and where it ends. */
  function Quoted(s: string, i: nat, out: string): (r: Result<(string, nat), Error>)
    requires i <= |s|
    ensures r.Ok? ==> i < r.value.1 <= |s|
    decreases |s| - i
  {
    if i >= |s| then Err(UnterminatedString)
    else if s[i] == '"' then Ok((out, i + 1))
    else if s[i] == '\\' then
      if i + 1 >= |s| then Err(UnterminatedEscape)
      else
        var c := Unescaped(s[i + 1]);
        if c.None? then Err(UnsupportedEscape) else Quoted(s, i + 2, out + [c.value])
    else Quoted(s, i + 1, out + [s[i]])
  }

  /** Which characters a number may hold; tells whether it has a point and a digit. */
  function ScanNumber(token: string, i: nat, dot: bool, digit: bool): Result<(bool, bool), Error>
    requires i <= |token|
    decreases |token| - i
  {
    if i == |token| then Ok((dot, digit)) else
    var c := token[i];
    if c == '+' || c == '-' then
      if i != 0 then Err(MisplacedSign) else ScanNumber(token, i + 1, dot, digit)
    else if c == '.' then
      if dot then Err(SecondPoint)
      else if i == 0 || i + 1 >= |token| || !IsDigit(token[i - 1]) || !IsDigit(token[i + 1]) then Err(BarePoint)
      else ScanNumber(token, i + 1, true, digit)
    else if IsDigit(c) then ScanNumber(token, i + 1, dot, true)
    else Err(UnsupportedValue)
  }

  /** strtoll: an optional sign and digits, within 64 bits; all of the token must be used. */
  function IntegerOf(token: string): Option<int> {
    var signed := token != [] && (token[0] == '+' || token[0] == '-');
    var digits := if signed then token[1..] else token;
    if digits == [] || !AllDigits(digits) then None else
    var magnitude: int := NatOf(digits);
    var n := if signed && token[0] == '-' then -magnitude else magnitude;
    if INT64_MIN <= n <= INT64_MAX then Some(n) else None
  }

  /** `inRange` says whether the conversion of a float's text stays within binary64. */
  function Scalar(token: string, inRange: string -> bool): Result<Value, Error> {
    if token == "true" then Ok(Boolean(true))
    else if token == "false" then Ok(Boolean(false))
    else if token == [] then Err(MissingScalar)
    else
      var r := ScanNumber(token, 0, false, false);
      if r.Err? then Err(r.error)
      else if !r.value.1 then Err(UnsupportedValue)
      else if r.value.0 then (if inRange(token) then Ok(Float(token)) else Err(InvalidFloat))
      else
        var n := IntegerOf(token);
        if n.Some? then Ok(Integer(n.value)) else Err(InvalidInteger)
  }

  // ----- lines -----

  /** The table the next keys belong to, and the values so far. */
  datatype State = State(table: string, values: map<string, Value>)

  predicate BareName(s: string) {
    forall i :: 0 <= i < |s| ==> IsBareKeyChar(s[i])
  }

  function FullKey(table: string, key: string): string {
    if table == [] then key else table + "." + key
  }

  function HeaderLine(st: State, line: string, i: nat): Result<State, Error>
    requires i < |line| && line[i] == '['
  {
    var close := FindChar(line, ']', i);
    if close == |line| then Err(MissingBracket) else
    var name := line[i + 1..close];
    if name == [] then Err(EmptyTableName)
    else if !BareName(name) then Err(InvalidTableName)
    else if !OnlyTrailing(line, close + 1) then Err(TextAfterHeader)
    else Ok(st.(table := name))
  }

  /** A value and where it ends. */
  function ReadValue(line: string, i: nat, inRange: string -> bool): (r: Result<(Value, nat), Error>)
    requires i < |line|
    ensures r.Ok? ==> r.value.1 <= |line|
  {
    var first := line[i];
    if first == '"' then
      var q := Quoted(line, i + 1, []);
      if q.Err? then Err(q.error) else Ok((Str(q.value.0), q.value.1))
    else if first == '[' || first == '{' then Err(Arrays)
    else if first == '\'' then Err(SingleQuoted)
    else
      var end := SkipToken(line, i);
      var v := Scalar(line[i..end], inRange);
      if v.Err? then Err(v.error) else Ok((v.value, end))
  }

  function KeyLine(st: State, line: string, start: nat, inRange: string -> bool): Result<State, Error>
    requires start < |line|
  {
    var end := SkipKey(line, start);
    var key := line[start..end];
    if key == [] then Err(MissingKey) else
    var i := SkipSpace(line, end);
    if i >= |line| || line[i] != '=' then
      (if i < |line| && line[i] == '.' then Err(DottedKey) else Err(MissingEquals))
    else
      var j := SkipSpace(line, i + 1);
      if j >= |line| || line[j] == '#' then Err(MissingValue) else
      var v := ReadValue(line, j, inRange);
      if v.Err? then Err(v.error)
      else if !OnlyTrailing(line, v.value.1) then Err(TextAfterValue)
      else
        var full := FullKey(st.table, key);
        if full in st.values then Err(DuplicateKey) else Ok(st.(values := st.values[full := v.value.0]))
  }

  function StripReturn(line: string): string {
    if line != [] && line[|line| - 1] == '\r' then line[..|line| - 1] else line
  }

  function Line(st: State, raw: string, inRange: string -> bool): Result<State, Error> {
    var line := StripReturn(raw);
    var i := SkipSpace(line, 0);
    if i >= |line| || line[i] == '#' then Ok(st)
    else if line[i] == '[' then HeaderLine(st, line, i)
    else KeyLine(st, line, i, inRange)
  }

  /** The lines of a text: a final line without an end counts, an empty rest does not. */
  function Lines(text: string): (lines: seq<string>)
    decreases |text|
  {
    if text == [] then [] else
    var i := FindChar(text, '\n', 0);
    if i == |text| then [text] else [text[..i]] + Lines(text[i + 1..])
  }

  /** The values, or the first error with its line number. */
  datatype ParseResult = Parsed(values: map<string, Value>) | Failed(error: Error, line: nat)

  function RunLines(st: State, lines: seq<string>, done: nat, inRange: string -> bool): ParseResult
    decreases |lines|
  {
    if lines == [] then Parsed(st.values) else
    var r := Line(st, lines[0], inRange);
    if r.Err? then Failed(r.error, done + 1) else RunLines(r.value, lines[1..], done + 1, inRange)
  }

  function Parse(text: string, inRange: string -> bool): ParseResult {
    RunLines(State([], map[]), Lines(text), 0, inRange)
  }

  // ----- the code -----

  method DoSkipSpace(s: string, start: nat) returns (i: nat)
    requires start <= |s|
    ensures i == SkipSpace(s, start)
  {
    i := start;
    while i < |s| && IsSpace(s[i])
      invariant start <= i <= |s| && SkipSpace(s, i) == SkipSpace(s, start)
    {
      i := i + 1;
    }
  }

  method DoOnlyTrailing(s: string, start: nat) returns (b: bool)
    requires start <= |s|
    ensures b == OnlyTrailing(s, start)
  {
    var i := DoSkipSpace(s, start);
    b := i >= |s| || s[i] == '#';
  }

  /** parseQuotedString, from the opening quote. */
  method DoQuoted(s: string, start: nat) returns (r: Result<(string, nat), Error>)
    requires start < |s|
    ensures r == Quoted(s, start + 1, [])
  {
    var out: string := [];
    var i := start + 1;
    while i < |s|
      invariant i <= |s| && Quoted(s, i, out) == Quoted(s, start + 1, [])
      decreases |s| - i
    {
      var c := s[i];
      if c == '"' { return Ok((out, i + 1)); }
      if c == '\\' {
        if i + 1 >= |s| { return Err(UnterminatedEscape); }
        var e := s[i + 1];
        match e {
          case '"' => out := out + ['"'];
          case '\\' => out := out + ['\\'];
          case 'n' => out := out + ['\n'];
          case 't' => out := out + ['\t'];
          case 'r' => out := out + ['\r'];
          case _ => return Err(UnsupportedEscape);
        }
        i := i + 2;
      } else {
        out := out + [c];
        i := i + 1;
      }
    }
    r := Err(UnterminatedString);
  }

  /** parseScalar. */
  method DoScalar(token: string, inRange: string -> bool) returns (r: Result<Value, Error>)
    ensures r == Scalar(token, inRange)
  {
    if token == "true" || token == "false" { return Ok(Boolean(token == "true")); }
    if token == [] { return Err(MissingScalar); }
    var hasDot, hasDigit := false, false;
    for i := 0 to |token|
      invariant ScanNumber(token, i, hasDot, hasDigit) == ScanNumber(token, 0, false, false)
    {
      var c := token[i];
      if c == '+' || c == '-' {
        if i != 0 { return Err(MisplacedSign); }
      } else if c == '.' {
        if hasDot { return Err(SecondPoint); }
        if i == 0 || i + 1 >= |token| || !IsDigit(token[i - 1]) || !IsDigit(token[i + 1]) { return Err(BarePoint); }
        hasDot := true;
      } else if IsDigit(c) {
        hasDigit := true;
      } else {
        return Err(UnsupportedValue);
      }
    }
    if !hasDigit { return Err(UnsupportedValue); }
    if hasDot {
      return if inRange(token) then Ok(Float(token)) else Err(InvalidFloat);
    }
    var n := IntegerOf(token);
    r := if n.Some? then Ok(Integer(n.value)) else Err(InvalidInteger);
  }

  method DoHeader(st: State, line: string, i: nat) returns (r: Result<State, Error>)
    requires i < |line| && line[i] == '['
    ensures r == HeaderLine(st, line, i)
  {
    var close := FindChar(line, ']', i);
    if close == |line| { return Err(MissingBracket); }
    var name := line[i + 1..close];
    if name == [] { return Err(EmptyTableName); }
    for k := 0 to |name|
      invariant BareName(name[..k])
    {
      if !IsBareKeyChar(name[k]) { return Err(InvalidTableName); }
    }
    assert name[..|name|] == name;
    var clean := DoOnlyTrailing(line, close + 1);
    if !clean { return Err(TextAfterHeader); }
    r := Ok(st.(table := name));
  }

  method DoValue(line: string, start: nat, inRange: string -> bool) returns (r: Result<(Value, nat), Error>)
    requires start < |line|
    ensures r == ReadValue(line, start, inRange)
  {
    hide Quoted, Scalar;
    var first := line[start];
    if first == '"' {
      var q := DoQuoted(line, start);
      return if q.Err? then Err(q.error) else Ok((Str(q.value.0), q.value.1));
    }
    if first == '[' || first == '{' { return Err(Arrays); }
    if first == '\'' { return Err(SingleQuoted); }
    var i := start;
    while i < |line| && !IsSpace(line[i]) && line[i] != '#'
      invariant start <= i <= |line| && SkipToken(line, i) == SkipToken(line, start)
    {
      i := i + 1;
    }
    var v := DoScalar(line[start..i], inRange);
    r := if v.Err? then Err(v.error) else Ok((v.value, i));
  }

  method DoKey(st: State, line: string, start: nat, inRange: string -> bool) returns (r: Result<State, Error>)
    requires start < |line|
    ensures r == KeyLine(st, line, start, inRange)
  {
    hide ReadValue, SkipSpace, OnlyTrailing;
    var i := start;
    while i < |line| && IsBareKeyChar(line[i])
      invariant start <= i <= |line| && SkipKey(line, i) == SkipKey(line, start)
    {
      i := i + 1;
    }
    var key := line[start..i];
    if key == [] { return Err(MissingKey); }
    i := DoSkipSpace(line, i);
    if i >= |line| || line[i] != '=' {
      if i < |line| && line[i] == '.' { return Err(DottedKey); }
      return Err(MissingEquals);
    }
    i := DoSkipSpace(line, i + 1);
    if i >= |line| || line[i] == '#' { return Err(MissingValue); }
    var v := DoValue(line, i, inRange);
    if v.Err? { return Err(v.error); }
    var clean := DoOnlyTrailing(line, v.value.1);
    if !clean { return Err(TextAfterValue); }
    var full := if st.table == [] then key else st.table + "." + key;
    if full in st.values { return Err(DuplicateKey); }
    r := Ok(st.(values := st.values[full := v.value.0]));
  }

  method DoLine(st: State, raw: string, inRange: string -> bool) returns (r: Result<State, Error>)
    ensures r == Line(st, raw, inRange)
  {
    hide HeaderLine, KeyLine, SkipSpace;
    var line := raw;
    if line != [] && line[|line| - 1] == '\r' { line := line[..|line| - 1]; }
    var i := DoSkipSpace(line, 0);
    if i >= |line| || line[i] == '#' { return Ok(st); }
    if line[i] == '[' {
      r := DoHeader(st, line, i);
    } else {
      r := DoKey(st, line, i, inRange);
    }
  }

  /** parse: one line at a time; the first error ends it. */
  method DoParse(text: string, inRange: string -> bool) returns (r: ParseResult)
    ensures r == Parse(text, inRange)
  {
    hide Line;
    var st := State([], map[]);
    var rest := text;
    var ln := 0;
    while rest != []
      invariant RunLines(st, Lines(rest), ln, inRange) == Parse(text, inRange)
      decreases |rest|
    {
      var end := FindChar(rest, '\n', 0);
      var line := rest[..end];
      ghost var lines := Lines(rest);
      rest := if end == |rest| then [] else rest[end + 1..];
      assert lines[0] == line && lines[1..] == Lines(rest);
      ln := ln + 1;
      var step := DoLine(st, line, inRange);
      if step.Err? { return Failed(step.error, ln); }
      st := step.value;
    }
    r := Parsed(st.values);
  }
}
