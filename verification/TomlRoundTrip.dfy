/** Documents written in the configuration subset, in any layout, parse back to exactly what they say. */
module TomlRoundTrip {
  import opened Records
  import opened Decimal
  import opened Toml
  import opened TomlLines

  // ----- writing -----

  datatype Entry = Entry(key: string, value: Value)

  datatype Eol = Lf | CrLf

  /** How a line is laid out: spaces before it and around the equals sign, what follows it, and its end. */
  datatype Layout = Layout(lead: string, gap: string, gap': string, tail: string, eol: Eol)

  function Escape(s: string): string {
    if s == [] then [] else Escape(s[..|s| - 1]) + EscapeChar(s[|s| - 1])
  }

  function EscapeChar(c: char): string {
    if c == '"' then "\\\""
    else if c == '\\' then "\\\\"
    else if c == '\n' then "\\n"
    else if c == '\t' then "\\t"
    else if c == '\r' then "\\r"
    else [c]
  }

  /** Strings, booleans and 64-bit integers. */
  predicate Writable(v: Value) {
    match v
    case Str(_) => true
    case Boolean(_) => true
    case Integer(n) => -0x8000_0000_0000_0000 <= n < 0x8000_0000_0000_0000
    case Float(_) => false
  }

  function ValueText(v: Value): string
    requires Writable(v)
  {
    match v
    case Str(s) => "\"" + Escape(s) + "\""
    case Boolean(b) => if b then "true" else "false"
    case Integer(n) => IntegerText(n)
  }

  predicate GoodEntry(e: Entry) {
    e.key != [] && BareName(e.key) && Writable(e.value)
  }

  predicate NoLineFeed(s: string) {
    forall i :: 0 <= i < |s| ==> s[i] != '\n'
  }

  /** Spaces and tabs, and after the line spaces and a comment that stays on it. */
  ghost predicate GoodLayout(l: Layout) {
    && Spaces(l.lead) && Spaces(l.gap) && Spaces(l.gap') && Tail(l.tail) && NoLineFeed(l.tail)
    && (l.tail != [] ==> l.tail[|l.tail| - 1] != '\r')
  }

  /** The line end as it is left by splitting at line feeds. */
  function Ending(eol: Eol): string {
    if eol == CrLf then "\r" else []
  }

  /** One item per line. */
  datatype Item = Header(table: string, l: Layout) | Assign(e: Entry, l: Layout) | Blank(l: Layout)

  ghost predicate GoodItem(i: Item) {
    && GoodLayout(i.l)
    && match i
       case Header(table, _) => table != [] && BareName(table)
       case Assign(e, _) => GoodEntry(e)
       case Blank(_) => true
  }

  function PartsOf(e: Entry, l: Layout): Parts
    requires GoodEntry(e)
  {
    Parts(l.lead, e.key, l.gap, l.gap', ValueText(e.value), l.tail)
  }

  ghost function ItemText(i: Item): string
    requires GoodItem(i)
  {
    match i
    case Header(table, l) => l.lead + "[" + table + "]" + l.tail
    case Assign(e, l) => Joined(PartsOf(e, l))
    case Blank(l) => l.tail
  }

  ghost predicate GoodItems(items: seq<Item>) {
    forall i :: 0 <= i < |items| ==> GoodItem(items[i])
  }

  /** The document: the items in order, each on a line of its own; the last line may lack its end. */
  ghost function Write(items: seq<Item>, closed: bool): string
    requires GoodItems(items)
  {
    if items == [] then [] else
    ItemText(items[0]) + Ending(items[0].l.eol)
    + (if |items| == 1 && !closed then [] else "\n") + Write(items[1..], closed)
  }

  // ----- meaning -----

  /** The flattened keys and values, or the line that repeats a key. */
  function Meaning(st: State, items: seq<Item>, done: nat): ParseResult
    decreases items
  {
    if items == [] then Parsed(st.values) else
    match items[0]
    case Header(table, _) => Meaning(st.(table := table), items[1..], done + 1)
    case Assign(e, _) =>
      var full := FullKey(st.table, e.key);
      if full in st.values then Failed(DuplicateKey, done + 1)
      else Meaning(st.(values := st.values[full := e.value]), items[1..], done + 1)
    case Blank(_) => Meaning(st, items[1..], done + 1)
  }

  // ----- characters of what is written -----

  lemma {:induction false} EscapeNoLineFeed(s: string)
    ensures NoLineFeed(Escape(s))
  {
    if s != [] {
      EscapeNoLineFeed(s[..|s| - 1]);
    }
  }

  lemma DigitsNoLineFeed(s: string)
    requires AllDigits(s) || BareName(s) || Spaces(s)
    ensures NoLineFeed(s)
  {
  }

  lemma {:induction false} ValueNoLineFeed(v: Value)
    requires Writable(v)
    ensures var t := ValueText(v); NoLineFeed(t) && t != [] && t[|t| - 1] != '\r'
  {
    hide Digits, Escape;
    match v
    case Str(s) =>
      EscapeNoLineFeed(s);
      assert ValueText(v)[|ValueText(v)| - 1] == '"';
    case Integer(n) =>
      var d := Digits(if n < 0 then -n else n);
      DigitsNoLineFeed(d);
      assert ValueText(v)[|ValueText(v)| - 1] == d[|d| - 1];
      assert IsDigit(d[|d| - 1]);
    case Boolean(b) =>
  }

  lemma JoinNoLineFeed(a: string, b: string)
    requires NoLineFeed(a) && NoLineFeed(b)
    ensures NoLineFeed(a + b)
  {
  }

  /** No line end within a line, and no carriage return at its end. */
  lemma {:induction false} ItemNoLineFeed(i: Item)
    requires GoodItem(i)
    ensures NoLineFeed(ItemText(i)) && (ItemText(i) != [] ==> ItemText(i)[|ItemText(i)| - 1] != '\r')
  {
    hide ValueText, Tail;
    var l := i.l;
    DigitsNoLineFeed(l.lead);
    match i
    case Header(table, _) =>
      DigitsNoLineFeed(table);
    case Assign(e, _) =>
      DigitsNoLineFeed(e.key);
      DigitsNoLineFeed(l.gap);
      DigitsNoLineFeed(l.gap');
      ValueNoLineFeed(e.value);
      var front := l.lead + e.key + l.gap + "=" + l.gap';
      JoinNoLineFeed(front, ValueText(e.value));
      JoinNoLineFeed(front + ValueText(e.value), l.tail);
      assert ItemText(i) == front + ValueText(e.value) + l.tail;
    case Blank(_) =>
  }

  lemma {:induction false} FindAfter(pre: string, c: char, rest: string, i: nat)
    requires i <= |pre| && forall k :: i <= k < |pre| ==> pre[k] != c
    ensures FindChar(pre + [c] + rest, c, i) == |pre|
    decreases |pre| - i
  {
    if i < |pre| {
      FindAfter(pre, c, rest, i + 1);
    }
  }

  lemma {:induction false} FirstLine(line: string, rest: string)
    requires NoLineFeed(line)
    ensures Lines(line + "\n" + rest) == [line] + Lines(rest)
  {
    hide FindChar;
    var text := line + "\n" + rest;
    FindAfter(line, '\n', rest, 0);
    assert text[..|line|] == line && text[|line| + 1..] == rest;
  }

  lemma {:induction false} LastLine(line: string)
    requires NoLineFeed(line)
    ensures Lines(line) == if line == [] then [] else [line]
  {
    hide FindChar;
    FindCharTo(line, '\n', 0, |line|);
  }

  lemma {:induction false} StripEnding(line: string, eol: Eol)
    requires line != [] ==> line[|line| - 1] != '\r'
    ensures StripReturn(line + Ending(eol)) == line
  {
    assert line + [] == line;
  }

  // ----- strings -----

  lemma {:induction false} EscapeFront(s: string)
    requires s != []
    ensures Escape(s) == EscapeChar(s[0]) + Escape(s[1..])
  {
    hide EscapeChar;
    if |s| > 1 {
      var n := |s| - 1;
      EscapeFront(s[..n]);
      assert s[..n][1..] == s[1..][..n - 1] && s[1..][n - 1] == s[n];
      assert s[1..][..|s[1..]| - 1] == s[1..][..n - 1];
    } else {
      assert s[..0] == [] && s[1..] == [];
    }
  }

  /** Escapes stand for what was escaped. */
  lemma {:induction false} UnescapeEscape(s: string)
    ensures Unescape(Escape(s)) == Some(s)
    decreases |s|
  {
    hide Escape, Unescape, EscapeChar;
    if s == [] {
      EscapeEmpty();
    } else {
      EscapeFront(s);
      UnescapeEscape(s[1..]);
      UnescapeOne(s[0], Escape(s[1..]), s[1..]);
      assert [s[0]] + s[1..] == s;
    }
  }

  lemma {:induction false} UnescapeOne(c: char, rest: string, s: string)
    requires Unescape(rest) == Some(s)
    ensures Unescape(EscapeChar(c) + rest) == Some([c] + s)
  {
    hide EscapeChar, Unescaped;
    EscapeShape(c);
    var e := EscapeChar(c);
    var t := e + rest;
    if |e| == 1 {
      assert t[1..] == rest;
    } else {
      assert t[2..] == rest;
    }
  }

  lemma EscapeShape(c: char)
    ensures var e := EscapeChar(c);
      || (e == [c] && c != '"' && c != '\\')
      || (|e| == 2 && e[0] == '\\' && Unescaped(e[1]) == Some(c))
  {
  }

  /** The escape loop undoes escaping, for any characters. */
  lemma {:induction false} QuotedReadsEscaped(line: string, i: nat, out: string, s: string)
    requires i <= |line| && line[i..] == Escape(s) + "\""
    ensures Quoted(line, i, out) == Ok((out + s, |line|))
  {
    hide Escape, Unescape, Quoted;
    var esc := Escape(s);
    UnescapeEscape(s);
    assert line[i..i + |esc|] == esc by { assert line[i..][..|esc|] == esc; }
    assert line[i + |esc|] == line[i..][|esc|];
    QuotedRead(line, i, out, esc, s);
  }

  lemma EscapeEmpty()
    ensures Escape([]) == [] && Unescape([]) == Some([])
  {
  }

  // ----- scalars -----

  lemma {:induction false} ScanDigits(token: string, i: nat, digit: bool)
    requires i <= |token| && forall k :: i <= k < |token| ==> IsDigit(token[k])
    ensures ScanNumber(token, i, false, digit) == Ok((false, digit || i < |token|))
    decreases |token| - i
  {
    if i < |token| {
      ScanDigits(token, i + 1, true);
    }
  }

  lemma {:induction false} ScalarReadsInteger(n: int, inRange: string -> bool)
    requires INT64_MIN <= n <= INT64_MAX
    ensures Scalar(IntegerText(n), inRange) == Ok(Integer(n))
  {
    hide Digits, ScanNumber, NatOf;
    var token, d := IntegerText(n), Digits(if n < 0 then -n else n);
    NatOfDigits(if n < 0 then -n else n);
    assert IsDigit(d[0]);
    if n < 0 {
      assert token[0] == '-' && token[1..] == d;
      SignThenDigits(token);
    } else {
      assert token == d;
      ScanDigits(token, 0, false);
    }
    assert token[0] != 't' && token[0] != 'f';
  }

  lemma {:induction false} SignThenDigits(token: string)
    requires |token| > 1 && token[0] == '-' && AllDigits(token[1..])
    ensures ScanNumber(token, 0, false, false) == Ok((false, true))
  {
    forall k | 1 <= k < |token|
      ensures IsDigit(token[k])
    {
      assert token[k] == token[1..][k - 1];
    }
    ScanDigits(token, 1, false);
  }

  lemma {:induction false} ScalarReadsBoolean(b: bool, inRange: string -> bool)
    ensures Scalar(ValueText(Boolean(b)), inRange) == Ok(Boolean(b))
  {
    assert "false" != "true" by { assert "false"[0] != "true"[0]; }
  }

  // ----- lines -----

  lemma {:induction false} ScalarText(v: Value)
    requires Writable(v) && !v.Str?
    ensures var t := ValueText(v);
      && t != [] && (forall k :: 0 <= k < |t| ==> !IsSpace(t[k]) && t[k] != '#')
      && t[0] != '"' && t[0] != '[' && t[0] != '{' && t[0] != '\''
  {
    hide Digits;
    if v.Integer? {
      var t, d := ValueText(v), Digits(if v.i < 0 then -v.i else v.i);
      assert forall k :: 0 <= k < |d| ==> IsDigit(d[k]);
      forall k | 0 <= k < |t|
        ensures t[k] == '-' || IsDigit(t[k])
      {
        if v.i < 0 {
          assert k > 0 ==> t[k] == d[k - 1];
        } else {
          assert t[k] == d[k];
        }
      }
    }
  }

  lemma {:induction false} ScalarReads(v: Value, inRange: string -> bool)
    requires Writable(v) && !v.Str?
    ensures Scalar(ValueText(v), inRange) == Ok(v)
  {
    hide Scalar, IntegerText;
    if v.Boolean? {
      ScalarReadsBoolean(v.b, inRange);
    } else {
      ScalarReadsInteger(v.i, inRange);
    }
  }

  lemma {:induction false} ValueFormed(v: Value, inRange: string -> bool)
    requires Writable(v)
    ensures ValueForm(ValueText(v), v, inRange)
  {
    hide Scalar, Unescape, Escape, IntegerText;
    var t := ValueText(v);
    if v.Str? {
      UnescapeEscape(v.s);
      assert t[1..|t| - 1] == Escape(v.s);
    } else {
      ScalarText(v);
      ScalarReads(v, inRange);
    }
  }

  /** What an item does to the parser state. */
  function Effect(st: State, i: Item): Result<State, Error> {
    match i
    case Header(table, _) => Ok(st.(table := table))
    case Assign(e, _) =>
      var full := FullKey(st.table, e.key);
      if full in st.values then Err(DuplicateKey) else Ok(st.(values := st.values[full := e.value]))
    case Blank(_) => Ok(st)
  }

  /** In any layout, a line does what its item says, and a blank or comment line nothing. */
  lemma {:induction false} ItemLine(st: State, i: Item, inRange: string -> bool)
    requires GoodItem(i)
    ensures Line(st, ItemText(i) + Ending(i.l.eol), inRange) == Effect(st, i)
  {
    hide HeaderLine, KeyLine, StripReturn, Ending, ValueText, Tail, SkipSpace, OnlyTrailing, ValueForm, Joined;
    ItemNoLineFeed(i);
    var line := ItemText(i);
    StripEnding(line, i.l.eol);
    match i
    case Header(table, l) =>
      HeaderRead(st, line, l.lead, table, l.tail);
    case Assign(e, l) =>
      ValueFormed(e.value, inRange);
      KeyRead(st, line, PartsOf(e, l), e.value, inRange);
      NotComment(line[|l.lead|]);
      NoBracket(line, PartsOf(e, l), e.value, inRange);
    case Blank(l) =>
      assert line[0..] == line;
      TailIff(line, 0);
      BlankIff(line);
  }

  // ----- documents -----

  lemma EndingNoLineFeed(eol: Eol)
    ensures NoLineFeed(Ending(eol))
  {
  }

  /** The lines of a document are its items', but for an empty last line without an end. */
  lemma {:induction false} FirstItem(items: seq<Item>, closed: bool)
    requires GoodItems(items) && items != []
    ensures var line := ItemText(items[0]) + Ending(items[0].l.eol);
      var rest := Lines(Write(items[1..], closed));
      || Lines(Write(items, closed)) == [line] + rest
      || (items[0].Blank? && |items| == 1 && Lines(Write(items, closed)) == [])
  {
    hide ItemText, Ending, GoodItem;
    var i, rest := items[0], Write(items[1..], closed);
    var line := ItemText(i) + Ending(i.l.eol);
    ItemNoLineFeed(i);
    EndingNoLineFeed(i.l.eol);
    JoinNoLineFeed(ItemText(i), Ending(i.l.eol));
    if |items| == 1 && !closed {
      assert Write(items, closed) == line;
      LastLine(line);
      if line == [] {
        OnlyBlankIsEmpty(i);
      }
    } else {
      assert Write(items, closed) == line + "\n" + rest;
      FirstLine(line, rest);
    }
  }

  lemma OnlyBlankIsEmpty(i: Item)
    requires GoodItem(i) && ItemText(i) == []
    ensures i.Blank?
  {
    hide ValueText, Tail;
  }

  lemma {:induction false} WrittenParses(st: State, items: seq<Item>, closed: bool, done: nat, inRange: string -> bool)
    requires GoodItems(items)
    ensures RunLines(st, Lines(Write(items, closed)), done, inRange) == Meaning(st, items, done)
    decreases |items|
  {
    hide Line, ItemText, Ending, Lines, GoodItem;
    if items == [] {
      NoLines();
    } else {
      var i := items[0];
      var line, rest := ItemText(i) + Ending(i.l.eol), Lines(Write(items[1..], closed));
      FirstItem(items, closed);
      ItemLine(st, i, inRange);
      if Lines(Write(items, closed)) == [line] + rest {
        assert ([line] + rest)[1..] == rest;
        var e := Effect(st, i);
        if e.Ok? {
          WrittenParses(e.value, items[1..], closed, done + 1, inRange);
        }
      } else {
        assert items[1..] == [];
      }
    }
  }

  lemma NoLines()
    ensures Lines([]) == []
  {
  }

  // ----- which documents repeat a key -----

  /** The table in force at item `n`, starting from `table`. */
  function TableAt(table: string, items: seq<Item>, n: nat): string
    requires n <= |items|
  {
    if n == 0 then table else
    match items[n - 1]
    case Header(t, _) => t
    case _ => TableAt(table, items, n - 1)
  }

  /** No table assigns the same key twice. */
  predicate DistinctKeys(items: seq<Item>) {
    forall i, j :: (0 <= i < j < |items| && items[i].Assign? && items[j].Assign?
      && TableAt([], items, i) == TableAt([], items, j)) ==> items[i].e.key != items[j].e.key
  }

  /** The flattened map of the first `n` items. */
  function Flatten(items: seq<Item>, n: nat): map<string, Value>
    requires n <= |items|
  {
    if n == 0 then map[] else
    var m := Flatten(items, n - 1);
    match items[n - 1]
    case Assign(e, _) => m[FullKey(TableAt([], items, n - 1), e.key) := e.value]
    case _ => m
  }

  /** Bare names hold no point, so a flattened key tells its table and its key apart. */
  lemma {:induction false} FullKeyInjective(t: string, k: string, u: string, l: string)
    requires BareName(t) && BareName(k) && BareName(u) && BareName(l)
    requires FullKey(t, k) == FullKey(u, l)
    ensures t == u && k == l
  {
    PointInFull(t, k);
    PointInFull(u, l);
    if t != [] && u != [] {
      PointSplits(t, k, u, l);
    }
  }

  lemma {:induction false} PointInFull(t: string, k: string)
    requires BareName(t) && BareName(k)
    ensures '.' in FullKey(t, k) <==> t != []
  {
    if t != [] {
      assert FullKey(t, k)[|t|] == '.';
    }
  }

  lemma {:induction false} PointSplits(t: string, k: string, u: string, l: string)
    requires BareName(t) && BareName(k) && BareName(u) && BareName(l)
    requires t + "." + k == u + "." + l
    ensures t == u && k == l
  {
    var a, b := t + "." + k, u + "." + l;
    FirstPoint(t, k);
    FirstPoint(u, l);
    assert t == a[..|t|] && u == b[..|u|] && k == a[|t| + 1..] && l == b[|u| + 1..];
  }

  lemma {:induction false} FirstPoint(t: string, k: string)
    requires BareName(t)
    ensures FindChar(t + "." + k, '.', 0) == |t|
  {
    FindAfter(t, '.', k, 0);
    assert t + "." + k == t + ['.'] + k;
  }

  lemma {:induction false} TableIsBare(items: seq<Item>, n: nat)
    requires GoodItems(items) && n <= |items|
    ensures BareName(TableAt([], items, n))
  {
    if n != 0 {
      TableIsBare(items, n - 1);
    }
  }

  /** A flattened key is present after `n` items exactly when one of them assigned it. */
  lemma {:induction false} FlattenKeys(items: seq<Item>, n: nat, full: string)
    requires n <= |items|
    ensures full in Flatten(items, n) <==>
      exists i :: 0 <= i < n && items[i].Assign? && FullKey(TableAt([], items, i), items[i].e.key) == full
  {
    hide FullKey, TableAt;
    if n != 0 {
      FlattenKeys(items, n - 1, full);
      if items[n - 1].Assign? && FullKey(TableAt([], items, n - 1), items[n - 1].e.key) == full {
        assert full in Flatten(items, n);
      }
    }
  }

  /** Item `j` repeats a key that an earlier item of its table assigned. */
  predicate Repeats(items: seq<Item>, j: nat)
    requires j < |items|
  {
    items[j].Assign? && exists i :: (0 <= i < j && items[i].Assign?
      && TableAt([], items, i) == TableAt([], items, j) && items[i].e.key == items[j].e.key)
  }

  lemma {:induction false} DistinctIffNoRepeat(items: seq<Item>)
    ensures DistinctKeys(items) <==> forall j :: 0 <= j < |items| ==> !Repeats(items, j)
  {
    hide TableAt;
    if !DistinctKeys(items) {
      var i, j :| (0 <= i < j < |items| && items[i].Assign? && items[j].Assign?
        && TableAt([], items, i) == TableAt([], items, j)) && items[i].e.key == items[j].e.key;
      assert Repeats(items, j);
    }
    forall j | 0 <= j < |items| && Repeats(items, j)
      ensures !DistinctKeys(items)
    {
      var i :| (0 <= i < j && items[i].Assign?
        && TableAt([], items, i) == TableAt([], items, j) && items[i].e.key == items[j].e.key);
    }
  }

  lemma {:induction false} RepeatsIffPresent(items: seq<Item>, j: nat)
    requires GoodItems(items) && j < |items| && items[j].Assign?
    ensures Repeats(items, j) <==> FullKey(TableAt([], items, j), items[j].e.key) in Flatten(items, j)
  {
    hide FullKey, TableAt, Flatten;
    var full := FullKey(TableAt([], items, j), items[j].e.key);
    FlattenKeys(items, j, full);
    TableIsBare(items, j);
    assert GoodItem(items[j]);
    if full in Flatten(items, j) {
      var i :| 0 <= i < j && items[i].Assign? && FullKey(TableAt([], items, i), items[i].e.key) == full;
      TableIsBare(items, i);
      assert GoodItem(items[i]);
      FullKeyInjective(TableAt([], items, i), items[i].e.key, TableAt([], items, j), items[j].e.key);
    }
  }

  /** Item `j` is the first that repeats a key. */
  predicate FirstRepeat(items: seq<Item>, j: nat) {
    j < |items| && Repeats(items, j) && forall k :: 0 <= k < j ==> !Repeats(items, k)
  }

  lemma {:induction false} MeaningIsFlatten(items: seq<Item>, n: nat)
    requires GoodItems(items) && n <= |items| && forall k :: 0 <= k < n ==> !Repeats(items, k)
    ensures var r := Meaning(State(TableAt([], items, n), Flatten(items, n)), items[n..], n);
      if forall j :: 0 <= j < |items| ==> !Repeats(items, j) then r == Parsed(Flatten(items, |items|))
      else exists j: nat :: FirstRepeat(items, j) && r == Failed(DuplicateKey, j + 1)
    decreases |items| - n
  {
    hide FullKey, Repeats, GoodItem;
    if n < |items| {
      var i := items[n];
      assert items[n..][0] == i && items[n..][1..] == items[n + 1..];
      if i.Assign? {
        RepeatsIffPresent(items, n);
      } else {
        OthersNeverRepeat(items, n);
      }
      if !Repeats(items, n) {
        MeaningIsFlatten(items, n + 1);
      } else {
        assert FirstRepeat(items, n);
      }
    }
  }

  lemma OthersNeverRepeat(items: seq<Item>, j: nat)
    requires j < |items| && !items[j].Assign?
    ensures !Repeats(items, j)
  {
  }

  /** A document in any layout — blank lines, comments, spaces and tabs, either line end on each line, the last line
      closed or not — parses to exactly its flattened map if no table repeats a key; otherwise parsing reports a
      duplicate key and the line of the first repetition. */
  lemma {:induction false} RoundTrip(items: seq<Item>, closed: bool, inRange: string -> bool)
    requires GoodItems(items)
    ensures DistinctKeys(items) ==> Parse(Write(items, closed), inRange) == Parsed(Flatten(items, |items|))
    ensures !DistinctKeys(items) ==>
      exists j: nat :: FirstRepeat(items, j) && Parse(Write(items, closed), inRange) == Failed(DuplicateKey, j + 1)
  {
    hide Write, Meaning, RunLines, Lines, TableAt, DistinctKeys, Repeats, GoodItem, FirstRepeat;
    WrittenParses(State([], map[]), items, closed, 0, inRange);
    AtStart(items);
    MeaningIsFlatten(items, 0);
    assert items[0..] == items;
    DistinctIffNoRepeat(items);
  }

  lemma AtStart(items: seq<Item>)
    ensures TableAt([], items, 0) == [] && Flatten(items, 0) == map[]
  {
  }
}
