/** Exactly which lines the configuration parser accepts, and what each does. */
module TomlLines {
  import opened Records
  import opened Toml

  // ----- the forms of a line -----

  predicate Spaces(s: string) {
    forall i :: 0 <= i < |s| ==> s[i] == ' ' || s[i] == '\t'
  }

  /** What may follow: spaces, and perhaps a comment. */
  ghost predicate Tail(s: string) {
    exists n :: 0 <= n <= |s| && Spaces(s[..n]) && (n == |s| || s[n] == '#')
  }

  ghost predicate HeaderForm(line: string, lead: string, name: string, tail: string) {
    line == lead + "[" + name + "]" + tail && Spaces(lead) && name != [] && BareName(name) && Tail(tail)
  }

  /** The value escapes stand for, inside quotes. */
  function Unescape(s: string): Option<string>
    decreases |s|
  {
    if s == [] then Some([])
    else if s[0] == '"' then None
    else if s[0] == '\\' then
      if |s| < 2 || Unescaped(s[1]).None? then None else
      var rest := Unescape(s[2..]);
      if rest.None? then None else Some([Unescaped(s[1]).value] + rest.value)
    else
      var rest := Unescape(s[1..]);
      if rest.None? then None else Some([s[0]] + rest.value)
  }

  /** A text that stands for a value: quoted, or a scalar without spaces. */
  ghost predicate ValueForm(text: string, v: Value, inRange: string -> bool) {
    text != [] &&
    if text[0] == '"' then
      && |text| >= 2 && text[|text| - 1] == '"' && v.Str? && Unescape(text[1..|text| - 1]) == Some(v.s)
    else
      && text[0] != '[' && text[0] != '{' && text[0] != '\''
      && (forall k :: 0 <= k < |text| ==> !IsSpace(text[k]) && text[k] != '#')
      && Scalar(text, inRange) == Ok(v)
  }

  /** The parts of an assignment. */
  datatype Parts = Parts(lead: string, key: string, gap: string, gap': string, text: string, tail: string)

  function Joined(p: Parts): string {
    p.lead + p.key + p.gap + "=" + p.gap' + p.text + p.tail
  }

  ghost predicate KeyForm(line: string, p: Parts, v: Value, inRange: string -> bool) {
    && line == Joined(p) && Spaces(p.lead) && Spaces(p.gap) && Spaces(p.gap') && Tail(p.tail)
    && p.key != [] && BareName(p.key) && ValueForm(p.text, v, inRange)
  }

  /** A line without its line end: blank, a header, or an assignment of a key that is not there yet. */
  ghost predicate Does(line: string, st: State, st': State, inRange: string -> bool) {
    || (Tail(line) && st' == st)
    || (exists lead, name, tail :: HeaderForm(line, lead, name, tail) && st' == st.(table := name))
    || (exists p, v :: KeyForm(line, p, v, inRange) && FullKey(st.table, p.key) !in st.values
                       && st' == st.(values := st.values[FullKey(st.table, p.key) := v]))
  }

  // ----- scanning -----

  lemma {:induction false} SkipSpaceTo(s: string, i: nat, j: nat)
    requires i <= j <= |s| && (j == |s| || !IsSpace(s[j])) && forall k :: i <= k < j ==> IsSpace(s[k])
    ensures SkipSpace(s, i) == j
    decreases j - i
  {
    if i < j {
      SkipSpaceTo(s, i + 1, j);
    }
  }

  lemma {:induction false} SkippedSpace(s: string, i: nat)
    requires i <= |s|
    ensures var j := SkipSpace(s, i);
      (forall k :: i <= k < j ==> IsSpace(s[k])) && (j == |s| || !IsSpace(s[j]))
    decreases |s| - i
  {
    if i < |s| && IsSpace(s[i]) {
      SkippedSpace(s, i + 1);
    }
  }

  lemma {:induction false} SkipKeyTo(s: string, i: nat, j: nat)
    requires i <= j <= |s| && (j == |s| || !IsBareKeyChar(s[j])) && forall k :: i <= k < j ==> IsBareKeyChar(s[k])
    ensures SkipKey(s, i) == j
    decreases j - i
  {
    if i < j {
      SkipKeyTo(s, i + 1, j);
    }
  }

  lemma {:induction false} SkippedKey(s: string, i: nat)
    requires i <= |s|
    ensures var j := SkipKey(s, i);
      (forall k :: i <= k < j ==> IsBareKeyChar(s[k])) && (j == |s| || !IsBareKeyChar(s[j]))
    decreases |s| - i
  {
    if i < |s| && IsBareKeyChar(s[i]) {
      SkippedKey(s, i + 1);
    }
  }

  predicate InToken(c: char) {
    !IsSpace(c) && c != '#'
  }

  lemma {:induction false} SkipTokenTo(s: string, i: nat, j: nat)
    requires i <= j <= |s| && (j == |s| || !InToken(s[j])) && forall k :: i <= k < j ==> InToken(s[k])
    ensures SkipToken(s, i) == j
    decreases j - i
  {
    if i < j {
      SkipTokenTo(s, i + 1, j);
    }
  }

  lemma {:induction false} SkippedToken(s: string, i: nat)
    requires i <= |s|
    ensures var j := SkipToken(s, i);
      (forall k :: i <= k < j ==> InToken(s[k])) && (j == |s| || !InToken(s[j]))
    decreases |s| - i
  {
    if i < |s| && InToken(s[i]) {
      SkippedToken(s, i + 1);
    }
  }

  lemma {:induction false} FindCharTo(s: string, c: char, i: nat, j: nat)
    requires i <= j <= |s| && (j == |s| || s[j] == c) && forall k :: i <= k < j ==> s[k] != c
    ensures FindChar(s, c, i) == j
    decreases j - i
  {
    if i < j {
      FindCharTo(s, c, i + 1, j);
    }
  }

  lemma {:induction false} FoundChar(s: string, c: char, i: nat)
    requires i <= |s|
    ensures var j := FindChar(s, c, i); (forall k :: i <= k < j ==> s[k] != c) && (j == |s| || s[j] == c)
    decreases |s| - i
  {
    if i < |s| && s[i] != c {
      FoundChar(s, c, i + 1);
    }
  }

  lemma {:induction false} TailIff(s: string, i: nat)
    requires i <= |s|
    ensures OnlyTrailing(s, i) <==> Tail(s[i..])
  {
    SkippedSpace(s, i);
    var j, t := SkipSpace(s, i), s[i..];
    if OnlyTrailing(s, i) {
      var n := j - i;
      assert forall k :: 0 <= k < n ==> t[..n][k] == s[i + k];
      assert n == |t| || t[n] == s[j];
    }
    if Tail(t) {
      var n :| 0 <= n <= |t| && Spaces(t[..n]) && (n == |t| || t[n] == '#');
      forall k | i <= k < i + n
        ensures IsSpace(s[k])
      {
        assert s[k] == t[..n][k - i];
      }
      assert n < |t| ==> s[i + n] == t[n];
      SkipSpaceTo(s, i, i + n);
    }
  }

  // ----- headers -----

  lemma {:induction false} HeaderRead(st: State, line: string, lead: string, name: string, tail: string)
    requires HeaderForm(line, lead, name, tail)
    ensures |lead| < |line| && line[|lead|] == '[' && SkipSpace(line, 0) == |lead|
    ensures HeaderLine(st, line, |lead|) == Ok(st.(table := name))
  {
    hide Tail, OnlyTrailing, SkipSpace, FindChar;
    var i, close := |lead|, |lead| + 1 + |name|;
    assert forall k :: 0 <= k < i ==> line[k] == lead[k];
    assert forall k :: i < k < close ==> line[k] == name[k - i - 1];
    assert line[i] == '[' && line[close] == ']';
    SkipSpaceTo(line, 0, i);
    FindCharTo(line, ']', i, close);
    assert line[i + 1..close] == name && line[close + 1..] == tail;
    TailIff(line, close + 1);
  }

  lemma {:induction false} HeaderFound(st: State, line: string, i: nat) returns (name: string, tail: string)
    requires i < |line| && line[i] == '[' && Spaces(line[..i]) && HeaderLine(st, line, i).Ok?
    ensures HeaderForm(line, line[..i], name, tail) && HeaderLine(st, line, i) == Ok(st.(table := name))
  {
    hide Tail, OnlyTrailing, FindChar;
    var close := FindChar(line, ']', i);
    FoundChar(line, ']', i);
    name, tail := line[i + 1..close], line[close + 1..];
    TailIff(line, close + 1);
    assert line == line[..i] + "[" + name + "]" + tail;
  }

  // ----- values -----

  lemma {:induction false} QuotedRead(s: string, i: nat, out: string, esc: string, u: string)
    requires i + |esc| < |s| && s[i..i + |esc|] == esc && s[i + |esc|] == '"' && Unescape(esc) == Some(u)
    ensures Quoted(s, i, out) == Ok((out + u, i + |esc| + 1))
    decreases |esc|
  {
    hide Unescaped;
    if esc == [] {
      assert out + u == out;
    } else {
      RestOfSlice(s, i, esc, 1);
      if esc[0] == '\\' {
        RestOfSlice(s, i, esc, 2);
        var c, rest := Unescaped(esc[1]).value, Unescape(esc[2..]).value;
        QuotedRead(s, i + 2, out + [c], esc[2..], rest);
        assert out + [c] + rest == out + u;
      } else {
        var rest := Unescape(esc[1..]).value;
        QuotedRead(s, i + 1, out + [esc[0]], esc[1..], rest);
        assert out + [esc[0]] + rest == out + u;
      }
    }
  }

  lemma {:induction false} RestOfSlice(s: string, i: nat, esc: string, n: nat)
    requires i + |esc| < |s| && s[i..i + |esc|] == esc && 0 < n <= |esc|
    ensures s[i] == esc[0] && s[i + n - 1] == esc[n - 1] && s[i + n..i + |esc|] == esc[n..]
  {
    assert s[i..i + |esc|][n - 1] == s[i + n - 1] && s[i..i + |esc|][0] == s[i];
  }

  lemma {:induction false} QuotedFound(s: string, i: nat, out: string) returns (u: string)
    requires i <= |s| && Quoted(s, i, out).Ok?
    ensures var end := Quoted(s, i, out).value.1;
      && s[end - 1] == '"' && Unescape(s[i..end - 1]) == Some(u) && Quoted(s, i, out).value.0 == out + u
    decreases |s| - i
  {
    hide Unescaped;
    var end := Quoted(s, i, out).value.1;
    if s[i] == '"' {
      u := [];
      assert s[i..end - 1] == [] && out + u == out;
    } else if s[i] == '\\' {
      var c := Unescaped(s[i + 1]).value;
      var rest := QuotedFound(s, i + 2, out + [c]);
      u := [c] + rest;
      var esc := s[i..end - 1];
      assert esc[0] == s[i] && esc[1] == s[i + 1] && esc[2..] == s[i + 2..end - 1];
      assert out + u == out + [c] + rest;
    } else {
      var rest := QuotedFound(s, i + 1, out + [s[i]]);
      u := [s[i]] + rest;
      var esc := s[i..end - 1];
      assert esc[0] == s[i] && esc[1..] == s[i + 1..end - 1];
      assert out + u == out + [s[i]] + rest;
    }
  }

  lemma {:induction false} TailStarts(tail: string)
    requires Tail(tail) && tail != []
    ensures !InToken(tail[0])
  {
    var n :| 0 <= n <= |tail| && Spaces(tail[..n]) && (n == |tail| || tail[n] == '#');
    if n > 0 {
      assert tail[..n][0] == tail[0];
    }
  }

  lemma {:induction false} ValueRead(pre: string, text: string, tail: string, v: Value, inRange: string -> bool)
    requires ValueForm(text, v, inRange) && Tail(tail)
    ensures ReadValue(pre + text + tail, |pre|, inRange) == Ok((v, |pre| + |text|))
  {
    hide Quoted, Scalar, SkipToken, Tail, Unescape;
    var line, i, j := pre + text + tail, |pre|, |pre| + |text|;
    assert forall k :: 0 <= k < |text| ==> line[i + k] == text[k];
    if text[0] == '"' {
      var esc := text[1..|text| - 1];
      assert line[i + 1..i + 1 + |esc|] == esc && line[i + 1 + |esc|] == '"';
      QuotedRead(line, i + 1, [], esc, v.s);
      assert [] + v.s == v.s;
    } else {
      if tail != [] {
        TailStarts(tail);
        assert line[j] == tail[0];
      }
      forall k | i <= k < j
        ensures InToken(line[k])
      {
        assert line[k] == text[k - i];
      }
      SkipTokenTo(line, i, j);
      assert line[i..j] == text;
    }
  }

  lemma {:induction false} ValueFound(line: string, i: nat, inRange: string -> bool)
    requires i < |line| && InToken(line[i]) && ReadValue(line, i, inRange).Ok?
    ensures var (v, end) := ReadValue(line, i, inRange).value; i < end && ValueForm(line[i..end], v, inRange)
  {
    hide Quoted, Scalar, SkipToken, Unescape;
    var (v, end) := ReadValue(line, i, inRange).value;
    var text := line[i..end];
    if line[i] == '"' {
      var u := QuotedFound(line, i + 1, []);
      assert [] + u == u && text[1..|text| - 1] == line[i + 1..end - 1];
      assert text[0] == '"' && text[|text| - 1] == line[end - 1];
    } else {
      SkippedToken(line, i);
      assert forall k :: 0 <= k < |text| ==> text[k] == line[i + k];
    }
  }

  // ----- assignments -----

  lemma {:induction false} PartsPlaces(p: Parts)
    requires p.text != []
    ensures var line := Joined(p);
      var a := |p.lead|;
      var b := a + |p.key|;
      var c := b + |p.gap|;
      var d := c + 1 + |p.gap'|;
      var e := d + |p.text|;
      && e <= |line| && line[..a] == p.lead && line[a..b] == p.key && line[b..c] == p.gap && line[c] == '='
      && line[c + 1..d] == p.gap' && line[d..e] == p.text && line[e..] == p.tail
      && line == line[..d] + p.text + p.tail
  {
  }

  lemma {:induction false} SkipSlice(line: string, i: nat, j: nat)
    requires i <= j <= |line| && Spaces(line[i..j]) && (j == |line| || !IsSpace(line[j]))
    ensures SkipSpace(line, i) == j
  {
    forall k | i <= k < j
      ensures IsSpace(line[k])
    {
      assert line[k] == line[i..j][k - i];
    }
    SkipSpaceTo(line, i, j);
  }

  lemma {:induction false} SkipKeySlice(line: string, i: nat, j: nat)
    requires i <= j < |line| && BareName(line[i..j]) && !IsBareKeyChar(line[j])
    ensures SkipKey(line, i) == j
  {
    forall k | i <= k < j
      ensures IsBareKeyChar(line[k])
    {
      assert line[k] == line[i..j][k - i];
    }
    SkipKeyTo(line, i, j);
  }

  lemma ValueStarts(text: string, v: Value, inRange: string -> bool)
    requires ValueForm(text, v, inRange)
    ensures text != [] && InToken(text[0])
  {
    hide Scalar, Unescape;
  }

  lemma SpacesNotKey(s: string)
    requires Spaces(s) && s != []
    ensures !IsBareKeyChar(s[0])
  {
  }

  lemma {:induction false} KeyRead(st: State, line: string, p: Parts, v: Value, inRange: string -> bool)
    requires KeyForm(line, p, v, inRange)
    ensures SkipSpace(line, 0) == |p.lead| < |line| && IsBareKeyChar(line[|p.lead|])
    ensures var full := FullKey(st.table, p.key);
      KeyLine(st, line, |p.lead|, inRange) ==
        if full in st.values then Err(DuplicateKey) else Ok(st.(values := st.values[full := v]))
  {
    hide Tail, OnlyTrailing, SkipSpace, SkipKey, ReadValue, ValueForm, Joined, FullKey, Spaces, BareName;
    ValueStarts(p.text, v, inRange);
    PartsPlaces(p);
    var a := |p.lead|;
    var b := a + |p.key|;
    var c := b + |p.gap|;
    var d := c + 1 + |p.gap'|;
    var e := d + |p.text|;
    assert line[a] == p.key[0] && line[d] == p.text[0];
    KeyStarts(p.key);
    SkipSlice(line, 0, a);
    if p.gap != [] {
      SpacesNotKey(p.gap);
      assert line[b] == p.gap[0];
    }
    SkipKeySlice(line, a, b);
    SkipSlice(line, b, c);
    SkipSlice(line, c + 1, d);
    ValueRead(line[..d], p.text, p.tail, v, inRange);
    TailIff(line, e);
  }

  lemma KeyStarts(key: string)
    requires key != [] && BareName(key)
    ensures IsBareKeyChar(key[0]) && !IsSpace(key[0])
  {
  }

  lemma {:induction false} KeyFound(st: State, line: string, i: nat, inRange: string -> bool)
    returns (p: Parts, v: Value)
    requires i < |line| && Spaces(line[..i]) && KeyLine(st, line, i, inRange).Ok?
    ensures KeyForm(line, p, v, inRange) && FullKey(st.table, p.key) !in st.values
    ensures KeyLine(st, line, i, inRange) == Ok(st.(values := st.values[FullKey(st.table, p.key) := v]))
  {
    hide Tail, OnlyTrailing, SkipSpace, SkipKey, ReadValue, ValueForm, FullKey;
    var b := SkipKey(line, i);
    var c := SkipSpace(line, b);
    var d := SkipSpace(line, c + 1);
    SkippedKey(line, i);
    SkippedSpace(line, b);
    SkippedSpace(line, c + 1);
    var (x, e) := ReadValue(line, d, inRange).value;
    v := x;
    ValueFound(line, d, inRange);
    TailIff(line, e);
    p := Parts(line[..i], line[i..b], line[b..c], line[c + 1..d], line[d..e], line[e..]);
    Parted(line, i, b, c, d, e);
  }

  lemma Parted(line: string, i: nat, b: nat, c: nat, d: nat, e: nat)
    requires i <= b <= c < d <= e <= |line| && line[c] == '='
    ensures line == line[..i] + line[i..b] + line[b..c] + "=" + line[c + 1..d] + line[d..e] + line[e..]
  {
  }

  // ----- the theorem -----

  /** A line is accepted exactly when it is blank or a comment, a header, or an assignment of a new key, with any
      spaces and trailing comment; and it does just that. */
  lemma {:induction false} LineIff(st: State, raw: string, st': State, inRange: string -> bool)
    ensures Line(st, raw, inRange) == Ok(st') <==> Does(StripReturn(raw), st, st', inRange)
  {
    hide HeaderLine, KeyLine, Tail, SkipSpace, HeaderForm, KeyForm, FullKey, OnlyTrailing, StripReturn;
    var line := StripReturn(raw);
    var i := SkipSpace(line, 0);
    SkippedSpace(line, 0);
    assert Spaces(line[..i]);
    assert line[0..] == line;
    TailIff(line, 0);
    BlankIff(line);
    if Line(st, raw, inRange) == Ok(st') && !Tail(line) {
      if line[i] == '[' {
        var name, tail := HeaderFound(st, line, i);
      } else {
        var p, v := KeyFound(st, line, i, inRange);
      }
    }
    if Does(line, st, st', inRange) && !Tail(line) {
      if lead, name, tail :| HeaderForm(line, lead, name, tail) && st' == st.(table := name) {
        HeaderRead(st, line, lead, name, tail);
      } else {
        var p, v :| KeyForm(line, p, v, inRange) && FullKey(st.table, p.key) !in st.values
          && st' == st.(values := st.values[FullKey(st.table, p.key) := v]);
        KeyRead(st, line, p, v, inRange);
        NoBracket(line, p, v, inRange);
      }
    }
    if Does(line, st, st', inRange) && Tail(line) {
      BlankOnly(st, line, st', inRange);
    }
  }

  lemma BlankIff(line: string)
    ensures OnlyTrailing(line, 0) <==> var i := SkipSpace(line, 0); i >= |line| || line[i] == '#'
  {
  }

  lemma {:induction false} NoBracket(line: string, p: Parts, v: Value, inRange: string -> bool)
    requires KeyForm(line, p, v, inRange)
    ensures |p.lead| < |line| && line[|p.lead|] != '['
  {
    hide ValueForm;
    assert line[|p.lead|] == p.key[0];
  }

  /** A blank line has no other form. */
  lemma {:induction false} BlankOnly(st: State, line: string, st': State, inRange: string -> bool)
    requires Tail(line) && Does(line, st, st', inRange)
    ensures st' == st
  {
    hide Tail, HeaderForm, KeyForm, FullKey, SkipSpace, OnlyTrailing;
    assert line[0..] == line;
    TailIff(line, 0);
    BlankIff(line);
    if lead, name, tail :| HeaderForm(line, lead, name, tail) && st' == st.(table := name) {
      HeaderRead(st, line, lead, name, tail);
      assert false;
    } else if p, v :| KeyForm(line, p, v, inRange) && FullKey(st.table, p.key) !in st.values
                    && st' == st.(values := st.values[FullKey(st.table, p.key) := v]) {
      KeyRead(st, line, p, v, inRange);
      NotComment(line[|p.lead|]);
      assert false;
    }
  }

  lemma NotComment(c: char)
    requires IsBareKeyChar(c)
    ensures c != '#'
  {
  }
}
