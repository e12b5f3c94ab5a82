/** Comments inside a table, as in the shipped configuration, and the characters of bare names. */
module TomlSample {
  import opened Records
  import opened Toml
  import opened TomlLines
  import opened TomlRoundTrip

  /** Letters, digits, the low line and the hyphen. */
  lemma NameCharacters(c: char)
    ensures IsBareKeyChar(c)
      <==> c in "ABCDEFGHIJKLMNOPQRSTUVWXYZ" || c in "abcdefghijklmnopqrstuvwxyz" || c in "0123456789_-"
  {
  }

  /** A string without quotes, backslashes, line ends and tabs is written as it is. */
  lemma {:induction false} PlainEscape(s: string)
    requires forall i :: 0 <= i < |s| ==> s[i] != '"' && s[i] != '\\' && s[i] != '\n' && s[i] != '\t' && s[i] != '\r'
    ensures Escape(s) == s
  {
    if s != [] {
      PlainEscape(s[..|s| - 1]);
    }
  }

  const PLAIN: Layout := Layout([], " ", " ", [], Lf)

  /** A table with a comment, an assignment and a blank line. */
  function Document(table: string, comment: string, key: string, value: string): seq<Item> {
    [Header(table, PLAIN), Blank(PLAIN.(tail := comment)), Assign(Entry(key, Str(value)), PLAIN), Blank(PLAIN)]
  }

  function DocumentText(table: string, comment: string, key: string, value: string): string {
    "[" + table + "]" + "\n"
    + (comment + "\n" + (key + " " + "=" + " " + ("\"" + value + "\"") + "\n" + ([] + "\n")))
  }

  /** Names of the required form, a comment that stays on its line, and a value without anything to escape. */
  ghost predicate Simple(table: string, comment: string, key: string, value: string) {
    && table != [] && BareName(table) && key != [] && BareName(key) && Escape(value) == value
    && comment != [] && comment[0] == '#' && NoLineFeed(comment) && comment[|comment| - 1] != '\r'
  }

  lemma {:induction false} DocumentIsGood(table: string, comment: string, key: string, value: string)
    requires Simple(table, comment, key, value)
    ensures GoodItems(Document(table, comment, key, value))
  {
    hide Escape;
    assert Tail([]) by { assert Spaces([][..0]); }
    assert Tail(comment) by { assert Spaces(comment[..0]); }
  }

  lemma {:induction false} WriteFirst(items: seq<Item>, line: string, rest: string)
    requires GoodItems(items) && items != [] && items[0].l.eol == Lf
    requires ItemText(items[0]) == line && Write(items[1..], true) == rest
    ensures Write(items, true) == line + "\n" + rest
  {
    hide ItemText;
    assert line + [] == line;
  }

  lemma {:induction false} TableText(t: string)
    requires GoodItem(Header(t, PLAIN))
    ensures ItemText(Header(t, PLAIN)) == "[" + t + "]"
  {
    hide GoodItem;
    Bare("[" + t + "]");
    assert [] + "[" == "[";
  }

  lemma Bare(s: string)
    ensures s + [] == s && [] + s == s
  {
  }

  lemma {:induction false} AssignText(k: string, v: string)
    requires GoodItem(Assign(Entry(k, Str(v)), PLAIN)) && Escape(v) == v
    ensures ItemText(Assign(Entry(k, Str(v)), PLAIN)) == k + " " + "=" + " " + ("\"" + v + "\"")
  {
    hide GoodItem, Escape;
    Bare(k);
    Bare(k + " " + "=" + " " + ("\"" + v + "\""));
  }

  /** Four lines. */
  lemma {:induction false} WriteFour(p: seq<Item>, a: string, b: string, c: string, d: string)
    requires GoodItems(p) && |p| == 4 && forall i :: 0 <= i < 4 ==> p[i].l.eol == Lf
    requires ItemText(p[0]) == a && ItemText(p[1]) == b && ItemText(p[2]) == c && ItemText(p[3]) == d
    ensures Write(p, true) == a + "\n" + (b + "\n" + (c + "\n" + (d + "\n")))
  {
    hide GoodItem, Write, ItemText;
    NothingWritten(p[4..]);
    assert p[3..][1..] == p[4..] && p[2..][1..] == p[3..] && p[1..][1..] == p[2..];
    Bare(d + "\n");
    WriteFirst(p[3..], d, "");
    WriteFirst(p[2..], c, d + "\n");
    WriteFirst(p[1..], b, c + "\n" + (d + "\n"));
    WriteFirst(p, a, b + "\n" + (c + "\n" + (d + "\n")));
  }

  lemma {:induction false} DocumentWritten(table: string, comment: string, key: string, value: string)
    requires Simple(table, comment, key, value)
    ensures var p := Document(table, comment, key, value);
      GoodItems(p) && Write(p, true) == DocumentText(table, comment, key, value)
  {
    DocumentIsGood(table, comment, key, value);
    hide Escape, GoodItem, Write, ItemText;
    var p := Document(table, comment, key, value);
    assert GoodItem(p[0]) && GoodItem(p[1]) && GoodItem(p[2]) && GoodItem(p[3]);
    TableText(table);
    AssignText(key, value);
    BlankText(p[1]);
    BlankText(p[3]);
    WriteFour(p, "[" + table + "]", comment, key + " " + "=" + " " + ("\"" + value + "\""), []);
  }

  lemma BlankText(i: Item)
    requires GoodItem(i) && i.Blank?
    ensures ItemText(i) == i.l.tail
  {
    hide GoodItem;
  }

  lemma NothingWritten(items: seq<Item>)
    requires GoodItems(items) && items == []
    ensures Write(items, true) == ""
  {
  }

  /** A comment does not end the table: the key below it belongs to the table above. */
  lemma {:induction false} DocumentParses(table: string, comment: string, key: string, value: string,
                                          inRange: string -> bool)
    requires Simple(table, comment, key, value)
    ensures Parse(DocumentText(table, comment, key, value), inRange) == Parsed(map[table + "." + key := Str(value)])
  {
    var p := Document(table, comment, key, value);
    DocumentWritten(table, comment, key, value);
    hide Simple;
    RoundTrip(p, true, inRange);
    DocumentMeans(table, comment, key, value);
  }

  lemma {:induction false} DocumentMeans(table: string, comment: string, key: string, value: string)
    requires table != []
    ensures var p := Document(table, comment, key, value);
      DistinctKeys(p) && Flatten(p, 4) == map[table + "." + key := Str(value)]
  {
    var p := Document(table, comment, key, value);
    var full := table + "." + key;
    hide Flatten, TableAt;
    AtStart(p);
    OneMoreItem(p, 0);
    OneMoreItem(p, 1);
    OneMoreItem(p, 2);
    OneMoreItem(p, 3);
    assert Flatten(p, 2) == map[];
    assert Flatten(p, 3) == map[][full := Str(value)];
  }

  lemma {:induction false} OneMoreItem(items: seq<Item>, n: nat)
    requires n < |items|
    ensures TableAt([], items, n + 1)
      == match items[n] case Header(t, _) => t case Assign(_, _) => TableAt([], items, n)
         case Blank(_) => TableAt([], items, n)
    ensures Flatten(items, n + 1)
      == match items[n]
         case Header(_, _) => Flatten(items, n)
         case Assign(e, _) => Flatten(items, n)[FullKey(TableAt([], items, n), e.key) := e.value]
         case Blank(_) => Flatten(items, n)
  {
  }

  /** As in the shipped file: the address under its comment is a key of the network table. */
  lemma {:induction false} PassageParses(inRange: string -> bool)
    ensures Parse(DocumentText("network", "# UDP listen address", "udp_bind", "0.0.0.0"), inRange)
      == Parsed(map["network" + "." + "udp_bind" := Str("0.0.0.0")])
  {
    PlainEscape("0.0.0.0");
    hide Escape, DocumentText;
    DocumentParses("network", "# UDP listen address", "udp_bind", "0.0.0.0", inRange);
  }
}
