/** Which texts the viewer takes, and for what: any text, not only those the server writes. */
module ClientAccepts {
  import opened Records
  import opened Json
  import opened ClientMessage

  // ----- members -----

  /** A member has this value: the last of its name counts. */
  predicate Has(m: seq<Member>, key: string, v: Json) {
    exists i :: 0 <= i < |m| && m[i] == Member(key, v) && forall j :: i < j < |m| ==> m[j].key != key
  }

  predicate Lacks(m: seq<Member>, key: string) {
    forall i :: 0 <= i < |m| ==> m[i].key != key
  }

  lemma {:induction false} LookupIs(m: seq<Member>, key: string)
    ensures match Lookup(m, key)
      case None => Lacks(m, key)
      case Some(v) => Has(m, key, v) && forall w :: Has(m, key, w) ==> w == v
  {
    if m != [] {
      var n := |m| - 1;
      if m[n].key == key {
        assert m[n] == Member(key, m[n].value);
      } else {
        LookupIs(m[..n], key);
        if Lookup(m, key).Some? {
          var v := Lookup(m, key).value;
          var i :| 0 <= i < n && m[..n][i] == Member(key, v) && forall j :: i < j < n ==> m[..n][j].key != key;
          assert m[i] == Member(key, v) && forall j :: i < j < n ==> m[j].key == m[..n][j].key;
        } else {
          assert forall i :: 0 <= i < n ==> m[i].key == m[..n][i].key;
        }
      }
    }
  }

  lemma {:induction false} LookupIff(m: seq<Member>, key: string, v: Json)
    ensures Lookup(m, key) == Some(v) <==> Has(m, key, v)
    ensures Lookup(m, key) == None <==> Lacks(m, key)
  {
    LookupIs(m, key);
  }

  // ----- values -----

  /** A finite number of this value. */
  predicate Says(v: Json, n: Value) {
    IsFiniteNumber(v) && ValueIn(v) == n
  }

  predicate SaysAll(v: Json, ns: seq<Value>) {
    v.Arr? && |v.items| == |ns| && forall i :: 0 <= i < |ns| ==> Says(v.items[i], ns[i])
  }

  predicate IsText(v: Json, s: string) {
    v.Str? && v.s == s
  }

  /** A row of eleven columns. */
  predicate RowSays(row: Json, o: ClientObject) {
    && row.Arr? && |row.items| == 11
    && var c := row.items;
       && Says(c[0], o.id) && IsInteger(c[1]) && |o.pos| == 3 && Says(c[2], o.pos[0]) && Says(c[3], o.pos[1])
       && Says(c[4], o.pos[2]) && Says(c[8], o.confidence) && Says(c[9], o.intensity) && Says(c[10], o.flags)
       && o.category == NameOf(IntegerValue(ValueIn(c[1])).value)
       && if o.vel.None? then c[5].Null? && c[6].Null? && c[7].Null?
          else |o.vel.value| == 3 && Says(c[5], o.vel.value[0]) && Says(c[6], o.vel.value[1])
               && Says(c[7], o.vel.value[2])
  }

  /** Six names; any other number is unknown. */
  function NameOf(n: int): string {
    if 0 <= n < 6 then ["unknown", "debris", "star", "comet", "satellite", "groundHot"][n] else "unknown"
  }

  predicate PointSays(row: Json, p: ClientTrailPoint) {
    |p.pos| == 3 && SaysAll(row, [p.id, p.t] + p.pos)
  }

  ghost predicate SatelliteSays(v: Json, s: ClientSatellite) {
    && v.Obj? && (exists x :: Has(v.members, "id", x) && Says(x, s.id))
    && (exists x :: Has(v.members, "seq", x) && Says(x, s.sequence))
    && |s.pos| == 3 && (exists x :: Has(v.members, "pos", x) && SaysAll(x, s.pos))
    && |s.vel| == 3 && (exists x :: Has(v.members, "vel", x) && SaysAll(x, s.vel))
  }

  // ----- rows -----

  lemma {:induction false} RowIff(row: Json, o: ClientObject)
    ensures ParseObjectRow(row) == Ok(o) <==> RowSays(row, o)
  {
    hide IsFiniteNumber, ValueIn, IntegerValue;
    if row.Arr? && |row.items| == 11 {
      ThreeNumbers(row.items, 2, o.pos);
      ThreeNumbers(row.items, 5, if o.vel.Some? then o.vel.value else []);
      NullIsNoNumber();
      CategoryIs();
    }
  }

  lemma CategoryIs()
    ensures forall n :: CategoryName(n) == NameOf(n)
  {
  }

  lemma NullIsNoNumber()
    ensures forall v: Json :: v.Null? ==> !IsFiniteNumber(v)
  {
  }

  /** Three columns from `k` on. */
  lemma {:induction false} ThreeNumbers(c: seq<Json>, k: nat, ns: seq<Value>)
    requires k + 3 <= |c|
    ensures AreFiniteNumbers(c[k..k + 3])
      <==> IsFiniteNumber(c[k]) && IsFiniteNumber(c[k + 1]) && IsFiniteNumber(c[k + 2])
    ensures AreFiniteNumbers(c[k..k + 3]) ==>
      (NumbersOf(c[k..k + 3]) == ns
       <==> |ns| == 3 && ValueIn(c[k]) == ns[0] && ValueIn(c[k + 1]) == ns[1] && ValueIn(c[k + 2]) == ns[2])
  {
    hide IsFiniteNumber, ValueIn;
    var s := c[k..k + 3];
    assert s[0] == c[k] && s[1] == c[k + 1] && s[2] == c[k + 2];
    if AreFiniteNumbers(s) && |ns| == 3 && ValueIn(c[k]) == ns[0] && ValueIn(c[k + 1]) == ns[1]
       && ValueIn(c[k + 2]) == ns[2] {
      assert NumbersOf(s) == ns;
    }
  }

  predicate ArrayOf(v: Json, ns: seq<Value>) {
    IsNumberArray(v, |ns|) && NumbersOf(v.items) == ns
  }

  lemma {:induction false} NumbersIff(v: Json, ns: seq<Value>)
    ensures ArrayOf(v, ns) <==> SaysAll(v, ns)
  {
    hide IsFiniteNumber, ValueIn;
    if SaysAll(v, ns) {
      assert forall i :: 0 <= i < |v.items| ==> IsFiniteNumber(v.items[i]);
      assert NumbersOf(v.items) == ns;
    }
    if IsNumberArray(v, |ns|) && NumbersOf(v.items) == ns {
      assert forall i :: 0 <= i < |ns| ==> Says(v.items[i], ns[i]);
    }
  }

  lemma {:induction false} PointIff(row: Json, p: ClientTrailPoint)
    ensures ParseTrailRow(row) == Ok(p) <==> PointSays(row, p)
  {
    hide IsFiniteNumber, ValueIn;
    var ns := [p.id, p.t] + p.pos;
    NumbersIff(row, ns);
    if ParseTrailRow(row) == Ok(p) {
      assert NumbersOf(row.items) == ns;
    }
    if PointSays(row, p) {
      assert NumbersOf(row.items)[2..5] == p.pos;
    }
  }

  /** Every row says its object. */
  lemma {:induction false} RowsIff(rows: seq<Json>, objects: seq<ClientObject>)
    ensures ParseRows(rows) == Ok(objects)
      <==> |rows| == |objects| && forall i :: 0 <= i < |rows| ==> RowSays(rows[i], objects[i])
  {
    hide ParseObjectRow, RowSays;
    if rows != [] && objects != [] {
      RowIff(rows[0], objects[0]);
      RowsIff(rows[1..], objects[1..]);
      assert [objects[0]] + objects[1..] == objects;
      if |rows| == |objects| && forall i :: 0 <= i < |rows| ==> RowSays(rows[i], objects[i]) {
        assert forall i :: 0 <= i < |rows| - 1 ==> RowSays(rows[1..][i], objects[1..][i]);
      }
      if ParseRows(rows) == Ok(objects) {
        var first, rest := ParseObjectRow(rows[0]), ParseRows(rows[1..]);
        assert [first.value] + rest.value == objects;
        assert first.value == objects[0] && rest.value == objects[1..];
        assert forall i :: 1 <= i < |rows| ==> rows[1..][i - 1] == rows[i] && objects[1..][i - 1] == objects[i];
      }
    }
  }

  lemma {:induction false} PointsIff(rows: seq<Json>, points: seq<ClientTrailPoint>)
    ensures ParseTrailRows(rows) == Ok(points)
      <==> |rows| == |points| && forall i :: 0 <= i < |rows| ==> PointSays(rows[i], points[i])
  {
    hide ParseTrailRow, PointSays;
    if rows != [] && points != [] {
      PointIff(rows[0], points[0]);
      PointsIff(rows[1..], points[1..]);
      assert [points[0]] + points[1..] == points;
      if |rows| == |points| && forall i :: 0 <= i < |rows| ==> PointSays(rows[i], points[i]) {
        assert forall i :: 0 <= i < |rows| - 1 ==> PointSays(rows[1..][i], points[1..][i]);
      }
      if ParseTrailRows(rows) == Ok(points) {
        var first, rest := ParseTrailRow(rows[0]), ParseTrailRows(rows[1..]);
        assert [first.value] + rest.value == points;
        assert first.value == points[0] && rest.value == points[1..];
        assert forall i :: 1 <= i < |rows| ==> rows[1..][i - 1] == rows[i] && points[1..][i - 1] == points[i];
      }
    }
  }

  // ----- the satellite -----

  lemma {:induction false} SatelliteIff(v: Json, s: ClientSatellite)
    ensures !v.Null? ==> (ParseSatellite(Some(v)) == Ok(Some(s)) <==> SatelliteSays(v, s))
  {
    hide IsFiniteNumber, ValueIn, Has, SaysAll, AreFiniteNumbers;
    if v.Obj? {
      var m := v.members;
      NumberMember(m, "id", s.id);
      NumberMember(m, "seq", s.sequence);
      NumbersMember(m, "pos", s.pos);
      NumbersMember(m, "vel", s.vel);
    }
  }

  lemma SatelliteIsObject(v: Json, s: ClientSatellite)
    ensures SatelliteSays(v, s) ==> v.Obj?
  {
    hide Has;
  }

  lemma {:induction false} NumberMember(m: seq<Member>, key: string, n: Value)
    ensures HasNumber(m, key) && NumberAt(m, key) == n <==> exists x :: Has(m, key, x) && Says(x, n)
  {
    hide IsFiniteNumber, ValueIn, Has;
    LookupIs(m, key);
    forall x
      ensures Has(m, key, x) <==> Lookup(m, key) == Some(x)
    {
      LookupIff(m, key, x);
    }
  }

  lemma {:induction false} NumbersMember(m: seq<Member>, key: string, ns: seq<Value>)
    ensures HasNumbers(m, key, |ns|) && NumbersAt(m, key, |ns|) == ns <==> exists x :: Has(m, key, x) && SaysAll(x, ns)
  {
    hide IsFiniteNumber, ValueIn, Has, SaysAll, AreFiniteNumbers;
    forall x
      ensures Has(m, key, x) <==> Lookup(m, key) == Some(x)
      ensures ArrayOf(x, ns) <==> SaysAll(x, ns)
    {
      LookupIff(m, key, x);
      NumbersIff(x, ns);
    }
  }

  // ----- whole messages -----

  ghost predicate TextMember(m: seq<Member>, key: string, s: string) {
    exists x :: Has(m, key, x) && IsText(x, s)
  }

  ghost predicate SatelliteMember(m: seq<Member>, sat: Option<ClientSatellite>) {
    if sat.None? then Lacks(m, "satellite") || Has(m, "satellite", Null)
    else exists x :: Has(m, "satellite", x) && SatelliteSays(x, sat.value)
  }

  ghost predicate RowsMember(m: seq<Member>, objects: seq<ClientObject>) {
    exists x :: Has(m, "objects", x) && x.Arr? && |x.items| == |objects|
                && forall i :: 0 <= i < |objects| ==> RowSays(x.items[i], objects[i])
  }

  ghost predicate PointsMember(m: seq<Member>, points: seq<ClientTrailPoint>) {
    if Lacks(m, "trailPoints") then points == []
    else exists x :: Has(m, "trailPoints", x) && x.Arr? && |x.items| == |points|
                     && forall i :: 0 <= i < |points| ==> PointSays(x.items[i], points[i])
  }

  ghost predicate LoadedMemberOf(m: seq<Member>, key: string, l: Loaded) {
    exists x :: Has(m, key, x) && x.Obj? && l == Load(x)
  }

  ghost predicate StateSays(m: seq<Member>, msg: Message)
    requires msg.State?
  {
    && TextMember(m, "serverTime", msg.serverTime)
    && (if msg.lastDataTime.None? then Has(m, "lastDataTime", Null)
        else TextMember(m, "lastDataTime", msg.lastDataTime.value))
    && SatelliteMember(m, msg.satellite) && RowsMember(m, msg.objects) && LoadedMemberOf(m, "stats", msg.stats)
    && PointsMember(m, msg.trailPoints)
  }

  ghost predicate HelloSays(m: seq<Member>, msg: Message)
    requires msg.Hello?
  {
    && (exists x :: Has(m, "protocolVersion", x) && Says(x, Value(false, 1, 0)))
    && TextMember(m, "serverTime", msg.serverTime)
    && (exists x :: Has(m, "broadcastHz", x) && Says(x, msg.broadcastHz))
    && LoadedMemberOf(m, "limits", msg.limits)
  }

  ghost predicate MessageSays(v: Json, msg: Message) {
    && v.Obj? && TextMember(v.members, "type", if msg.Hello? then "hello" else "state")
    && if msg.Hello? then HelloSays(v.members, msg) else StateSays(v.members, msg)
  }

  lemma {:induction false} TextIff(m: seq<Member>, key: string, s: string)
    ensures HasString(m, key) && Lookup(m, key).value.s == s <==> TextMember(m, key, s)
  {
    hide Has;
    forall x
      ensures Has(m, key, x) <==> Lookup(m, key) == Some(x)
    {
      LookupIff(m, key, x);
    }
  }

  lemma {:induction false} LoadedIff(m: seq<Member>, key: string, l: Loaded)
    ensures var x := Lookup(m, key); (x.Some? && x.value.Obj? && l == Load(x.value)) <==> LoadedMemberOf(m, key, l)
  {
    hide Has, Load;
    forall x
      ensures Has(m, key, x) <==> Lookup(m, key) == Some(x)
    {
      LookupIff(m, key, x);
    }
  }

  lemma {:induction false} RowsMemberIff(m: seq<Member>, objects: seq<ClientObject>)
    ensures var x := Lookup(m, "objects");
      (x.Some? && x.value.Arr? && ParseRows(x.value.items) == Ok(objects)) <==> RowsMember(m, objects)
  {
    hide Has, RowSays, ParseRows;
    forall x
      ensures Has(m, "objects", x) <==> Lookup(m, "objects") == Some(x)
      ensures x.Arr? ==> (ParseRows(x.items) == Ok(objects)
                          <==> |x.items| == |objects|
                               && forall i :: 0 <= i < |x.items| ==> RowSays(x.items[i], objects[i]))
    {
      LookupIff(m, "objects", x);
      if x.Arr? {
        RowsIff(x.items, objects);
      }
    }
  }

  lemma {:induction false} PointsMemberIff(m: seq<Member>, points: seq<ClientTrailPoint>)
    ensures ParseTrailPoints(Lookup(m, "trailPoints")) == Ok(points) <==> PointsMember(m, points)
  {
    hide Has, PointSays, ParseTrailRows, Lacks;
    LookupIff(m, "trailPoints", Null);
    forall x
      ensures Has(m, "trailPoints", x) <==> Lookup(m, "trailPoints") == Some(x)
      ensures x.Arr? ==> (ParseTrailRows(x.items) == Ok(points)
                          <==> |x.items| == |points|
                               && forall i :: 0 <= i < |x.items| ==> PointSays(x.items[i], points[i]))
    {
      LookupIff(m, "trailPoints", x);
      if x.Arr? {
        PointsIff(x.items, points);
      }
    }
  }

  lemma {:induction false} SatelliteMemberIff(m: seq<Member>, sat: Option<ClientSatellite>)
    ensures ParseSatellite(Lookup(m, "satellite")) == Ok(sat) <==> SatelliteMember(m, sat)
  {
    hide Has, SatelliteSays, Lacks, HasNumber, HasNumbers;
    LookupIff(m, "satellite", Null);
    forall x
      ensures Has(m, "satellite", x) <==> Lookup(m, "satellite") == Some(x)
      ensures sat.Some? && !x.Null? ==> (ParseSatellite(Some(x)) == Ok(sat) <==> SatelliteSays(x, sat.value))
      ensures sat.Some? && SatelliteSays(x, sat.value) ==> !x.Null?
    {
      LookupIff(m, "satellite", x);
      if sat.Some? {
        SatelliteIff(x, sat.value);
        SatelliteIsObject(x, sat.value);
      }
    }
  }

  lemma {:induction false} LastTimeIff(m: seq<Member>, t: Option<string>)
    ensures var x := Lookup(m, "lastDataTime");
      (x.Some? && (if t.None? then x.value.Null? else x.value.Str? && x.value.s == t.value))
      <==> if t.None? then Has(m, "lastDataTime", Null) else TextMember(m, "lastDataTime", t.value)
  {
    hide Has;
    LookupIff(m, "lastDataTime", Null);
    if t.Some? {
      TextIff(m, "lastDataTime", t.value);
    }
  }

  lemma {:induction false} StateIff(m: seq<Member>, msg: Message)
    requires msg.State?
    ensures ParseState(m) == Ok(msg) <==> StateSays(m, msg)
  {
    hide HasString, TextMember, SatelliteMember, RowsMember, PointsMember, LoadedMemberOf, Has;
    hide ParseSatellite, ParseRows, ParseTrailPoints, Load, Lookup;
    TextIff(m, "serverTime", msg.serverTime);
    LastTimeIff(m, msg.lastDataTime);
    SatelliteMemberIff(m, msg.satellite);
    RowsMemberIff(m, msg.objects);
    LoadedIff(m, "stats", msg.stats);
    PointsMemberIff(m, msg.trailPoints);
  }

  lemma {:induction false} HelloIff(m: seq<Member>, msg: Message)
    requires msg.Hello?
    ensures ParseHello(m) == Ok(msg) <==> HelloSays(m, msg)
  {
    hide HasString, HasNumber, TextMember, LoadedMemberOf, Has, Load, Lookup;
    NumberMember(m, "protocolVersion", Value(false, 1, 0));
    if HasNumber(m, "protocolVersion") {
      OneOnly(NumberAt(m, "protocolVersion"));
    }
    TextIff(m, "serverTime", msg.serverTime);
    NumberMember(m, "broadcastHz", msg.broadcastHz);
    LoadedIff(m, "limits", msg.limits);
  }

  lemma OneOnly(v: Value)
    ensures IntegerValue(v) == Some(1) <==> v == Value(false, 1, 0)
  {
  }

  /** The viewer takes a text for a message exactly when it is the text of a JSON object with the message's members. */
  lemma {:induction false} TakenIff(text: string, msg: Message)
    ensures ParseStateMessage(text) == Ok(msg) <==> ParseText(text).Some? && MessageSays(ParseText(text).value, msg)
  {
    hide ParseText, ParseHello, ParseState, HelloSays, StateSays, TextMember, Lookup, HasString;
    var v := ParseText(text);
    if v.Some? && v.value.Obj? {
      var m := v.value.members;
      TextIff(m, "type", "hello");
      TextIff(m, "type", "state");
      HelloOnly(m);
      if msg.Hello? {
        HelloIff(m, msg);
      } else {
        StateIff(m, msg);
      }
    }
  }

  lemma HelloOnly(m: seq<Member>)
    ensures ParseHello(m).Ok? ==> ParseHello(m).value.Hello?
    ensures ParseState(m).Ok? ==> ParseState(m).value.State?
  {
    hide Lookup, HasString, HasNumber, ParseSatellite, ParseRows, ParseTrailPoints, Load;
  }
}
