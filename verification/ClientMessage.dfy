/** What the viewer makes of a broadcast message. */
module ClientMessage {
  import opened ByteNumbers
  import opened Floats
  import opened Records
  import opened Decimal
  import opened Json
  import opened Printf
  import opened Store
  import opened StateMessage

  datatype ClientSatellite = ClientSatellite(id: Value, sequence: Value, pos: seq<Value>, vel: seq<Value>)

  datatype ClientObject = ClientObject(id: Value, category: string, pos: seq<Value>, vel: Option<seq<Value>>,
                                       confidence: Value, intensity: Value, flags: Value)

  datatype ClientTrailPoint = ClientTrailPoint(id: Value, t: Value, pos: seq<Value>)

  datatype Message =
    | Hello(serverTime: string, broadcastHz: Value, limits: Loaded)
    | State(serverTime: string, lastDataTime: Option<string>, satellite: Option<ClientSatellite>,
            objects: seq<ClientObject>, stats: Loaded, trailPoints: seq<ClientTrailPoint>)

  /** What a script holds of a part that is passed on unread. */
  datatype Loaded =
    | LoadedNull
    | LoadedBool(b: bool)
    | LoadedNumber(n: Value)
    | LoadedString(s: string)
    | LoadedArray(items: seq<Loaded>)
    | LoadedObject(members: seq<LoadedMember>)

  datatype LoadedMember = LoadedMember(key: string, value: Loaded)

  datatype Error =
    | NotJson | NotAnObject | MissingType | UnknownType
    | BadProtocolVersion | BadServerTime | BadBroadcastHz | BadLimits
    | BadLastDataTime | BadSatellite | SatelliteNumbers | SatellitePosition | SatelliteVelocity
    | BadObjects | BadRow | RowId | RowCategory | RowPosition | RowVelocity | RowConfidence | RowIntensity | RowFlags
    | BadStats | BadTrailPoints | TrailRow

  // ----- numbers -----

  /** Below this a decimal does not round to infinity. */
  function Overflow(): int {
    Pow2(1024) - Pow2(970)
  }

  predicate FiniteDecimal(n: Number) {
    if n.exponent >= n.places then n.units * Pow10(n.exponent - n.places) < Overflow()
    else n.units < Overflow() * Pow10(n.places - n.exponent)
  }

  predicate IsFiniteNumber(v: Json) {
    v.Num? && ValidNumber(v.token) && FiniteDecimal(NumberOf(v.token))
  }

  /** The number a script sees. */
  function ValueIn(v: Json): Value
    requires IsFiniteNumber(v)
  {
    ValueOf(NumberOf(v.token))
  }

  /** The integer a value is, if it is one. */
  function IntegerValue(v: Value): Option<int> {
    if v.places > 0 then None else Some(if v.negative then -(v.units as int) else v.units)
  }

  predicate IsInteger(v: Json) {
    IsFiniteNumber(v) && IntegerValue(ValueIn(v)).Some?
  }

  predicate AreFiniteNumbers(items: seq<Json>) {
    forall i :: 0 <= i < |items| ==> IsFiniteNumber(items[i])
  }

  predicate IsNumberArray(v: Json, n: nat) {
    v.Arr? && |v.items| == n && AreFiniteNumbers(v.items)
  }

  function NumbersOf(items: seq<Json>): (r: seq<Value>)
    requires AreFiniteNumbers(items)
    ensures |r| == |items| && forall i :: 0 <= i < |r| ==> r[i] == ValueIn(items[i])
  {
    seq(|items|, i requires 0 <= i < |items| => ValueIn(items[i]))
  }

  function CategoryName(n: int): string {
    if n == 1 then "debris"
    else if n == 2 then "star"
    else if n == 3 then "comet"
    else if n == 4 then "satellite"
    else if n == 5 then "groundHot"
    else "unknown"
  }

  /** Receivers fold unknown types into zero, and the viewer shows both alike. */
  lemma CategoryOfType(t: byte)
    ensures CategoryName(NormalizeType(t) as int) == CategoryName(t as int)
    ensures ["unknown", "debris", "star", "comet", "satellite", "groundHot"][NormalizeType(t) as int]
      == CategoryName(t as int)
    ensures t > 5 ==> CategoryName(t as int) == "unknown"
  {
  }

  /** Numbers become values; a text that was read has no misspelled ones. */
  function Load(v: Json): Loaded
    decreases v
  {
    match v
    case Null => LoadedNull
    case Bool(b) => LoadedBool(b)
    case Num(t) => if ValidNumber(t) then LoadedNumber(ValueOf(NumberOf(t))) else LoadedNull
    case Str(s) => LoadedString(s)
    case Arr(items) => LoadedArray(seq(|items|, i requires 0 <= i < |items| => Load(items[i])))
    case Obj(members) =>
      LoadedObject(seq(|members|, i requires 0 <= i < |members| =>
        LoadedMember(members[i].key, Load(members[i].value))))
  }

  // ----- fields -----

  /** The last member of a name; None is undefined. */
  function Lookup(members: seq<Member>, key: string): Option<Json> {
    if members == [] then None
    else if members[|members| - 1].key == key then Some(members[|members| - 1].value)
    else Lookup(members[..|members| - 1], key)
  }

  predicate HasString(members: seq<Member>, key: string) {
    Lookup(members, key).Some? && Lookup(members, key).value.Str?
  }

  predicate HasNumber(members: seq<Member>, key: string) {
    Lookup(members, key).Some? && IsFiniteNumber(Lookup(members, key).value)
  }

  predicate HasNumbers(members: seq<Member>, key: string, n: nat) {
    Lookup(members, key).Some? && IsNumberArray(Lookup(members, key).value, n)
  }

  function NumberAt(members: seq<Member>, key: string): Value
    requires HasNumber(members, key)
  {
    ValueIn(Lookup(members, key).value)
  }

  function NumbersAt(members: seq<Member>, key: string, n: nat): seq<Value>
    requires HasNumbers(members, key, n)
  {
    NumbersOf(Lookup(members, key).value.items)
  }

  // ----- parseSatellite, parseObjectRow, parseTrailPoints -----

  function ParseSatellite(sat: Option<Json>): Result<Option<ClientSatellite>, Error> {
    if sat.None? || sat.value.Null? then Ok(None)
    else if !sat.value.Obj? then Err(BadSatellite)
    else
      var m := sat.value.members;
      if !HasNumber(m, "id") || !HasNumber(m, "seq") then Err(SatelliteNumbers)
      else if !HasNumbers(m, "pos", 3) then Err(SatellitePosition)
      else if !HasNumbers(m, "vel", 3) then Err(SatelliteVelocity)
      else
        Ok(Some(ClientSatellite(NumberAt(m, "id"), NumberAt(m, "seq"),
                                NumbersAt(m, "pos", 3), NumbersAt(m, "vel", 3))))
  }

  /** All three null, or all three finite. */
  function ParseRowVelocity(v: seq<Json>): Result<Option<seq<Value>>, Error>
    requires |v| == 3
  {
    if v[0].Null? then
      if v[1].Null? && v[2].Null? then Ok(None) else Err(RowVelocity)
    else if AreFiniteNumbers(v) then Ok(Some(NumbersOf(v)))
    else Err(RowVelocity)
  }

  function ParseObjectRow(row: Json): Result<ClientObject, Error> {
    if !row.Arr? || |row.items| != 11 then Err(BadRow) else
    var c := row.items;
    if !IsFiniteNumber(c[0]) then Err(RowId)
    else if !IsInteger(c[1]) then Err(RowCategory)
    else if !AreFiniteNumbers(c[2..5]) then Err(RowPosition)
    else
      var vel := ParseRowVelocity(c[5..8]);
      if vel.Err? then Err(vel.error)
      else if !IsFiniteNumber(c[8]) then Err(RowConfidence)
      else if !IsFiniteNumber(c[9]) then Err(RowIntensity)
      else if !IsFiniteNumber(c[10]) then Err(RowFlags)
      else
        Ok(ClientObject(ValueIn(c[0]), CategoryName(IntegerValue(ValueIn(c[1])).value),
                        NumbersOf(c[2..5]), vel.value,
                        ValueIn(c[8]), ValueIn(c[9]), ValueIn(c[10])))
  }

  /** All rows, or the error of the first bad one. */
  function ParseRows(rows: seq<Json>): Result<seq<ClientObject>, Error> {
    if rows == [] then Ok([]) else
    var first := ParseObjectRow(rows[0]);
    if first.Err? then Err(first.error) else
    var rest := ParseRows(rows[1..]);
    if rest.Err? then rest else Ok([first.value] + rest.value)
  }

  function ParseTrailRow(row: Json): Result<ClientTrailPoint, Error> {
    if !IsNumberArray(row, 5) then Err(TrailRow) else
    var n := NumbersOf(row.items);
    Ok(ClientTrailPoint(n[0], n[1], n[2..5]))
  }

  function ParseTrailRows(rows: seq<Json>): Result<seq<ClientTrailPoint>, Error> {
    if rows == [] then Ok([]) else
    var first := ParseTrailRow(rows[0]);
    if first.Err? then Err(first.error) else
    var rest := ParseTrailRows(rows[1..]);
    if rest.Err? then rest else Ok([first.value] + rest.value)
  }

  function ParseTrailPoints(v: Option<Json>): Result<seq<ClientTrailPoint>, Error> {
    if v.None? then Ok([])
    else if !v.value.Arr? then Err(BadTrailPoints)
    else ParseTrailRows(v.value.items)
  }

  // ----- parseHello, parseState, parseStateMessage -----

  function ParseHello(m: seq<Member>): Result<Message, Error> {
    if !HasNumber(m, "protocolVersion") || IntegerValue(NumberAt(m, "protocolVersion")) != Some(1)
    then Err(BadProtocolVersion)
    else if !HasString(m, "serverTime") then Err(BadServerTime)
    else if !HasNumber(m, "broadcastHz") then Err(BadBroadcastHz)
    else if Lookup(m, "limits").None? || !Lookup(m, "limits").value.Obj? then Err(BadLimits)
    else Ok(Hello(Lookup(m, "serverTime").value.s, NumberAt(m, "broadcastHz"), Load(Lookup(m, "limits").value)))
  }

  function ParseState(m: seq<Member>): Result<Message, Error> {
    if !HasString(m, "serverTime") then Err(BadServerTime) else
    var last := Lookup(m, "lastDataTime");
    if last.None? || (!last.value.Null? && !last.value.Str?) then Err(BadLastDataTime) else
    var sat := ParseSatellite(Lookup(m, "satellite"));
    if sat.Err? then Err(sat.error)
    else if Lookup(m, "objects").None? || !Lookup(m, "objects").value.Arr? then Err(BadObjects)
    else
      var objects := ParseRows(Lookup(m, "objects").value.items);
      if objects.Err? then Err(objects.error)
      else if Lookup(m, "stats").None? || !Lookup(m, "stats").value.Obj? then Err(BadStats)
      else
        var trail := ParseTrailPoints(Lookup(m, "trailPoints"));
        if trail.Err? then Err(trail.error) else
        Ok(Message.State(Lookup(m, "serverTime").value.s,
                         if last.value.Null? then None else Some(last.value.s), sat.value, objects.value,
                         Load(Lookup(m, "stats").value), trail.value))
  }

  function ParseStateMessage(text: string): Result<Message, Error> {
    var v := ParseText(text);
    if v.None? then Err(NotJson)
    else if !v.value.Obj? then Err(NotAnObject)
    else
      var m := v.value.members;
      if !HasString(m, "type") then Err(MissingType)
      else if Lookup(m, "type").value.s == "hello" then ParseHello(m)
      else if Lookup(m, "type").value.s == "state" then ParseState(m)
      else Err(UnknownType)
  }

  // ----- what the viewer should end up with -----

  /** A way to take the number a conversion shows. */
  type Reading = Shown -> Value

  /** The number shown. */
  function Exact(s: Shown): Value {
    if s.Fixed? then ValueShown(s) else Value(false, 0, 0)
  }

  /** The number that the buffered text spells. */
  function Buffered(s: Shown): Value {
    if ValidNumber(FloatText(s)) then ValueOf(NumberOf(FloatText(s))) else Value(false, 0, 0)
  }

  function Whole(n: nat): Value {
    Value(false, n, 0)
  }

  function ClientPosition(p: Vec64, read: Reading): seq<Value> {
    [read(Shown64(p.x, 1)), read(Shown64(p.y, 1)), read(Shown64(p.z, 1))]
  }

  function ClientVelocity(v: Vec32, read: Reading): seq<Value> {
    [read(Shown32(v.x, 2)), read(Shown32(v.y, 2)), read(Shown32(v.z, 2))]
  }

  function SatelliteFor(s: Satellite, read: Reading): ClientSatellite {
    ClientSatellite(Whole(s.id), Whole(s.sequence), ClientPosition(s.pos, read), ClientVelocity(s.vel, read))
  }

  function ObjectFor(o: ObjectRecord, read: Reading): ClientObject {
    ClientObject(Whole(o.id), CategoryName(o.kind as int), ClientPosition(o.pos, read),
                 if HasVelocity(o) then Some(ClientVelocity(o.vel, read)) else None,
                 Whole(o.confidence as int), read(Shown32(o.intensity, 1)), Whole(o.flags as int))
  }

  function TrailFor(p: TrailPoint, read: Reading): ClientTrailPoint {
    ClientTrailPoint(Whole(p.id), read(Shown64(p.t, 3)), ClientPosition(p.pos, read))
  }

  function ObjectsFor(objects: seq<ObjectRecord>, read: Reading): (r: seq<ClientObject>)
    ensures |r| == |objects| && forall i :: 0 <= i < |r| ==> r[i] == ObjectFor(objects[i], read)
  {
    seq(|objects|, i requires 0 <= i < |objects| => ObjectFor(objects[i], read))
  }

  function TrailsFor(points: seq<TrailPoint>, read: Reading): (r: seq<ClientTrailPoint>)
    ensures |r| == |points| && forall i :: 0 <= i < |r| ==> r[i] == TrailFor(points[i], read)
  {
    seq(|points|, i requires 0 <= i < |points| => TrailFor(points[i], read))
  }

  function StatsFor(snap: Snapshot, b: Broadcast, read: Reading): Loaded {
    LoadedObject([LoadedMember("udpReceived", LoadedNumber(Whole(snap.stats.received % TWO64))),
                  LoadedMember("udpAccepted", LoadedNumber(Whole(snap.stats.accepted % TWO64))),
                  LoadedMember("udpDropped", LoadedNumber(Whole((snap.stats.malformed + snap.stats.stale) % TWO64))),
                  LoadedMember("udpRateHz", LoadedNumber(read(ShownRate(snap.rateHz)))),
                  LoadedMember("wsClients", LoadedNumber(SmallValue(b.clients))),
                  LoadedMember("objectCount", LoadedNumber(Whole(|snap.objects| % TWO64))),
                  LoadedMember("broadcastSeq", LoadedNumber(Whole(b.sequence % TWO64)))])
  }

  function SmallValue(n: int): Value {
    Value(n < 0, if n < 0 then -n else n, 0)
  }

  /** The snapshot as the viewer sees it, its numbers taken by `read`. */
  function MessageFor(snap: Snapshot, b: Broadcast, read: Reading): Message {
    Message.State(Iso(b, b.serverTime), if snap.lastDataTime.Some? then Some(Iso(b, snap.lastDataTime.value)) else None,
                  if snap.satellite.Some? then Some(SatelliteFor(snap.satellite.value, read)) else None,
                  ObjectsFor(snap.objects, read), StatsFor(snap, b, read), TrailsFor(snap.trailPoints, read))
  }

  /** The message that loses nothing of what was to be printed. */
  function Faithful(snap: Snapshot, b: Broadcast): Message {
    MessageFor(snap, b, Exact)
  }

  // ----- which numbers a message prints -----

  function PositionShown(p: Vec64): seq<Shown> {
    [Shown64(p.x, 1), Shown64(p.y, 1), Shown64(p.z, 1)]
  }

  function VelocityShown(v: Vec32): seq<Shown> {
    [Shown32(v.x, 2), Shown32(v.y, 2), Shown32(v.z, 2)]
  }

  function RowShown(o: ObjectRecord): seq<Shown> {
    PositionShown(o.pos) + (if HasVelocity(o) then VelocityShown(o.vel) else []) + [Shown32(o.intensity, 1)]
  }

  function TrailShown(p: TrailPoint): seq<Shown> {
    [Shown64(p.t, 3)] + PositionShown(p.pos)
  }

  function SatelliteShown(s: Satellite): seq<Shown> {
    PositionShown(s.pos) + VelocityShown(s.vel)
  }

  /** Every float a message prints meets `p`. */
  ghost predicate EveryShown(snap: Snapshot, p: Shown -> bool) {
    && (snap.satellite.Some? ==> All(SatelliteShown(snap.satellite.value), p))
    && (forall i :: 0 <= i < |snap.objects| ==> All(RowShown(snap.objects[i]), p))
    && (forall i :: 0 <= i < |snap.trailPoints| ==> All(TrailShown(snap.trailPoints[i]), p))
    && p(ShownRate(snap.rateHz))
  }

  predicate All(s: seq<Shown>, p: Shown -> bool) {
    forall i :: 0 <= i < |s| ==> p(s[i])
  }

  predicate Spelled(s: Shown) {
    ValidNumber(FloatText(s))
  }
}
