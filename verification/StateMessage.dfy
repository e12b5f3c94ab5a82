/** The broadcast message: the text written from a snapshot, and the JSON value it spells. */
module StateMessage {
  import opened Floats
  import opened Records
  import opened Decimal
  import opened Json
  import opened Printf
  import opened Store

  const TWO64: int := 0x1_0000_0000_0000_0000

  /** What the broadcaster adds to a snapshot; clock times are spelled by `iso`. */
  datatype Broadcast = Broadcast(serverTime: int, iso: int -> string, clients: int, sequence: nat)

  function Iso(b: Broadcast, t: int): string {
    b.iso(t)
  }

  ghost predicate GoodBroadcast(b: Broadcast) {
    (forall t: int :: PlainString(Iso(b, t))) && -0x8000_0000 <= b.clients < 0x8000_0000
  }

  // ----- single values -----

  /** A counter of 64 bits. */
  function CounterText(n: nat): string {
    Cut(IntegerText(n % TWO64), INTEGER_BUFFER)
  }

  function IntText(n: int): string {
    Cut(IntegerText(n), INTEGER_BUFFER)
  }

  function ShownRate(rate: real): Shown {
    var hundredths := (if rate < 0.0 then -rate else rate) * 100.0;
    var q := hundredths.Floor;
    var rest := hundredths - q as real;
    Fixed(rate < 0.0, if rest < 0.5 || (rest == 0.5 && q % 2 == 0) then q else q + 1, 2)
  }

  function Counter(n: nat): Json {
    Num(CounterText(n))
  }

  function Small(n: int): Json {
    Num(IntText(n))
  }

  function Meters(b: F64): Json {
    Num(FloatText(Shown64(b, 1)))
  }

  function Speed(b: F32): Json {
    Num(FloatText(Shown32(b, 2)))
  }

  function Time(t: Option<int>, b: Broadcast): Json {
    if t.Some? then Str(Iso(b, t.value)) else Null
  }

  // ----- the value -----

  function PositionTree(p: Vec64): Json {
    Arr([Meters(p.x), Meters(p.y), Meters(p.z)])
  }

  function VelocityTree(v: Vec32): Json {
    Arr([Speed(v.x), Speed(v.y), Speed(v.z)])
  }

  function SatelliteTree(s: Satellite): Json {
    Obj([Member("id", Counter(s.id)), Member("seq", Counter(s.sequence)),
         Member("pos", PositionTree(s.pos)), Member("vel", VelocityTree(s.vel))])
  }

  /** A velocity column is null when the record has none. */
  function Column(o: ObjectRecord, component: F32): Json {
    if HasVelocity(o) then Speed(component) else Null
  }

  function RowTree(o: ObjectRecord): Json {
    Arr([Counter(o.id), Small(o.kind as int), Meters(o.pos.x), Meters(o.pos.y), Meters(o.pos.z),
         Column(o, o.vel.x), Column(o, o.vel.y), Column(o, o.vel.z),
         Small(o.confidence as int), Num(FloatText(Shown32(o.intensity, 1))), Small(o.flags as int)])
  }

  function TrailTree(p: TrailPoint): Json {
    Arr([Counter(p.id), Num(FloatText(Shown64(p.t, 3))), Meters(p.pos.x), Meters(p.pos.y), Meters(p.pos.z)])
  }

  /** `rate` is the spelling of the rate. */
  function StatsTree(snap: Snapshot, b: Broadcast, rate: string): Json {
    Obj([Member("udpReceived", Counter(snap.stats.received)), Member("udpAccepted", Counter(snap.stats.accepted)),
         Member("udpDropped", Counter(snap.stats.malformed + snap.stats.stale)), Member("udpRateHz", Num(rate)),
         Member("wsClients", Small(b.clients)), Member("objectCount", Counter(|snap.objects|)),
         Member("broadcastSeq", Counter(b.sequence))])
  }

  function RowTrees(objects: seq<ObjectRecord>): (r: seq<Json>)
    ensures |r| == |objects| && forall i :: 0 <= i < |r| ==> r[i] == RowTree(objects[i])
  {
    seq(|objects|, i requires 0 <= i < |objects| => RowTree(objects[i]))
  }

  function TrailTrees(points: seq<TrailPoint>): (r: seq<Json>)
    ensures |r| == |points| && forall i :: 0 <= i < |r| ==> r[i] == TrailTree(points[i])
  {
    seq(|points|, i requires 0 <= i < |points| => TrailTree(points[i]))
  }

  function OptionalSatellite(s: Option<Satellite>): Json {
    if s.Some? then SatelliteTree(s.value) else Null
  }

  /** The members up to the objects. */
  function LeadingMembers(snap: Snapshot, b: Broadcast): seq<Member> {
    [Member("type", Str("state")), Member("serverTime", Str(Iso(b, b.serverTime))),
     Member("lastDataTime", Time(snap.lastDataTime, b)), Member("satellite", OptionalSatellite(snap.satellite)),
     Member("objects", Arr(RowTrees(snap.objects)))]
  }

  /** The trail points are left out when there are none. */
  function StateMembers(snap: Snapshot, b: Broadcast): seq<Member> {
    LeadingMembers(snap, b)
    + (if snap.trailPoints == [] then [] else [Member("trailPoints", Arr(TrailTrees(snap.trailPoints)))])
    + [Member("stats", StatsTree(snap, b, FloatText(ShownRate(snap.rateHz))))]
  }

  function StateTree(snap: Snapshot, b: Broadcast): Json {
    Obj(StateMembers(snap, b))
  }

  // ----- writing piece by piece -----

  /** An array up to, but without, its closing bracket, after `k` items. */
  function ArrayPrefix(items: seq<Json>, k: nat): string
    requires k <= |items|
  {
    if k == 0 then "[" else ArrayPrefix(items, k - 1) + (if k > 1 then "," else "") + Print(items[k - 1])
  }

  function ObjectPrefix(members: seq<Member>, k: nat): string
    requires k <= |members|
  {
    if k == 0 then "{"
    else
      ObjectPrefix(members, k - 1) + (if k > 1 then "," else "") + KeyText(members[k - 1].key)
      + Print(members[k - 1].value)
  }

  lemma {:induction false} ArrayPrefixThenRest(items: seq<Json>, k: nat)
    requires k <= |items|
    ensures ArrayPrefix(items, k) + Elements(items, k) == Print(Arr(items))
  {
    if k > 0 {
      ArrayPrefixThenRest(items, k - 1);
      var comma := if k > 1 then "," else "";
      assert Elements(items, k - 1) == comma + (Print(items[k - 1]) + Elements(items, k));
    }
  }

  lemma {:induction false} ObjectPrefixThenRest(members: seq<Member>, k: nat)
    requires k <= |members|
    ensures ObjectPrefix(members, k) + Members(members, k) == Print(Obj(members))
  {
    hide KeyText;
    if k > 0 {
      ObjectPrefixThenRest(members, k - 1);
      var comma := if k > 1 then "," else "";
      assert Members(members, k - 1) == comma + (MemberText(members[k - 1]) + Members(members, k));
      assert MemberText(members[k - 1]) == KeyText(members[k - 1].key) + Print(members[k - 1].value);
    }
  }

  /** Closing the bracket completes the array. */
  lemma {:induction false} ArrayClosed(items: seq<Json>)
    ensures ArrayPrefix(items, |items|) + "]" == Print(Arr(items))
  {
    ArrayPrefixThenRest(items, |items|);
  }

  lemma {:induction false} ObjectClosed(members: seq<Member>)
    ensures ObjectPrefix(members, |members|) + "}" == Print(Obj(members))
  {
    ObjectPrefixThenRest(members, |members|);
  }

  method WritePosition(p: Vec64) returns (s: string)
    ensures s == Print(PositionTree(p))
  {
    hide FloatText;
    ghost var t := PositionTree(p).items;
    s := "[";
    s := s + FloatText(Shown64(p.x, 1));
    assert s == ArrayPrefix(t, 1);
    s := s + ",";
    s := s + FloatText(Shown64(p.y, 1));
    assert s == ArrayPrefix(t, 2);
    s := s + ",";
    s := s + FloatText(Shown64(p.z, 1));
    assert s == ArrayPrefix(t, 3);
    ArrayClosed(t);
    s := s + "]";
  }

  method WriteVelocity(v: Vec32) returns (s: string)
    ensures s == Print(VelocityTree(v))
  {
    hide FloatText;
    ghost var t := VelocityTree(v).items;
    s := "[";
    s := s + FloatText(Shown32(v.x, 2));
    assert s == ArrayPrefix(t, 1);
    s := s + ",";
    s := s + FloatText(Shown32(v.y, 2));
    assert s == ArrayPrefix(t, 2);
    s := s + ",";
    s := s + FloatText(Shown32(v.z, 2));
    assert s == ArrayPrefix(t, 3);
    ArrayClosed(t);
    s := s + "]";
  }

  method WriteSatellite(sat: Satellite) returns (s: string)
    ensures s == Print(SatelliteTree(sat))
  {
    hide CounterText, PositionTree, VelocityTree, KeyText;
    ghost var t := SatelliteTree(sat).members;
    s := "{" + KeyText("id");
    s := s + CounterText(sat.id);
    assert s == ObjectPrefix(t, 1);
    s := s + "," + KeyText("seq");
    s := s + CounterText(sat.sequence);
    assert s == ObjectPrefix(t, 2);
    s := s + "," + KeyText("pos");
    var pos := WritePosition(sat.pos);
    s := s + pos;
    assert s == ObjectPrefix(t, 3);
    s := s + "," + KeyText("vel");
    var vel := WriteVelocity(sat.vel);
    s := s + vel;
    assert s == ObjectPrefix(t, 4);
    ObjectClosed(t);
    s := s + "}";
  }

  method AppendVelocityColumns(before: string, o: ObjectRecord) returns (s: string)
    requires before == ArrayPrefix(RowTree(o).items, 5) + ","
    ensures s == ArrayPrefix(RowTree(o).items, 8)
  {
    hide FloatText, CounterText, IntText, HasVelocity;
    ghost var t := RowTree(o).items;
    s := before;
    if HasVelocity(o) {
      s := s + FloatText(Shown32(o.vel.x, 2));
      assert s == ArrayPrefix(t, 6);
      s := s + ",";
      s := s + FloatText(Shown32(o.vel.y, 2));
      assert s == ArrayPrefix(t, 7);
      s := s + ",";
      s := s + FloatText(Shown32(o.vel.z, 2));
    } else {
      assert s + "null" == ArrayPrefix(t, 6);
      assert s + "null" + "," + "null" == ArrayPrefix(t, 7);
      assert s + "null,null,null" == s + "null" + "," + "null" + "," + "null";
      s := s + "null,null,null";
    }
    assert s == ArrayPrefix(t, 8);
  }

  method WriteRow(o: ObjectRecord) returns (s: string)
    ensures s == Print(RowTree(o))
  {
    hide FloatText, CounterText, IntText, HasVelocity;
    ghost var t := RowTree(o).items;
    s := "[";
    s := s + CounterText(o.id);
    assert s == ArrayPrefix(t, 1);
    s := s + ",";
    s := s + IntText(o.kind as int);
    assert s == ArrayPrefix(t, 2);
    s := s + ",";
    s := s + FloatText(Shown64(o.pos.x, 1));
    assert s == ArrayPrefix(t, 3);
    s := s + ",";
    s := s + FloatText(Shown64(o.pos.y, 1));
    assert s == ArrayPrefix(t, 4);
    s := s + ",";
    s := s + FloatText(Shown64(o.pos.z, 1));
    assert s == ArrayPrefix(t, 5);
    s := s + ",";
    s := AppendVelocityColumns(s, o);
    s := s + ",";
    s := s + IntText(o.confidence as int);
    assert s == ArrayPrefix(t, 9);
    s := s + ",";
    s := s + FloatText(Shown32(o.intensity, 1));
    assert s == ArrayPrefix(t, 10);
    s := s + ",";
    s := s + IntText(o.flags as int);
    assert s == ArrayPrefix(t, 11);
    ArrayClosed(t);
    s := s + "]";
  }

  method WriteTrailPoint(p: TrailPoint) returns (s: string)
    ensures s == Print(TrailTree(p))
  {
    hide FloatText, CounterText;
    ghost var t := TrailTree(p).items;
    s := "[";
    s := s + CounterText(p.id);
    assert s == ArrayPrefix(t, 1);
    s := s + ",";
    s := s + FloatText(Shown64(p.t, 3));
    assert s == ArrayPrefix(t, 2);
    s := s + ",";
    s := s + FloatText(Shown64(p.pos.x, 1));
    assert s == ArrayPrefix(t, 3);
    s := s + ",";
    s := s + FloatText(Shown64(p.pos.y, 1));
    assert s == ArrayPrefix(t, 4);
    s := s + ",";
    s := s + FloatText(Shown64(p.pos.z, 1));
    assert s == ArrayPrefix(t, 5);
    ArrayClosed(t);
    s := s + "]";
  }

  method WriteRows(objects: seq<ObjectRecord>) returns (s: string)
    ensures s == Print(Arr(RowTrees(objects)))
  {
    hide RowTree;
    ghost var t := RowTrees(objects);
    s := "[";
    for i := 0 to |objects|
      invariant s == ArrayPrefix(t, i)
    {
      if i != 0 { s := s + ","; }
      var row := WriteRow(objects[i]);
      s := s + row;
    }
    ArrayClosed(t);
    s := s + "]";
  }

  method WriteTrail(points: seq<TrailPoint>) returns (s: string)
    ensures s == Print(Arr(TrailTrees(points)))
  {
    hide TrailTree;
    ghost var t := TrailTrees(points);
    s := "[";
    for i := 0 to |points|
      invariant s == ArrayPrefix(t, i)
    {
      if i != 0 { s := s + ","; }
      var row := WriteTrailPoint(points[i]);
      s := s + row;
    }
    ArrayClosed(t);
    s := s + "]";
  }

  method WriteStats(snap: Snapshot, b: Broadcast) returns (s: string)
    ensures s == Print(StatsTree(snap, b, FloatText(ShownRate(snap.rateHz))))
  {
    hide FloatText, CounterText, IntText, KeyText, ShownRate;
    ghost var t := StatsTree(snap, b, FloatText(ShownRate(snap.rateHz))).members;
    s := "{" + KeyText("udpReceived");
    s := s + CounterText(snap.stats.received);
    assert s == ObjectPrefix(t, 1);
    s := s + "," + KeyText("udpAccepted");
    s := s + CounterText(snap.stats.accepted);
    assert s == ObjectPrefix(t, 2);
    s := s + "," + KeyText("udpDropped");
    s := s + CounterText(snap.stats.malformed + snap.stats.stale);
    assert s == ObjectPrefix(t, 3);
    s := s + "," + KeyText("udpRateHz");
    s := s + FloatText(ShownRate(snap.rateHz));
    assert s == ObjectPrefix(t, 4);
    s := s + "," + KeyText("wsClients");
    s := s + IntText(b.clients);
    assert s == ObjectPrefix(t, 5);
    s := s + "," + KeyText("objectCount");
    s := s + CounterText(|snap.objects|);
    assert s == ObjectPrefix(t, 6);
    s := s + "," + KeyText("broadcastSeq");
    s := s + CounterText(b.sequence);
    assert s == ObjectPrefix(t, 7);
    ObjectClosed(t);
    s := s + "}";
  }

  method WriteLeading(snap: Snapshot, b: Broadcast, ghost t: seq<Member>) returns (s: string)
    requires |t| >= 5 && t[..5] == LeadingMembers(snap, b)
    ensures s == ObjectPrefix(t, 5)
  {
    hide SatelliteTree, RowTrees, KeyText;
    assert t[0] == t[..5][0] && t[1] == t[..5][1] && t[2] == t[..5][2] && t[3] == t[..5][3] && t[4] == t[..5][4];
    s := "{" + KeyText("type") + Quoted("state");
    assert s == ObjectPrefix(t, 1);
    s := s + "," + KeyText("serverTime");
    s := s + Quoted(Iso(b, b.serverTime));
    assert s == ObjectPrefix(t, 2);
    s := s + "," + KeyText("lastDataTime");
    if snap.lastDataTime.Some? {
      s := s + Quoted(Iso(b, snap.lastDataTime.value));
    } else {
      s := s + "null";
    }
    assert s == ObjectPrefix(t, 3);
    s := s + "," + KeyText("satellite");
    if snap.satellite.Some? {
      var sat := WriteSatellite(snap.satellite.value);
      s := s + sat;
    } else {
      s := s + "null";
    }
    assert s == ObjectPrefix(t, 4);
    s := s + "," + KeyText("objects");
    var rows := WriteRows(snap.objects);
    s := s + rows;
    assert s == ObjectPrefix(t, 5);
  }

  /** buildStateMessage: the text spells exactly the state's value. */
  method BuildStateMessage(snap: Snapshot, b: Broadcast) returns (s: string)
    ensures s == Print(StateTree(snap, b))
  {
    hide LeadingMembers, StatsTree, TrailTrees, KeyText, FloatText;
    ghost var t := StateMembers(snap, b);
    ghost var n := |t|;
    LeadingCount(snap, b);
    s := WriteLeading(snap, b, t);
    if snap.trailPoints != [] {
      s := s + "," + KeyText("trailPoints");
      var trail := WriteTrail(snap.trailPoints);
      s := s + trail;
    }
    assert s == ObjectPrefix(t, n - 1);
    s := s + "," + KeyText("stats");
    var stats := WriteStats(snap, b);
    s := s + stats;
    assert s == ObjectPrefix(t, n);
    ObjectClosed(t);
    s := s + "}";
  }

  lemma LeadingCount(snap: Snapshot, b: Broadcast)
    ensures |LeadingMembers(snap, b)| == 5
  {
  }

  /** The text broadcast from a store at clock time `mono`. */
  function FrameText(s: Store.State, mono: int, b: Broadcast): string {
    Print(StateTree(SnapshotOf(s, mono), b))
  }
}
