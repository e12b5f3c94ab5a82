/** The shared world state: staleness, upserts, trail queue, expiry and rate window. */
module Store {
  import opened Bytes
  import opened Floats
  import opened Records
  import opened Collections
  import opened SortedKeys

  /** Nanoseconds of the trailing rate window. */
  const RATE_WINDOW: int := 5_000_000_000
  const MAX_PENDING_TRAIL_POINTS: nat := 125000

  datatype Stats = Stats(received: nat, accepted: nat, malformed: nat, stale: nat, bytes: nat)

  datatype Satellite = Satellite(id: u32, sequence: u32, pos: Vec64, vel: Vec32)

  datatype TrailPoint = TrailPoint(id: u32, t: F64, pos: Vec64)

  datatype TrackUpdate = TrackUpdate(satellite: Satellite, satelliteT: F64, target: ObjectRecord,
                                     trail: seq<TrailPoint>)

  datatype Stored = Stored(obj: ObjectRecord, lastUpdate: int)

  datatype Snapshot = Snapshot(satellite: Option<Satellite>, objects: seq<ObjectRecord>, lastDataTime: Option<int>,
                               stats: Stats, rateHz: real, trailPoints: seq<TrailPoint>)

  datatype ApplyResult = Applied | StaleSequence

  datatype DropKind = Malformed | Stale

  type Table = map<int, Stored>

  /** The fields of the store; times are nanoseconds of the monotonic clock. */
  datatype State = State(expiry: int, satellite: Option<Satellite>, satelliteT: Option<F64>, lastDataTime: Option<int>,
                         objects: Table, acceptTimes: seq<int>, stats: Stats, haveSeq: bool, lastSeq: u32,
                         pending: seq<TrailPoint>)

  function Initial(expiry: int): State {
    State(expiry, None, None, None, map[], [], Stats(0, 0, 0, 0, 0), false, 0, [])
  }

  // ----- each operation as a function of the state -----

  /** The signed 32-bit difference is not positive. */
  predicate NotAfter(sequence: u32, last: u32) {
    var d := (sequence - last) % TWO32;
    d == 0 || d >= 0x8000_0000
  }

  predicate Rejects(s: State, pkt: StatePacket) {
    s.haveSeq && NotAfter(pkt.sequence, s.lastSeq)
  }

  function Upsert(objects: Table, records: seq<ObjectRecord>, mono: int): Table {
    if records == [] then objects else
    var last := records[|records| - 1];
    Upsert(objects, records[..|records| - 1], mono)[last.id := Stored(last, mono)]
  }

  function AfterReceived(s: State, n: nat): State {
    s.(stats := s.stats.(received := s.stats.received + 1, bytes := s.stats.bytes + n))
  }

  function AfterDropped(s: State, kind: DropKind): State {
    s.(stats := if kind == Malformed then s.stats.(malformed := s.stats.malformed + 1)
                else s.stats.(stale := s.stats.stale + 1))
  }

  function AfterApply(s: State, pkt: StatePacket, wall: int, mono: int): State {
    if Rejects(s, pkt) then AfterDropped(s, Stale) else
    s.(haveSeq := true, lastSeq := pkt.sequence,
       stats := s.stats.(accepted := s.stats.accepted + 1),
       satellite := Some(Satellite(pkt.satId, pkt.sequence, pkt.satPos, pkt.satVel)), satelliteT := None,
       objects := Upsert(s.objects, pkt.objects, mono),
       lastDataTime := Some(wall), acceptTimes := s.acceptTimes + [mono])
  }

  predicate ReplacesSatellite(s: State, u: TrackUpdate) {
    s.satellite.None? || s.satelliteT.None? || Less(s.satelliteT.value, u.satelliteT)
  }

  function AfterTrack(s: State, u: TrackUpdate, wall: int, mono: int): State {
    s.(stats := s.stats.(accepted := s.stats.accepted + 1),
       satellite := if ReplacesSatellite(s, u) then Some(u.satellite) else s.satellite,
       satelliteT := if ReplacesSatellite(s, u) then Some(u.satelliteT) else s.satelliteT,
       objects := s.objects[u.target.id := Stored(u.target, mono)],
       pending := LastN(s.pending + u.trail, MAX_PENDING_TRAIL_POINTS),
       lastDataTime := Some(wall), acceptTimes := s.acceptTimes + [mono])
  }

  function DropExpired(objects: Table, expiry: int, mono: int): Table {
    map id | id in objects && mono - objects[id].lastUpdate <= expiry :: objects[id]
  }

  lemma KeptAre(objects: Table, expiry: int, mono: int, id: int)
    ensures var t := DropExpired(objects, expiry, mono);
      && (id in t <==> id in objects && mono - objects[id].lastUpdate <= expiry)
      && (id in t ==> t[id] == objects[id])
  {
  }

  function DropOld(times: seq<int>, mono: int): seq<int> {
    if times != [] && mono - times[0] > RATE_WINDOW then DropOld(times[1..], mono) else times
  }

  /** The rows of a table in the order of `ids`. */
  function RowsOf(objects: Table, ids: seq<int>): (rows: seq<ObjectRecord>)
    requires forall i :: 0 <= i < |ids| ==> ids[i] in objects
    ensures |rows| == |ids| && forall i :: 0 <= i < |ids| ==> rows[i] == objects[ids[i]].obj
  {
    seq(|ids|, i requires 0 <= i < |ids| => objects[ids[i]].obj)
  }

  function Ids(objects: Table): set<int> {
    set id | id in objects
  }

  /** The rows of some ids of a table, ascending. */
  function RowsFor(objects: Table, ids: set<int>): seq<ObjectRecord>
    requires ids <= Ids(objects)
  {
    var order := Sorted(ids);
    assert forall i :: 0 <= i < |order| ==> order[i] in order;
    RowsOf(objects, order)
  }

  function Rows(objects: Table): seq<ObjectRecord> {
    RowsFor(objects, Ids(objects))
  }

  lemma {:induction false} RowsListTable(objects: Table)
    requires forall id :: id in objects ==> objects[id].obj.id == id
    ensures var rows := Rows(objects);
      && (forall i, j :: 0 <= i < j < |rows| ==> rows[i].id < rows[j].id)
      && (forall i :: 0 <= i < |rows| ==> rows[i].id in objects && objects[rows[i].id].obj == rows[i])
      && (forall id :: id in objects ==> exists i :: 0 <= i < |rows| && rows[i].id == id)
  {
    hide Sorted;
    var order, rows := Sorted(Ids(objects)), Rows(objects);
    forall i | 0 <= i < |rows|
      ensures order[i] in objects && rows[i].id == order[i] && objects[order[i]].obj == rows[i]
    {
      assert order[i] in order;
    }
    forall id | id in objects
      ensures exists i :: 0 <= i < |rows| && rows[i].id == id
    {
      assert id in order;
      var i :| 0 <= i < |order| && order[i] == id;
      assert rows[i].id == id;
    }
  }

  /** The rows are the records of the table, all of them and nothing else. */
  lemma {:induction false} RowsAreRecords(objects: Table) returns (ids: seq<int>)
    ensures var rows := Rows(objects);
      && |rows| == |ids|
      && (forall i :: 0 <= i < |ids| ==> ids[i] in objects && rows[i] == objects[ids[i]].obj)
      && (forall id :: id in objects ==> exists i :: 0 <= i < |ids| && ids[i] == id)
  {
    hide Sorted;
    ids := Sorted(Ids(objects));
    forall i | 0 <= i < |ids|
      ensures ids[i] in objects
    {
      assert ids[i] in ids;
    }
    forall id | id in objects
      ensures exists i :: 0 <= i < |ids| && ids[i] == id
    {
      assert id in ids;
    }
  }

  function Prune(s: State, mono: int): State {
    s.(objects := DropExpired(s.objects, s.expiry, mono), acceptTimes := DropOld(s.acceptTimes, mono))
  }

  function AfterSnapshot(s: State, mono: int): State {
    Prune(s, mono).(pending := [])
  }

  function SnapshotOf(s: State, mono: int): Snapshot {
    var p := Prune(s, mono);
    Snapshot(p.satellite, Rows(p.objects), p.lastDataTime, p.stats, |p.acceptTimes| as real / 5.0, p.pending)
  }

  /** What the input thread does with one datagram after counting it. */
  datatype Outcome = Drop(kind: DropKind) | Merge(pkt: StatePacket) | MergeTrack(u: TrackUpdate) | Ignore

  function AfterOutcome(s: State, o: Outcome, wall: int, mono: int): State {
    match o
    case Drop(kind) => AfterDropped(s, kind)
    case Merge(pkt) => AfterApply(s, pkt, wall, mono)
    case MergeTrack(u) => AfterTrack(s, u, wall, mono)
    case Ignore => s
  }

  // ----- the class -----

  class StateStore {
    const expiry: int
    var satellite: Option<Satellite>
    var satelliteT: Option<F64>
    var lastDataTime: Option<int>
    var objects: Table
    var acceptTimes: seq<int>
    var stats: Stats
    var haveSeq: bool
    var lastSeq: u32
    var pendingTrail: seq<TrailPoint>

    ghost function Model(): State
      reads this
    {
      State(expiry, satellite, satelliteT, lastDataTime, objects, acceptTimes, stats, haveSeq, lastSeq, pendingTrail)
    }

    constructor (expiry: int)
      ensures Model() == Initial(expiry)
    {
      this.expiry := expiry;
      satellite, satelliteT, lastDataTime := None, None, None;
      objects, acceptTimes, pendingTrail := map[], [], [];
      stats := Stats(0, 0, 0, 0, 0);
      haveSeq, lastSeq := false, 0;
    }

    method CountReceived(n: nat)
      modifies this
      ensures Model() == AfterReceived(old(Model()), n)
    {
      stats := stats.(received := stats.received + 1);
      stats := stats.(bytes := stats.bytes + n);
    }

    method CountDropped(kind: DropKind)
      modifies this
      ensures Model() == AfterDropped(old(Model()), kind)
    {
      if kind == Malformed {
        stats := stats.(malformed := stats.malformed + 1);
      } else {
        stats := stats.(stale := stats.stale + 1);
      }
    }

    method Apply(pkt: StatePacket, wall: int, mono: int) returns (r: ApplyResult)
      modifies this
      ensures Model() == AfterApply(old(Model()), pkt, wall, mono)
      ensures r == StaleSequence <==> Rejects(old(Model()), pkt)
    {
      hide Upsert, NotAfter;
      if haveSeq && NotAfter(pkt.sequence, lastSeq) {
        stats := stats.(stale := stats.stale + 1);
        return StaleSequence;
      }
      haveSeq := true;
      lastSeq := pkt.sequence;
      stats := stats.(accepted := stats.accepted + 1);
      satellite := Some(Satellite(pkt.satId, pkt.sequence, pkt.satPos, pkt.satVel));
      satelliteT := None;
      var table := UpsertAll(objects, pkt.objects, mono);
      objects := table;
      lastDataTime := Some(wall);
      acceptTimes := acceptTimes + [mono];
      r := Applied;
    }

    method ApplyTrack(u: TrackUpdate, wall: int, mono: int)
      modifies this
      ensures Model() == AfterTrack(old(Model()), u, wall, mono)
    {
      hide Less;
      stats := stats.(accepted := stats.accepted + 1);
      if satellite.None? || satelliteT.None? || Less(satelliteT.value, u.satelliteT) {
        satellite := Some(u.satellite);
        satelliteT := Some(u.satelliteT);
      }
      objects := objects[u.target.id := Stored(u.target, mono)];
      pendingTrail := pendingTrail + u.trail;
      if |pendingTrail| > MAX_PENDING_TRAIL_POINTS {
        var excess := |pendingTrail| - MAX_PENDING_TRAIL_POINTS;
        pendingTrail := pendingTrail[excess..];
      }
      lastDataTime := Some(wall);
      acceptTimes := acceptTimes + [mono];
    }

    method TakeSnapshot(mono: int) returns (snap: Snapshot)
      modifies this
      ensures Model() == AfterSnapshot(old(Model()), mono)
      ensures snap == SnapshotOf(old(Model()), mono)
    {
      hide DropExpired, DropOld, Rows;
      var kept := EraseExpired(objects, expiry, mono);
      objects := kept;
      var times := PopOld(acceptTimes, mono);
      acceptTimes := times;
      var rows := CollectSorted(objects);
      snap := Snapshot(satellite, rows, lastDataTime, stats, |acceptTimes| as real / 5.0, pendingTrail);
      pendingTrail := [];
    }
  }

  /** The merge loop over a packet's records. */
  method UpsertAll(objects: Table, records: seq<ObjectRecord>, mono: int) returns (table: Table)
    ensures table == Upsert(objects, records, mono)
  {
    table := objects;
    for i := 0 to |records|
      invariant table == Upsert(objects, records[..i], mono)
    {
      var r := records[i];
      assert records[..i + 1][..i] == records[..i];
      table := table[r.id := Stored(r, mono)];
    }
    assert records[..|records|] == records;
  }

  /** The erase loop over the table, in any order. */
  method EraseExpired(objects: Table, expiry: int, mono: int) returns (kept: Table)
    ensures kept == DropExpired(objects, expiry, mono)
  {
    kept := objects;
    var todo := objects.Keys;
    while todo != {}
      invariant todo <= objects.Keys
      invariant forall id :: id in kept <==> id in objects && (id in todo || mono - objects[id].lastUpdate <= expiry)
      invariant forall id :: id in kept ==> kept[id] == objects[id]
      decreases |todo|
    {
      ghost var some := Pick(todo);
      var id :| id in todo;
      if mono - kept[id].lastUpdate > expiry {
        kept := kept - {id};
      }
      todo := todo - {id};
    }
    MapsEqual(kept, DropExpired(objects, expiry, mono));
  }

  method PopOld(times: seq<int>, mono: int) returns (left: seq<int>)
    ensures left == DropOld(times, mono)
  {
    left := times;
    while left != [] && mono - left[0] > RATE_WINDOW
      invariant DropOld(left, mono) == DropOld(times, mono)
      decreases |left|
    {
      left := left[1..];
    }
  }

  lemma {:induction false} RowsStep(objects: Table, left: set<int>)
    requires left != {} && left <= Ids(objects)
    ensures var k := Least(left);
      && left - {k} <= Ids(objects)
      && RowsFor(objects, left) == [objects[k].obj] + RowsFor(objects, left - {k})
  {
    hide Least, RowsOf;
    var k := Least(left);
    var rest := Sorted(left - {k});
    assert Sorted(left) == [k] + rest;
    hide Sorted;
    assert forall i :: 0 <= i < |rest| ==> rest[i] in rest;
    RowsOfFirst(objects, k, rest);
  }

  lemma RowsOfFirst(objects: Table, k: int, rest: seq<int>)
    requires k in objects && forall i :: 0 <= i < |rest| ==> rest[i] in objects
    ensures RowsOf(objects, [k] + rest) == [objects[k].obj] + RowsOf(objects, rest)
  {
  }

  /** Collecting the rows and sorting them by id. */
  method CollectSorted(objects: Table) returns (rows: seq<ObjectRecord>)
    ensures rows == Rows(objects)
  {
    hide RowsOf, Sorted, Least, RowsFor;
    rows := [];
    var left: set<int> := set id | id in objects;
    while left != {}
      invariant left <= Ids(objects)
      invariant rows + RowsFor(objects, left) == RowsFor(objects, Ids(objects))
      decreases |left|
    {
      var id := Least(left);
      RowsStep(objects, left);
      rows := rows + [objects[id].obj];
      left := left - {id};
    }
    NoRows(objects);
  }

  lemma NoRows(objects: Table)
    ensures RowsFor(objects, {}) == []
  {
  }
}
