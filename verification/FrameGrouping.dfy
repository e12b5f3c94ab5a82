/** The simulator's frame grouping: rows gathered by time, the satellite carried forward. */
module FrameGrouping {
  import opened Floats
  import opened Records
  import opened Collections
  import opened SortedKeys
  import opened Frames

  datatype Row = Row(time: F64, isSat: bool, rec: ObjectRecord)

  datatype Group = Group(t: F64, sat: Option<ObjectRecord>, objects: seq<ObjectRecord>)

  /** The ordered map of groups is keyed by the number the time stands for: the two zeros are one key. */
  type Groups = map<int, Group>

  datatype GroupResult = Grouped(frames: seq<Frame>) | NoFirstSatellite

  // ----- what each time must end up with -----

  /** The object rows of one time, in row order. */
  function ObjectsAt(rows: seq<Row>, k: int): seq<ObjectRecord> {
    if rows == [] then [] else
    var last := rows[|rows| - 1];
    ObjectsAt(rows[..|rows| - 1], k) + if Key(last.time) == k && !last.isSat then [last.rec] else []
  }

  /** The last satellite row of one time. */
  function SatelliteAt(rows: seq<Row>, k: int): Option<ObjectRecord> {
    if rows == [] then None else
    var last := rows[|rows| - 1];
    if Key(last.time) == k && last.isSat then Some(last.rec) else SatelliteAt(rows[..|rows| - 1], k)
  }

  function Times(rows: seq<Row>): set<int> {
    set i | 0 <= i < |rows| :: Key(rows[i].time)
  }

  /** `sat` is the satellite of the latest time up to `k` that has one. */
  ghost predicate IsCarried(rows: seq<Row>, k: int, sat: ObjectRecord) {
    exists j :: j <= k && SatelliteAt(rows, j) == Some(sat) && forall m :: j < m <= k ==> SatelliteAt(rows, m) == None
  }

  // ----- the code -----

  function AddRow(groups: Groups, row: Row): Groups {
    var k := Key(row.time);
    var g := if k in groups then groups[k] else Group(0, None, []);
    groups[k := if row.isSat then Group(row.time, Some(row.rec), g.objects)
                else Group(row.time, g.sat, g.objects + [row.rec])]
  }

  function GroupAll(rows: seq<Row>): Groups {
    if rows == [] then map[] else AddRow(GroupAll(rows[..|rows| - 1]), rows[|rows| - 1])
  }

  lemma {:induction false} GroupsHold(rows: seq<Row>, k: int)
    ensures var gs := GroupAll(rows);
      && (k in gs <==> k in Times(rows))
      && (k in gs ==> gs[k].objects == ObjectsAt(rows, k) && gs[k].sat == SatelliteAt(rows, k) && Key(gs[k].t) == k)
      && (k !in gs ==> ObjectsAt(rows, k) == [] && SatelliteAt(rows, k) == None)
  {
    hide Key;
    if rows != [] {
      var n := |rows| - 1;
      var front := rows[..n];
      GroupsHold(front, k);
      assert k in Times(rows) <==> k in Times(front) || k == Key(rows[n].time) by {
        if k in Times(front) {
          var i :| 0 <= i < n && Key(front[i].time) == k;
          assert rows[i] == front[i];
        }
        if k in Times(rows) {
          var i :| 0 <= i <= n && Key(rows[i].time) == k;
          assert i < n ==> front[i] == rows[i];
        }
      }
    }
  }

  /** The groups hold what each time must end up with. */
  ghost predicate GroupsOk(rows: seq<Row>, groups: Groups) {
    forall k ::
      && (k in groups <==> k in Times(rows))
      && (k in groups ==> groups[k].objects == ObjectsAt(rows, k) && groups[k].sat == SatelliteAt(rows, k)
                          && Key(groups[k].t) == k)
      && (k !in groups ==> SatelliteAt(rows, k) == None)
  }

  /** The earliest time group has no satellite row. */
  ghost predicate FirstLacksSatellite(rows: seq<Row>) {
    rows != [] && SatelliteAt(rows, Earliest(rows)) == None
  }

  function Earliest(rows: seq<Row>): (k: int)
    requires rows != []
    ensures forall i :: 0 <= i < |rows| ==> k <= Key(rows[i].time)
    ensures exists i :: 0 <= i < |rows| && Key(rows[i].time) == k
  {
    if |rows| == 1 then Key(rows[0].time) else
    var k := Earliest(rows[..|rows| - 1]);
    assert forall i :: 0 <= i < |rows| - 1 ==> rows[..|rows| - 1][i] == rows[i];
    if Key(rows[|rows| - 1].time) < k then Key(rows[|rows| - 1].time) else k
  }

  /** buildFrames: fill the map of groups, then walk it in time order carrying the satellite. */
  method BuildFrames(rows: seq<Row>) returns (r: GroupResult)
    ensures r.NoFirstSatellite? <==> FirstLacksSatellite(rows)
    ensures r.Grouped? ==> FramesMatch(rows, Sorted(Times(rows)), r.frames)
  {
    hide Key, GroupAll, ObjectsAt, SatelliteAt, Sorted, Times, Earliest, FramesMatch, GroupsOk;
    var byTime := GroupRows(rows);
    assert GroupsOk(rows, byTime) by { GroupAllOk(rows); }
    KeysAreTimes(rows, byTime);
    var order := Sorted(set k | k in byTime);
    EarliestFirst(rows);
    if order == [] {
      NothingMatches(rows);
      return Grouped([]);
    }
    assert order[0] in byTime && byTime[order[0]].sat == SatelliteAt(rows, order[0]) by {
      GroupAt(rows, byTime, order, 0);
    }
    if byTime[order[0]].sat.None? {
      return NoFirstSatellite;
    }
    forall i | 0 <= i < |order|
      ensures order[i] in byTime
    {
      GroupAt(rows, byTime, order, i);
    }
    var frames := WalkGroups(rows, byTime, order);
    r := Grouped(frames);
  }

  lemma {:induction false} GroupAllOk(rows: seq<Row>)
    ensures GroupsOk(rows, GroupAll(rows))
  {
    hide Key, GroupAll, ObjectsAt, SatelliteAt, Times;
    forall k
      ensures k in GroupAll(rows) <==> k in Times(rows)
      ensures k in GroupAll(rows) ==>
        (GroupAll(rows)[k].objects == ObjectsAt(rows, k)
         && GroupAll(rows)[k].sat == SatelliteAt(rows, k) && Key(GroupAll(rows)[k].t) == k)
      ensures k !in GroupAll(rows) ==> SatelliteAt(rows, k) == None
    {
      GroupsHold(rows, k);
    }
  }

  lemma {:induction false} KeysAreTimes(rows: seq<Row>, groups: Groups)
    requires GroupsOk(rows, groups)
    ensures (set k | k in groups) == Times(rows)
  {
    hide Key, ObjectsAt, SatelliteAt, Times;
    SetsEqual((set k | k in groups), Times(rows));
  }

  lemma {:induction false} GroupAt(rows: seq<Row>, groups: Groups, order: seq<int>, i: nat)
    requires GroupsOk(rows, groups) && order == Sorted(Times(rows)) && i < |order|
    ensures order[i] in groups && groups[order[i]].objects == ObjectsAt(rows, order[i])
      && groups[order[i]].sat == SatelliteAt(rows, order[i]) && Key(groups[order[i]].t) == order[i]
  {
    hide Key, ObjectsAt, SatelliteAt, Times, Sorted;
    assert order[i] in order;
  }

  lemma NothingMatches(rows: seq<Row>)
    requires Sorted(Times(rows)) == []
    ensures FramesMatch(rows, Sorted(Times(rows)), [])
  {
  }

  /** The first key of the ordered map is the earliest time. */
  lemma {:induction false} EarliestFirst(rows: seq<Row>)
    ensures var order := Sorted(Times(rows));
      if rows == [] then order == [] else order != [] && order[0] == Earliest(rows)
  {
    hide Key, Sorted, Earliest;
    var order := Sorted(Times(rows));
    if rows == [] {
      SetsEqual(Times(rows), {});
    } else {
      var i :| 0 <= i < |rows| && Key(rows[i].time) == Earliest(rows);
      assert Earliest(rows) in Times(rows);
      assert Earliest(rows) in order;
      var j :| 0 <= j < |order| && order[j] == Earliest(rows);
      assert order[0] in order;
      var m :| 0 <= m < |rows| && Key(rows[m].time) == order[0];
    }
  }

  /** The walk over the ordered groups. */
  method WalkGroups(ghost rows: seq<Row>, byTime: Groups, order: seq<int>) returns (frames: seq<Frame>)
    requires GroupsOk(rows, byTime) && order == Sorted(Times(rows)) && order != []
    requires forall i :: 0 <= i < |order| ==> order[i] in byTime
    requires byTime[order[0]].sat.Some?
    ensures FramesMatch(rows, order, frames)
  {
    hide Key, ObjectsAt, SatelliteAt, Sorted, Times, FramesMatch, IsCarried, GroupsOk;
    var lastSat := byTime[order[0]].sat.value;
    frames := [];
    assert FramesMatch(rows, order[..0], frames) by { NoFrames(rows, order); }
    for i := 0 to |order|
      invariant FramesMatch(rows, order[..i], frames)
      invariant i > 0 ==> IsCarried(rows, order[i - 1], lastSat)
    {
      var g := byTime[order[i]];
      GroupAt(rows, byTime, order, i);
      if g.sat.Some? {
        lastSat := g.sat.value;
      }
      CarryOn(rows, byTime, order, i, lastSat);
      var frame := Frame(g.t, lastSat, g.objects);
      assert order[..i + 1] == order[..i] + [order[i]];
      FramesMatchGrow(rows, order[..i], frames, order[i], frame);
      frames := frames + [frame];
    }
    assert order[..|order|] == order;
  }

  lemma NoFrames(rows: seq<Row>, order: seq<int>)
    ensures FramesMatch(rows, order[..0], [])
  {
  }

  method GroupRows(rows: seq<Row>) returns (byTime: Groups)
    ensures byTime == GroupAll(rows)
  {
    hide Key;
    byTime := map[];
    for i := 0 to |rows|
      invariant byTime == GroupAll(rows[..i])
    {
      assert rows[..i + 1][..i] == rows[..i];
      var row := rows[i];
      var k := Key(row.time);
      var g := if k in byTime then byTime[k] else Group(0, None, []);
      if row.isSat {
        g := Group(row.time, Some(row.rec), g.objects);
      } else {
        g := Group(row.time, g.sat, g.objects + [row.rec]);
      }
      byTime := byTime[k := g];
    }
    assert rows[..|rows|] == rows;
  }

  /** One frame per time: that time, its objects in row order, and the carried satellite. */
  ghost predicate FramesMatch(rows: seq<Row>, times: seq<int>, frames: seq<Frame>) {
    && |frames| == |times|
    && forall i :: 0 <= i < |times| ==>
         Key(frames[i].t) == times[i] && frames[i].objects == ObjectsAt(rows, times[i])
         && IsCarried(rows, times[i], frames[i].sat)
  }

  lemma FramesMatchGrow(rows: seq<Row>, times: seq<int>, frames: seq<Frame>, k: int, f: Frame)
    requires FramesMatch(rows, times, frames)
    requires Key(f.t) == k && f.objects == ObjectsAt(rows, k) && IsCarried(rows, k, f.sat)
    ensures FramesMatch(rows, times + [k], frames + [f])
  {
    hide Key, ObjectsAt, IsCarried;
  }

  lemma {:induction false} NoTimeBetween(s: set<int>, i: nat, m: int)
    requires 0 < i < |Sorted(s)| && Sorted(s)[i - 1] < m < Sorted(s)[i]
    ensures m !in s
  {
    hide Sorted;
    var order := Sorted(s);
    assert m in s <==> m in order;
  }

  /** The carried satellite at one time from that at the time before. */
  lemma {:induction false} CarryOn(rows: seq<Row>, groups: Groups, order: seq<int>, i: nat, sat: ObjectRecord)
    requires GroupsOk(rows, groups) && order == Sorted(Times(rows)) && i < |order|
    requires SatelliteAt(rows, order[i]).Some? ==> SatelliteAt(rows, order[i]) == Some(sat)
    requires SatelliteAt(rows, order[i]).None? ==> i > 0 && IsCarried(rows, order[i - 1], sat)
    ensures IsCarried(rows, order[i], sat)
  {
    hide Sorted, Times, SatelliteAt, ObjectsAt, Key;
    if SatelliteAt(rows, order[i]).None? {
      var j :| j <= order[i - 1] && SatelliteAt(rows, j) == Some(sat)
        && forall m :: j < m <= order[i - 1] ==> SatelliteAt(rows, m) == None;
      assert order[i - 1] < order[i];
      forall m | j < m <= order[i]
        ensures SatelliteAt(rows, m) == None
      {
        if order[i - 1] < m < order[i] {
          NoTimeBetween(Times(rows), i, m);
        }
      }
    }
  }

  // ----- no row is lost or duplicated -----

  function AllObjects(rows: seq<Row>): seq<ObjectRecord> {
    if rows == [] then [] else
    var last := rows[|rows| - 1];
    AllObjects(rows[..|rows| - 1]) + if last.isSat then [] else [last.rec]
  }

  function Gather(rows: seq<Row>, ks: seq<int>): seq<ObjectRecord> {
    if ks == [] then [] else Gather(rows, ks[..|ks| - 1]) + ObjectsAt(rows, ks[|ks| - 1])
  }

  /** What one row adds to the objects gathered over some times. */
  function Added(row: Row, ks: seq<int>): multiset<ObjectRecord> {
    if !row.isSat && Key(row.time) in ks then multiset{row.rec} else multiset{}
  }

  lemma {:induction false} AddedLast(row: Row, ks: seq<int>)
    requires ks != [] && forall i, j :: 0 <= i < j < |ks| ==> ks[i] != ks[j]
    ensures var n := |ks| - 1; Added(row, ks) == Added(row, ks[..n]) + Added(row, [ks[n]])
  {
    hide Key;
    assert ks == ks[..|ks| - 1] + [ks[|ks| - 1]];
  }

  lemma ObjectsAtRow(rows: seq<Row>, k: int)
    requires rows != []
    ensures var front, last := rows[..|rows| - 1], rows[|rows| - 1];
      multiset(ObjectsAt(rows, k)) == multiset(ObjectsAt(front, k)) + Added(last, [k])
  {
    hide Key;
  }

  lemma JoinMultisets(a: seq<ObjectRecord>, b: seq<ObjectRecord>, a': seq<ObjectRecord>, b': seq<ObjectRecord>,
                      x: multiset<ObjectRecord>, y: multiset<ObjectRecord>)
    requires multiset(a') == multiset(a) + x && multiset(b') == multiset(b) + y
    ensures multiset(a' + b') == multiset(a + b) + (x + y)
  {
  }

  lemma {:induction false} GatherRow(rows: seq<Row>, ks: seq<int>)
    requires rows != [] && forall i, j :: 0 <= i < j < |ks| ==> ks[i] != ks[j]
    ensures multiset(Gather(rows, ks)) == multiset(Gather(rows[..|rows| - 1], ks)) + Added(rows[|rows| - 1], ks)
  {
    hide ObjectsAt, Added;
    var front, last := rows[..|rows| - 1], rows[|rows| - 1];
    if ks == [] {
      NothingAdded(last);
    } else {
      var n := |ks| - 1;
      GatherRow(rows, ks[..n]);
      ObjectsAtRow(rows, ks[n]);
      AddedLast(last, ks);
      JoinMultisets(Gather(front, ks[..n]), ObjectsAt(front, ks[n]), Gather(rows, ks[..n]), ObjectsAt(rows, ks[n]),
                    Added(last, ks[..n]), Added(last, [ks[n]]));
    }
  }

  lemma NothingAdded(row: Row)
    ensures Added(row, []) == multiset{}
  {
  }

  lemma {:induction false} GatherAll(rows: seq<Row>, ks: seq<int>)
    requires forall i, j :: 0 <= i < j < |ks| ==> ks[i] != ks[j]
    requires forall i :: 0 <= i < |rows| ==> Key(rows[i].time) in ks
    ensures multiset(Gather(rows, ks)) == multiset(AllObjects(rows))
  {
    hide Key;
    if rows == [] {
      GatherNothing(ks);
    } else {
      var n := |rows| - 1;
      assert forall i :: 0 <= i < n ==> rows[..n][i] == rows[i];
      GatherAll(rows[..n], ks);
      GatherRow(rows, ks);
    }
  }

  lemma {:induction false} GatherNothing(ks: seq<int>)
    ensures Gather([], ks) == []
  {
    if ks != [] {
      GatherNothing(ks[..|ks| - 1]);
    }
  }

  function Contents(frames: seq<Frame>): seq<ObjectRecord> {
    if frames == [] then [] else Contents(frames[..|frames| - 1]) + frames[|frames| - 1].objects
  }

  lemma {:induction false} ContentsAreGathered(rows: seq<Row>, times: seq<int>, frames: seq<Frame>)
    requires FramesMatch(rows, times, frames)
    ensures Contents(frames) == Gather(rows, times)
  {
    hide Key, ObjectsAt, IsCarried;
    if frames != [] {
      var n := |frames| - 1;
      ContentsAreGathered(rows, times[..n], frames[..n]);
    }
  }

  lemma AscendingFrames(rows: seq<Row>, times: seq<int>, frames: seq<Frame>)
    requires FramesMatch(rows, times, frames) && Ascending(times)
    ensures forall i, j :: 0 <= i < j < |frames| ==> Key(frames[i].t) < Key(frames[j].t) && times[i] != times[j]
  {
    hide Key, ObjectsAt, IsCarried;
  }

  lemma MatchLength(rows: seq<Row>, times: seq<int>, frames: seq<Frame>)
    requires FramesMatch(rows, times, frames)
    ensures |frames| == |times| && forall i :: 0 <= i < |times| ==> Key(frames[i].t) == times[i]
  {
    hide Key, ObjectsAt, IsCarried;
  }

  lemma {:induction false} EveryTimeListed(rows: seq<Row>, i: nat)
    requires i < |rows|
    ensures Key(rows[i].time) in Sorted(Times(rows))
  {
    hide Key, Sorted;
    assert Key(rows[i].time) in Times(rows);
  }

  lemma {:induction false} FrameOfRow(rows: seq<Row>, frames: seq<Frame>, i: nat)
    requires FramesMatch(rows, Sorted(Times(rows)), frames) && i < |rows|
    ensures exists j :: 0 <= j < |frames| && Key(frames[j].t) == Key(rows[i].time)
  {
    hide Key, Sorted, FramesMatch, Times, Ascending;
    var order := Sorted(Times(rows));
    EveryTimeListed(rows, i);
    MatchLength(rows, order, frames);
    var j :| 0 <= j < |order| && order[j] == Key(rows[i].time);
    assert Key(frames[j].t) == order[j];
  }

  /** The frames are strictly ascending in time and hold, between them, every object row exactly once. */
  lemma {:induction false} FramesConserveRows(rows: seq<Row>, frames: seq<Frame>)
    requires FramesMatch(rows, Sorted(Times(rows)), frames)
    ensures forall i, j :: 0 <= i < j < |frames| ==> Key(frames[i].t) < Key(frames[j].t)
    ensures multiset(Contents(frames)) == multiset(AllObjects(rows))
    ensures forall i :: 0 <= i < |rows| ==> exists j :: 0 <= j < |frames| && Key(frames[j].t) == Key(rows[i].time)
  {
    hide Key, Sorted, Times, ObjectsAt, IsCarried, Contents, Gather, AllObjects, FramesMatch;
    var order := Sorted(Times(rows));
    MatchLength(rows, order, frames);
    AscendingFrames(rows, order, frames);
    forall i | 0 <= i < |rows|
      ensures Key(rows[i].time) in order
    {
      EveryTimeListed(rows, i);
    }
    ContentsAreGathered(rows, order, frames);
    GatherAll(rows, order);
    forall i | 0 <= i < |rows|
      ensures exists j :: 0 <= j < |frames| && Key(frames[j].t) == Key(rows[i].time)
    {
      FrameOfRow(rows, frames, i);
    }
  }
}
