/** The frames of a table of rows, by the places of the rows. */
module FrameRows {
  import opened Floats
  import opened Records
  import opened SortedKeys
  import opened Frames
  import opened FrameGrouping

  // ----- the rows of one time -----

  predicate IsObjectRow(rows: seq<Row>, k: int, j: int) {
    0 <= j < |rows| && !rows[j].isSat && Key(rows[j].time) == k
  }

  predicate IsSatelliteRow(rows: seq<Row>, k: int, j: int) {
    0 <= j < |rows| && rows[j].isSat && Key(rows[j].time) == k
  }

  /** The objects are the object rows of the time, each once and in their order. */
  ghost predicate ObjectsAre(rows: seq<Row>, k: int, objects: seq<ObjectRecord>, js: seq<int>) {
    && |js| == |objects| && Ascending(js)
    && (forall a :: 0 <= a < |js| ==> IsObjectRow(rows, k, js[a]) && objects[a] == rows[js[a]].rec)
    && (forall j :: IsObjectRow(rows, k, j) ==> j in js)
  }

  lemma {:induction false} ObjectsAtRows(rows: seq<Row>, k: int) returns (js: seq<int>)
    ensures ObjectsAre(rows, k, ObjectsAt(rows, k), js)
  {
    hide Key, ObjectsAre;
    js := [];
    if rows == [] {
      NoObjects(k);
    } else {
      var n := |rows| - 1;
      var front := ObjectsAtRows(rows[..n], k);
      if IsObjectRow(rows, k, n) {
        OneMoreObject(rows, k, ObjectsAt(rows[..n], k), front);
        js := front + [n];
      } else {
        NoMoreObject(rows, k, ObjectsAt(rows[..n], k), front);
        assert ObjectsAt(rows, k) == ObjectsAt(rows[..n], k);
        js := front;
      }
    }
  }

  lemma NoObjects(k: int)
    ensures ObjectsAre([], k, [], [])
  {
  }

  lemma {:induction false} SameRows(rows: seq<Row>, k: int)
    requires rows != []
    ensures var n := |rows| - 1; forall j :: 0 <= j < n ==> (IsObjectRow(rows, k, j) <==> IsObjectRow(rows[..n], k, j))
  {
    hide Key;
  }

  lemma {:induction false} OneMoreObject(rows: seq<Row>, k: int, objects: seq<ObjectRecord>, js: seq<int>)
    requires rows != [] && ObjectsAre(rows[..|rows| - 1], k, objects, js) && IsObjectRow(rows, k, |rows| - 1)
    ensures ObjectsAre(rows, k, objects + [rows[|rows| - 1].rec], js + [|rows| - 1])
  {
    hide Key;
    var n := |rows| - 1;
    SameRows(rows, k);
    hide IsObjectRow;
    forall a | 0 <= a < |js|
      ensures js[a] < n
    {
      InRows(rows[..n], k, js[a]);
    }
    var all := js + [n];
    forall j | IsObjectRow(rows, k, j)
      ensures j in all
    {
      InRows(rows, k, j);
      if j == n {
        assert all[n - n + |js|] == n;
      } else {
        assert j in js;
      }
    }
  }

  lemma {:induction false} NoMoreObject(rows: seq<Row>, k: int, objects: seq<ObjectRecord>, js: seq<int>)
    requires rows != [] && ObjectsAre(rows[..|rows| - 1], k, objects, js) && !IsObjectRow(rows, k, |rows| - 1)
    ensures ObjectsAre(rows, k, objects, js)
  {
    hide Key;
    var n := |rows| - 1;
    SameRows(rows, k);
    hide IsObjectRow;
    forall a | 0 <= a < |js|
      ensures js[a] < n
    {
      InRows(rows[..n], k, js[a]);
    }
    forall j | IsObjectRow(rows, k, j)
      ensures j in js
    {
      InRows(rows, k, j);
    }
  }

  lemma InRows(rows: seq<Row>, k: int, j: int)
    requires IsObjectRow(rows, k, j)
    ensures 0 <= j < |rows|
  {
  }

  /** The satellite row of a time that comes last. */
  ghost predicate IsLastSatellite(rows: seq<Row>, k: int, j: int) {
    IsSatelliteRow(rows, k, j) && forall i :: IsSatelliteRow(rows, k, i) ==> i <= j
  }

  lemma {:induction false} SatelliteAtRow(rows: seq<Row>, k: int) returns (j: int)
    ensures match SatelliteAt(rows, k)
      case None => forall i :: !IsSatelliteRow(rows, k, i)
      case Some(r) => IsLastSatellite(rows, k, j) && rows[j].rec == r
  {
    hide Key;
    j := 0;
    if rows != [] {
      var n := |rows| - 1;
      var front := SatelliteAtRow(rows[..n], k);
      j := if IsSatelliteRow(rows, k, n) then n else front;
      assert forall i :: 0 <= i < n ==> (IsSatelliteRow(rows, k, i) <==> IsSatelliteRow(rows[..n], k, i));
    }
  }

  // ----- frames -----

  /** The satellite row in force at a time: the last row of the latest time up to it that has one. */
  ghost predicate InForce(rows: seq<Row>, k: int, j: int) {
    && 0 <= j < |rows| && rows[j].isSat && Key(rows[j].time) <= k
    && IsLastSatellite(rows, Key(rows[j].time), j)
    && forall i :: 0 <= i < |rows| && rows[i].isSat && Key(rows[i].time) <= k ==> Key(rows[i].time) <= Key(rows[j].time)
  }

  lemma {:induction false} CarriedRow(rows: seq<Row>, k: int, sat: ObjectRecord) returns (j: int)
    requires IsCarried(rows, k, sat)
    ensures InForce(rows, k, j) && rows[j].rec == sat
  {
    hide Key, SatelliteAt;
    var t :| t <= k && SatelliteAt(rows, t) == Some(sat) && forall m :: t < m <= k ==> SatelliteAt(rows, m) == None;
    j := SatelliteAtRow(rows, t);
    forall i | 0 <= i < |rows| && rows[i].isSat && Key(rows[i].time) <= k
      ensures Key(rows[i].time) <= t
    {
      var m := Key(rows[i].time);
      if m > t {
        assert IsSatelliteRow(rows, m, i);
        var none := SatelliteAtRow(rows, m);
      }
    }
  }

  /** Each frame of a result of buildFrames: all object rows of its time, in their order, under the satellite in
      force. */
  lemma {:induction false} FrameShows(rows: seq<Row>, frames: seq<Frame>, i: nat) returns (js: seq<int>, j: int)
    requires FramesMatch(rows, Sorted(Times(rows)), frames) && i < |frames|
    ensures ObjectsAre(rows, Key(frames[i].t), frames[i].objects, js)
    ensures InForce(rows, Key(frames[i].t), j) && frames[i].sat == rows[j].rec
  {
    hide Key, Sorted, ObjectsAt, IsCarried, ObjectsAre, InForce, Times;
    var k := Sorted(Times(rows))[i];
    js := ObjectsAtRows(rows, k);
    j := CarriedRow(rows, k, frames[i].sat);
  }

  /** buildFrames fails exactly when some row is there and no satellite row has the least time. */
  lemma {:induction false} FailsIff(rows: seq<Row>)
    ensures FirstLacksSatellite(rows) <==>
      rows != [] && forall j :: 0 <= j < |rows| && rows[j].isSat ==>
                      exists i :: 0 <= i < |rows| && Key(rows[i].time) < Key(rows[j].time)
  {
    hide Key, SatelliteAt;
    if rows != [] {
      var k := Earliest(rows);
      var first :| 0 <= first < |rows| && Key(rows[first].time) == k;
      var s := SatelliteAtRow(rows, k);
      if SatelliteAt(rows, k).None? {
        forall j | 0 <= j < |rows| && rows[j].isSat
          ensures exists i :: 0 <= i < |rows| && Key(rows[i].time) < Key(rows[j].time)
        {
          assert !IsSatelliteRow(rows, k, j);
          assert Key(rows[first].time) < Key(rows[j].time);
        }
      }
    }
  }
}
