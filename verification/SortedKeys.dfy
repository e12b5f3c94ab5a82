/** Finite sets of numbers listed in ascending order: how ordered maps are walked. */
module SortedKeys {
  import opened Collections

  predicate Ascending(s: seq<int>) {
    forall i, j :: 0 <= i < j < |s| ==> s[i] < s[j]
  }

  lemma {:induction false} SmallerSet(t: set<int>, s: set<int>, x: int)
    requires t <= s && x in s && x !in t
    ensures |t| < |s|
  {
    assert s == t + (s - t) && x in s - t;
    assert |s| == |t| + |s - t|;
  }

  lemma {:induction false} LeastExists(s: set<int>)
    requires s != {}
    ensures exists k :: k in s && forall j :: j in s ==> k <= j
    decreases |s|
  {
    var x := Pick(s);
    if exists y :: y in s && y < x {
      var y :| y in s && y < x;
      var t := set j | j in s && j < x;
      assert y in t;
      SmallerSet(t, s, x);
      LeastExists(t);
      var k :| k in t && forall j :: j in t ==> k <= j;
      forall j | j in s
        ensures k <= j
      {
        assert j < x ==> j in t;
      }
    } else {
      assert forall j :: j in s ==> x <= j;
    }
  }

  /** The least element of a nonempty set. */
  function Least(s: set<int>): (k: int)
    requires s != {}
    ensures k in s && forall j :: j in s ==> k <= j
  {
    LeastExists(s);
    var k :| k in s && forall j :: j in s ==> k <= j;
    k
  }

  /** The elements of a set, each once, in ascending order. */
  function Sorted(s: set<int>): (r: seq<int>)
    ensures Ascending(r)
    ensures forall k :: k in r <==> k in s
    ensures |r| == |s|
  {
    if s == {} then [] else
    var k := Least(s);
    var rest := Sorted(s - {k});
    assert forall i :: 0 <= i < |rest| ==> rest[i] in s - {k};
    [k] + rest
  }
}
