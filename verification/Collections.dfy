/** Witnesses for nonempty sets and for collections that differ, and ends of sequences. */
module Collections {
  lemma {:induction false} Pick<T>(s: set<T>) returns (x: T)
    requires s != {}
    ensures x in s
  {
    x :| x in s;
  }

  lemma {:induction false} SetsDiffer<T>(a: set<T>, b: set<T>) returns (x: T)
    requires a != b
    ensures (x in a) != (x in b)
  {
    x :| (x in a) != (x in b);
  }

  lemma {:induction false} MapsDiffer<K, V>(m: map<K, V>, n: map<K, V>) returns (k: K)
    requires m != n
    ensures (k in m) != (k in n) || (k in m && m[k] != n[k])
  {
    k :| (k in m) != (k in n) || (k in m && m[k] != n[k]);
  }

  /** Sets of numbers with the same elements are equal. */
  lemma {:induction false} SetsEqual(a: set<int>, b: set<int>)
    requires forall k :: k in a <==> k in b
    ensures a == b
  {
    if a != b {
      var x := SetsDiffer(a, b);
      assert false;
    }
  }

  /** Maps from numbers that agree everywhere are equal. */
  lemma {:induction false} MapsEqual<V>(m: map<int, V>, n: map<int, V>)
    requires forall k :: k in m <==> k in n
    requires forall k :: k in m ==> m[k] == n[k]
    ensures m == n
  {
    if m != n {
      var x := MapsDiffer(m, n);
      assert false;
    }
  }

  /** The last `n` elements, or all of them. */
  function LastN<T>(s: seq<T>, n: nat): (r: seq<T>)
    ensures |r| <= n
  {
    if |s| > n then s[|s| - n..] else s
  }

  /** A function applied to every element. */
  function Each<T, U>(s: seq<T>, f: T -> U): (r: seq<U>)
    ensures |r| == |s| && forall i :: 0 <= i < |s| ==> r[i] == f(s[i])
  {
    seq(|s|, i requires 0 <= i < |s| => f(s[i]))
  }
}
