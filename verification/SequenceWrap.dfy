/** The wrapping 32-bit sequence test against unbounded packet numbers (RFC 1982, section 3.2). */
module SequenceWrap {
  import opened Bytes
  import opened Records
  import opened Store
  import opened StoreHistory

  /** The sequence field of the packet with unbounded number `k`. */
  function Wrapped(k: int): u32 {
    k % TWO32
  }

  /** Every packet of the run carries the wrapped form of its number in `ks`. */
  ghost predicate Numbered(evs: seq<Event>, ks: seq<int>) {
    |ks| == |evs| && forall i :: 0 <= i < |evs| && evs[i].Packet? ==> evs[i].pkt.sequence == Wrapped(ks[i])
  }

  /** The numbers of the packets that were accepted, in order. */
  function AcceptedNumbers(expiry: int, evs: seq<Event>, ks: seq<int>): seq<int>
    requires |ks| == |evs|
  {
    if evs == [] then [] else
    var n := |evs| - 1;
    AcceptedNumbers(expiry, evs[..n], ks[..n])
    + if evs[n].Packet? && !Rejects(Run(expiry, evs[..n]), evs[n].pkt) then [ks[n]] else []
  }

  /** Within half the sequence space of the last accepted number. */
  predicate Near(k: int, high: int) {
    -0x8000_0000 <= k - high <= 0x7FFF_FFFF
  }

  /** Loss, duplication and reordering are arbitrary, but no packet is half the sequence space away. */
  ghost predicate StaysNear(expiry: int, evs: seq<Event>, ks: seq<int>)
    requires |ks| == |evs|
  {
    forall i :: 0 <= i < |evs| && evs[i].Packet? ==>
      var a := AcceptedNumbers(expiry, evs[..i], ks[..i]);
      a != [] ==> Near(ks[i], a[|a| - 1])
  }

  lemma {:induction false} ModOfDifference(k: int, h: int)
    ensures (Wrapped(k) - Wrapped(h)) % TWO32 == (k - h) % TWO32
  {
    var p, q := k / TWO32, h / TWO32;
    assert k == TWO32 * p + Wrapped(k) && h == TWO32 * q + Wrapped(h);
    ModPlusMultiple(Wrapped(k) - Wrapped(h), p - q);
  }

  lemma {:induction false} ModPlusMultiple(a: int, m: int)
    ensures (a + TWO32 * m) % TWO32 == a % TWO32
  {
    var r, d := a % TWO32, a / TWO32;
    assert a + TWO32 * m == TWO32 * (d + m) + r;
  }

  /** Inside the window the wrapping comparison is the comparison of the unbounded numbers. */
  lemma {:induction false} WrapCompares(k: int, h: int)
    requires Near(k, h)
    ensures NotAfter(Wrapped(k), Wrapped(h)) <==> k <= h
  {
    ModOfDifference(k, h);
  }

  /** Over any number of wraps, accepted numbers strictly increase and the store remembers the last. */
  lemma {:induction false} WrapRefinesCounting(expiry: int, evs: seq<Event>, ks: seq<int>)
    requires Numbered(evs, ks) && StaysNear(expiry, evs, ks)
    ensures var a, s := AcceptedNumbers(expiry, evs, ks), Run(expiry, evs);
      && (forall i, j :: 0 <= i < j < |a| ==> a[i] < a[j])
      && (s.haveSeq <==> a != [])
      && (a != [] ==> s.lastSeq == Wrapped(a[|a| - 1]))
  {
    hide NotAfter, Upsert, Wrapped, Near;
    if evs != [] {
      var n := |evs| - 1;
      PrefixStaysNear(expiry, evs, ks);
      WrapRefinesCounting(expiry, evs[..n], ks[..n]);
      var a, s := AcceptedNumbers(expiry, evs[..n], ks[..n]), Run(expiry, evs[..n]);
      if evs[n].Packet? && a != [] {
        WrapCompares(ks[n], a[|a| - 1]);
      }
    }
  }

  lemma {:induction false} PrefixStaysNear(expiry: int, evs: seq<Event>, ks: seq<int>)
    requires evs != [] && Numbered(evs, ks) && StaysNear(expiry, evs, ks)
    ensures var n := |evs| - 1; Numbered(evs[..n], ks[..n]) && StaysNear(expiry, evs[..n], ks[..n])
  {
    hide Wrapped, Near, Run, Rejects;
    var n := |evs| - 1;
    forall i | 0 <= i < n
      ensures evs[..n][..i] == evs[..i] && ks[..n][..i] == ks[..i]
    {
    }
  }

  /** A packet is accepted exactly when it is the first or its number exceeds every accepted one. */
  lemma {:induction false} AcceptedIffNewest(expiry: int, evs: seq<Event>, ks: seq<int>, pkt: StatePacket, wall: int,
                                             mono: int, k: int)
    requires Numbered(evs + [Packet(pkt, wall, mono)], ks + [k])
    requires StaysNear(expiry, evs + [Packet(pkt, wall, mono)], ks + [k])
    ensures var a := AcceptedNumbers(expiry, evs, ks);
      !Rejects(Run(expiry, evs), pkt) <==> forall i :: 0 <= i < |a| ==> a[i] < k
  {
    hide NotAfter, Wrapped, Near, Run, AcceptedNumbers;
    var all, numbers, n := evs + [Packet(pkt, wall, mono)], ks + [k], |evs|;
    assert all[..n] == evs && numbers[..n] == ks && all[n].Packet?;
    PrefixStaysNear(expiry, all, numbers);
    WrapRefinesCounting(expiry, evs, ks);
    var a := AcceptedNumbers(expiry, evs, ks);
    if a != [] {
      WrapCompares(k, a[|a| - 1]);
    }
  }
}
