/** The simulator's OLV1 chunking, and that the receiver cannot tell how a frame was chunked. */
module PacketBuilder {
  import opened Bytes
  import opened Records
  import opened Collections
  import opened Frames
  import opened Store
  import opened Olv1Codec
  import Olv1Source

  function ClampChunk(chunk: nat): (c: nat)
    ensures 1 <= c <= MAX_OBJECTS_PER_PACKET
  {
    if chunk < 1 then 1 else if chunk > MAX_OBJECTS_PER_PACKET then MAX_OBJECTS_PER_PACKET else chunk
  }

  function Total(f: Frame): (n: u16)
    ensures n <= MAX_TRACKED_OBJECTS && n <= |f.objects|
  {
    if |f.objects| < MAX_TRACKED_OBJECTS then |f.objects| else MAX_TRACKED_OBJECTS
  }

  function End(f: Frame, c: nat, i: nat): (end: nat)
    requires i <= |f.objects|
    ensures i <= end <= |f.objects|
  {
    if i + c < |f.objects| then i + c else |f.objects|
  }

  /** The packet that carries the objects from `i` on, at most `c` of them. */
  function PacketAt(f: Frame, c: nat, i: nat, sequence: u32): StatePacket
    requires i <= |f.objects|
  {
    StatePacket(sequence, f.sat.id, f.sat.pos, f.sat.vel, Total(f), f.objects[i..End(f, c, i)])
  }

  /** The packets from object `i` on: always at least one. */
  function PacketsFrom(f: Frame, c: nat, i: nat, sequence: u32): (pkts: seq<StatePacket>)
    requires c >= 1 && i <= |f.objects|
    ensures pkts != []
    decreases |f.objects| - i
  {
    var end := End(f, c, i);
    [PacketAt(f, c, i, sequence)]
    + if end < |f.objects| then PacketsFrom(f, c, end, (sequence + 1) % TWO32) else []
  }

  /** buildPackets: the body runs once even for a frame without objects. */
  method BuildPackets(f: Frame, chunk: nat, sequence: u32) returns (packets: seq<bytes>, sequence': u32)
    ensures var pkts := PacketsFrom(f, ClampChunk(chunk), 0, sequence);
      && packets == Each(pkts, Encode) && sequence' == (sequence + |pkts|) % TWO32
  {
    hide Encode, PacketsFrom, ClampChunk;
    var c := ClampChunk(chunk);
    var total := |f.objects|;
    packets := [];
    sequence' := sequence;
    var i := 0;
    var more := true;
    ghost var done: seq<StatePacket> := [];
    ghost var all := PacketsFrom(f, c, 0, sequence);
    while more
      invariant 0 <= i <= total && (i < total ==> more)
      invariant packets == Each(done, Encode) && sequence' == (sequence + |done|) % TWO32
      invariant if more then done + PacketsFrom(f, c, i, sequence') == all else done + [] == all
      decreases more, total - i
    {
      var end := if i + c < total then i + c else total;
      var pkt := StatePacket(sequence', f.sat.id, f.sat.pos, f.sat.vel,
                             if total < MAX_TRACKED_OBJECTS then total else MAX_TRACKED_OBJECTS, f.objects[i..end]);
      NextSequence(sequence, |done|);
      var datagram := EncodePacket(pkt);
      ghost var rest := FirstPacket(f, c, i, sequence', pkt, end);
      assert done + PacketsFrom(f, c, i, sequence') == done + [pkt] + rest;
      packets := packets + [datagram];
      done := done + [pkt];
      sequence' := (sequence' + 1) % TWO32;
      i := end;
      more := i < total;
    }
  }

  lemma {:induction false} FirstPacket(f: Frame, c: nat, i: nat, sequence: u32, pkt: StatePacket,
                                       end: nat) returns (rest: seq<StatePacket>)
    requires c >= 1 && i <= |f.objects| && pkt == PacketAt(f, c, i, sequence) && end == End(f, c, i)
    ensures PacketsFrom(f, c, i, sequence) == [pkt] + rest
    ensures rest == if end < |f.objects| then PacketsFrom(f, c, end, (sequence + 1) % TWO32) else []
  {
    rest := if end < |f.objects| then PacketsFrom(f, c, end, (sequence + 1) % TWO32) else [];
  }

  // ----- how many packets, and how they are numbered -----

  lemma {:induction false} CeilingStep(n: nat, c: nat)
    requires c >= 1 && n > c
    ensures (n + c - 1) / c == 1 + (n - c + c - 1) / c
  {
    var a := n - 1;
    assert (a + c) / c == a / c + 1 by { DivAdd(a, c); }
  }

  lemma {:induction false} DivAdd(a: nat, c: nat)
    requires c >= 1
    ensures (a + c) / c == a / c + 1
  {
    var q, r := a / c, a % c;
    assert a == q * c + r;
    assert a + c == (q + 1) * c + r by { assert (q + 1) * c == q * c + c; }
    DivUnique(a + c, c, q + 1, r);
  }

  lemma {:induction false} DivUnique(a: nat, c: nat, q: nat, r: nat)
    requires c >= 1 && a == q * c + r && r < c
    ensures a / c == q
  {
    var d := a / c;
    assert a == d * c + a % c;
    assert (d + 1) * c == d * c + c && (q + 1) * c == q * c + c;
    if d < q {
      MulLe(d + 1, q, c);
    } else if d > q {
      MulLe(q + 1, d, c);
    }
  }

  lemma MulLe(a: nat, b: nat, c: nat)
    requires a <= b
    ensures a * c <= b * c
  {
  }

  lemma {:induction false} SmallCeiling(n: nat, c: nat)
    requires c >= 1 && n <= c
    ensures (n + c - 1) / c == if n == 0 then 0 else 1
  {
    if n == 0 {
      DivUnique(c - 1, c, 0, c - 1);
    } else {
      DivUnique(n + c - 1, c, 1, n - 1);
    }
  }

  /** max(1, ceil(n / c)) packets. */
  lemma {:induction false} PacketCount(f: Frame, c: nat, i: nat, sequence: u32)
    requires c >= 1 && i <= |f.objects|
    ensures var n := |f.objects| - i;
      |PacketsFrom(f, c, i, sequence)| == if n == 0 then 1 else (n + c - 1) / c
    decreases |f.objects| - i
  {
    hide PacketAt;
    var n, end := |f.objects| - i, End(f, c, i);
    if end < |f.objects| {
      CeilingStep(n, c);
      PacketCount(f, c, end, (sequence + 1) % TWO32);
    } else {
      SmallCeiling(n, c);
    }
  }

  /** Their sequence numbers are consecutive modulo 2^32, and each has the frame's satellite, the number of its objects
      up to 5000, and no more objects than a chunk. */
  lemma {:induction false} PacketNumbers(f: Frame, c: nat, i: nat, sequence: u32, k: nat)
    requires c >= 1 && i <= |f.objects| && k < |PacketsFrom(f, c, i, sequence)|
    ensures var p := PacketsFrom(f, c, i, sequence)[k];
      && p.sequence == (sequence + k) % TWO32 && |p.objects| <= c
      && p.satId == f.sat.id && p.satPos == f.sat.pos && p.satVel == f.sat.vel
      && p.objectTotal == if |f.objects| <= 5000 then |f.objects| else 5000
    decreases k
  {
    hide PacketsFrom;
    var rest := FirstPacket(f, c, i, sequence, PacketAt(f, c, i, sequence), End(f, c, i));
    if k > 0 {
      PacketNumbers(f, c, End(f, c, i), (sequence + 1) % TWO32, k - 1);
      ShiftSequence(sequence, k);
    }
  }

  /** Their objects, joined, are the frame's. */
  lemma {:induction false} PacketsJoin(f: Frame, c: nat, i: nat, sequence: u32)
    requires c >= 1 && i <= |f.objects|
    ensures Joined(PacketsFrom(f, c, i, sequence)) == f.objects[i..]
    decreases |f.objects| - i
  {
    hide PacketsFrom;
    var end := End(f, c, i);
    var rest := FirstPacket(f, c, i, sequence, PacketAt(f, c, i, sequence), end);
    assert PacketsFrom(f, c, i, sequence)[1..] == rest;
    if end < |f.objects| {
      PacketsJoin(f, c, end, (sequence + 1) % TWO32);
    }
    assert f.objects[i..] == f.objects[i..end] + f.objects[end..];
  }

  lemma ShiftSequence(sequence: u32, k: nat)
    requires k > 0
    ensures ((sequence + 1) % TWO32 + (k - 1)) % TWO32 == (sequence + k) % TWO32
  {
  }

  function Joined(pkts: seq<StatePacket>): seq<ObjectRecord> {
    if pkts == [] then [] else pkts[0].objects + Joined(pkts[1..])
  }

  // ----- delivery -----

  /** The store after an OLV1 receiver has handled the datagrams in order, the k-th at `times[k]`. */
  function Deliver(s: State, ds: seq<bytes>, times: seq<int>): State
    requires |times| == |ds|
    decreases |ds|
  {
    if ds == [] then s else
    Deliver(AfterOutcome(AfterReceived(s, |ds[0]|), Olv1Source.Classify(ds[0]), times[0], times[0]),
            ds[1..], times[1..])
  }

  /** The records of a table, without their receive times. */
  function RecordsIn(t: Table): map<int, ObjectRecord> {
    map id | id in t :: t[id].obj
  }

  /** A table of records overridden by more records in order. */
  function Override(m: map<int, ObjectRecord>, rs: seq<ObjectRecord>): map<int, ObjectRecord> {
    if rs == [] then m else
    var last := rs[|rs| - 1];
    Override(m, rs[..|rs| - 1])[last.id := last]
  }

  lemma {:induction false} UpsertOverrides(t: Table, rs: seq<ObjectRecord>, mono: int)
    ensures RecordsIn(Upsert(t, rs, mono)) == Override(RecordsIn(t), rs)
  {
    if rs != [] {
      var n := |rs| - 1;
      UpsertOverrides(t, rs[..n], mono);
      MapsEqual(RecordsIn(Upsert(t, rs, mono)), Override(RecordsIn(t), rs));
    }
  }

  lemma {:induction false} OverrideAppend(m: map<int, ObjectRecord>, a: seq<ObjectRecord>, b: seq<ObjectRecord>)
    ensures Override(m, a + b) == Override(Override(m, a), b)
  {
    if b == [] {
      assert a + b == a;
    } else {
      var n := |b| - 1;
      assert (a + b)[..|a + b| - 1] == a + b[..n];
      OverrideAppend(m, a, b[..n]);
    }
  }

  /** Finite in-range values throughout. */
  ghost predicate Encodable(f: Frame) {
    && FiniteVec64(f.sat.pos) && FiniteVec32(f.sat.vel) && VecInRange(f.sat.pos)
    && forall i :: 0 <= i < |f.objects| ==> GoodRecord(f.objects[i])
  }

  lemma {:induction false} ChunkSurvives(f: Frame, c: nat, i: nat, sequence: u32)
    requires Encodable(f) && 1 <= c <= MAX_OBJECTS_PER_PACKET && i <= |f.objects|
    ensures var pkt := PacketAt(f, c, i, sequence);
      && Decode(Encode(pkt)) == Ok(Norm(pkt))
      && Norm(pkt) == pkt.(objects := NormRecords(pkt.objects))
  {
    hide Encode, Decode, FiniteVec64, FiniteVec32, VecInRange, GoodRecord;
    var pkt := PacketAt(f, c, i, sequence);
    assert Count(pkt) == |pkt.objects| <= Total(f);
    SurvivesIff(pkt);
    assert pkt.objects[..Count(pkt)] == pkt.objects;
  }

  /** The next sequence number is newer than the one just accepted. */
  lemma SuccessorIsNewer(sequence: u32)
    ensures !NotAfter((sequence + 1) % TWO32, sequence)
  {
  }

  lemma NormRecordsAppend(a: seq<ObjectRecord>, b: seq<ObjectRecord>)
    ensures NormRecords(a + b) == NormRecords(a) + NormRecords(b)
  {
  }

  /** Delivering one chunk. */
  lemma {:induction false} DeliverOne(f: Frame, c: nat, i: nat, sequence: u32, s: State, time: int)
    requires Encodable(f) && 1 <= c <= MAX_OBJECTS_PER_PACKET && i <= |f.objects|
    requires s.haveSeq ==> !NotAfter(sequence, s.lastSeq)
    ensures var d, part := Encode(PacketAt(f, c, i, sequence)), f.objects[i..End(f, c, i)];
      var t := AfterOutcome(AfterReceived(s, |d|), Olv1Source.Classify(d), time, time);
      && t.stats.accepted == s.stats.accepted + 1
      && t.stats.stale == s.stats.stale && t.stats.malformed == s.stats.malformed
      && t.haveSeq && t.lastSeq == sequence
      && RecordsIn(t.objects) == Override(RecordsIn(s.objects), NormRecords(part))
      && t.satellite == Some(Satellite(f.sat.id, sequence, f.sat.pos, f.sat.vel))
  {
    hide Encode, Decode, NotAfter, Upsert, Override, RecordsIn, NormRecords;
    var pkt := PacketAt(f, c, i, sequence);
    ChunkSurvives(f, c, i, sequence);
    UpsertOverrides(s.objects, NormRecords(pkt.objects), time);
  }

  /** What delivering the packets from object `i` on must do to the store. */
  ghost predicate Absorbed(f: Frame, i: nat, sequence: u32, s: State, t: State, n: nat)
    requires i <= |f.objects|
  {
    && t.stats.accepted == s.stats.accepted + n
    && t.stats.stale == s.stats.stale && t.stats.malformed == s.stats.malformed
    && RecordsIn(t.objects) == Override(RecordsIn(s.objects), NormRecords(f.objects[i..]))
    && t.satellite == Some(Satellite(f.sat.id, (sequence + n - 1) % TWO32, f.sat.pos, f.sat.vel))
    && t.haveSeq && t.lastSeq == (sequence + n - 1) % TWO32
  }

  lemma {:induction false} AbsorbFirst(f: Frame, i: nat, end: nat, sequence: u32, s: State, m: State, t: State, n: nat)
    requires i <= end <= |f.objects| && n >= 1
    requires m.stats.accepted == s.stats.accepted + 1
    requires m.stats.stale == s.stats.stale && m.stats.malformed == s.stats.malformed
    requires RecordsIn(m.objects) == Override(RecordsIn(s.objects), NormRecords(f.objects[i..end]))
    requires Absorbed(f, end, (sequence + 1) % TWO32, m, t, n)
    ensures Absorbed(f, i, sequence, s, t, n + 1)
  {
    hide Override, RecordsIn, NormRecords;
    assert f.objects[i..] == f.objects[i..end] + f.objects[end..];
    NormRecordsAppend(f.objects[i..end], f.objects[end..]);
    OverrideAppend(RecordsIn(s.objects), NormRecords(f.objects[i..end]), NormRecords(f.objects[end..]));
    ShiftSequence(sequence, n);
  }

  lemma {:induction false} DeliverFirst(s: State, d: bytes, ds: seq<bytes>, times: seq<int>)
    requires |times| == 1 + |ds|
    ensures Deliver(s, [d] + ds, times)
      == Deliver(AfterOutcome(AfterReceived(s, |d|), Olv1Source.Classify(d), times[0], times[0]), ds, times[1..])
  {
    hide AfterOutcome, AfterReceived, Olv1Source.Classify;
    assert ([d] + ds)[1..] == ds;
  }

  /** For any chunk size every packet is accepted, and the table ends as the old one overridden by the
      frame's normalised objects in order. */
  lemma {:induction false} ChunkingIsInvisible(f: Frame, c: nat, i: nat, sequence: u32, s: State, times: seq<int>)
    requires Encodable(f) && 1 <= c <= MAX_OBJECTS_PER_PACKET && i <= |f.objects|
    requires s.haveSeq ==> !NotAfter(sequence, s.lastSeq)
    requires |times| == |PacketsFrom(f, c, i, sequence)|
    ensures var pkts := PacketsFrom(f, c, i, sequence);
      Absorbed(f, i, sequence, s, Deliver(s, Each(pkts, Encode), times), |pkts|)
    decreases |f.objects| - i
  {
    hide Encode, NotAfter, Override, RecordsIn, NormRecords, Encodable, AfterOutcome, AfterReceived,
      Olv1Source.Classify, PacketsFrom, PacketAt, Deliver, Each, Absorbed;
    var end, pkt := End(f, c, i), PacketAt(f, c, i, sequence);
    var rest := FirstPacket(f, c, i, sequence, pkt, end);
    var pkts := PacketsFrom(f, c, i, sequence);
    assert Each(pkts, Encode) == [Encode(pkt)] + Each(rest, Encode);
    DeliverOne(f, c, i, sequence, s, times[0]);
    DeliverFirst(s, Encode(pkt), Each(rest, Encode), times);
    var m := AfterOutcome(AfterReceived(s, |Encode(pkt)|), Olv1Source.Classify(Encode(pkt)), times[0], times[0]);
    if end < |f.objects| {
      SuccessorIsNewer(sequence);
      ChunkingIsInvisible(f, c, end, (sequence + 1) % TWO32, m, times[1..]);
      AbsorbFirst(f, i, end, sequence, s, m, Deliver(m, Each(rest, Encode), times[1..]), |rest|);
    } else {
      assert f.objects[i..end] == f.objects[i..];
      assert Deliver(m, Each(rest, Encode), times[1..]) == m by { DeliverNothing(m, Each(rest, Encode), times[1..]); }
      AbsorbLast(f, i, sequence, s, m);
    }
  }

  lemma DeliverNothing(s: State, ds: seq<bytes>, times: seq<int>)
    requires ds == [] && times == []
    ensures Deliver(s, ds, times) == s
  {
  }

  lemma AbsorbLast(f: Frame, i: nat, sequence: u32, s: State, t: State)
    requires i <= |f.objects| && t.stats.accepted == s.stats.accepted + 1
    requires t.stats.stale == s.stats.stale && t.stats.malformed == s.stats.malformed
    requires RecordsIn(t.objects) == Override(RecordsIn(s.objects), NormRecords(f.objects[i..]))
    requires t.satellite == Some(Satellite(f.sat.id, sequence, f.sat.pos, f.sat.vel))
    requires t.haveSeq && t.lastSeq == sequence
    ensures Absorbed(f, i, sequence, s, t, 1)
  {
    hide Override, RecordsIn, NormRecords;
  }
}
