/** A whole OLV1 run: the receiver cannot tell how its frames were chunked. */
module PacketRuns {
  import opened Bytes
  import opened Records
  import opened Collections
  import opened Frames
  import opened Store
  import opened Olv1Codec
  import opened PacketBuilder
  import Olv1Source

  /** The packets of a run of frames, numbered on from `sequence`. */
  function RunPackets(frames: seq<Frame>, c: nat, sequence: u32): (pkts: seq<StatePacket>)
    requires c >= 1
  {
    if frames == [] then [] else
    var first := PacketsFrom(frames[0], c, 0, sequence);
    first + RunPackets(frames[1..], c, (sequence + |first|) % TWO32)
  }

  function AllObjects(frames: seq<Frame>): seq<ObjectRecord> {
    if frames == [] then [] else frames[0].objects + AllObjects(frames[1..])
  }

  /** The sending loop over a run: one buildPackets for each frame, all with one counter. */
  method SendRun(frames: seq<Frame>, chunk: nat, sequence: u32) returns (datagrams: seq<bytes>, sequence': u32)
    ensures var pkts := RunPackets(frames, ClampChunk(chunk), sequence);
      datagrams == Each(pkts, Encode) && sequence' == (sequence + |pkts|) % TWO32
  {
    hide Encode, PacketsFrom, ClampChunk;
    ghost var c := ClampChunk(chunk);
    ghost var all := RunPackets(frames, c, sequence);
    ghost var done: seq<StatePacket> := [];
    datagrams, sequence' := [], sequence;
    for i := 0 to |frames|
      invariant done + RunPackets(frames[i..], c, sequence') == all
      invariant datagrams == Each(done, Encode) && sequence' == (sequence + |done|) % TWO32
    {
      assert frames[i..][0] == frames[i] && frames[i..][1..] == frames[i + 1..];
      ghost var pkts := PacketsFrom(frames[i], c, 0, sequence');
      AddSequence(sequence, |done|, |pkts|);
      var more;
      more, sequence' := BuildPackets(frames[i], chunk, sequence');
      datagrams, done := datagrams + more, done + pkts;
    }
    assert done + [] == done;
  }

  lemma AddSequence(sequence: u32, m: nat, n: nat)
    ensures ((sequence + m) % TWO32 + n) % TWO32 == (sequence + (m + n)) % TWO32
  {
  }

  lemma {:induction false} DeliverAppend(s: State, a: seq<bytes>, b: seq<bytes>, times: seq<int>)
    requires |times| == |a| + |b|
    ensures Deliver(s, a + b, times) == Deliver(Deliver(s, a, times[..|a|]), b, times[|a|..])
    decreases |a|
  {
    hide AfterOutcome, AfterReceived, Olv1Source.Classify;
    if a == [] {
      assert a + b == b && times[0..] == times && times[..0] == [];
    } else {
      var t := AfterOutcome(AfterReceived(s, |a[0]|), Olv1Source.Classify(a[0]), times[0], times[0]);
      DeliverAppend(t, a[1..], b, times[1..]);
      assert (a + b)[1..] == a[1..] + b && (a + b)[0] == a[0];
      assert times[1..][..|a| - 1] == times[..|a|][1..] && times[1..][|a| - 1..] == times[|a|..];
    }
  }

  /** What delivering a run must do to the store. */
  ghost predicate RunAbsorbed(frames: seq<Frame>, sequence: u32, s: State, t: State, n: nat) {
    && t.stats.accepted == s.stats.accepted + n
    && t.stats.stale == s.stats.stale && t.stats.malformed == s.stats.malformed
    && RecordsIn(t.objects) == Override(RecordsIn(s.objects), NormRecords(AllObjects(frames)))
    && (if frames == [] then t.satellite == s.satellite else
        var f := frames[|frames| - 1];
        t.satellite == Some(Satellite(f.sat.id, (sequence + n - 1) % TWO32, f.sat.pos, f.sat.vel)))
  }

  lemma {:induction false} RunAbsorbs(frames: seq<Frame>, sequence: u32, s: State, m: State, t: State, k: nat, n: nat)
    requires frames != [] && k >= 1 && Absorbed(frames[0], 0, sequence, s, m, k)
    requires RunAbsorbed(frames[1..], (sequence + k) % TWO32, m, t, n) && (frames[1..] != [] ==> n >= 1)
    requires frames[1..] == [] ==> n == 0
    ensures RunAbsorbed(frames, sequence, s, t, k + n)
  {
    hide Override, RecordsIn, NormRecords;
    var f, rest := frames[0], frames[1..];
    assert f.objects[0..] == f.objects;
    NormRecordsAppend(f.objects, AllObjects(rest));
    OverrideAppend(RecordsIn(s.objects), NormRecords(f.objects), NormRecords(AllObjects(rest)));
    if rest != [] {
      assert rest[|rest| - 1] == frames[|frames| - 1];
      AddSequence(sequence, k, n - 1);
    }
  }

  lemma EachJoin(a: seq<StatePacket>, b: seq<StatePacket>)
    ensures Each(a + b, Encode) == Each(a, Encode) + Each(b, Encode)
  {
    hide Encode;
  }

  /** Over a whole run, for any chunk size, every packet is accepted, and the table ends as the old one overridden
      by all objects of all frames in order: how many datagrams they were cut into leaves no trace in it. */
  lemma {:induction false} RunIsInvisible(frames: seq<Frame>, c: nat, sequence: u32, s: State, times: seq<int>)
    requires 1 <= c <= MAX_OBJECTS_PER_PACKET && forall i :: 0 <= i < |frames| ==> Encodable(frames[i])
    requires s.haveSeq ==> !NotAfter(sequence, s.lastSeq)
    requires |times| == |RunPackets(frames, c, sequence)|
    ensures var pkts := RunPackets(frames, c, sequence);
      && (frames != [] ==> |pkts| >= 1)
      && RunAbsorbed(frames, sequence, s, Deliver(s, Each(pkts, Encode), times), |pkts|)
    decreases |frames|
  {
    hide Encode, NotAfter, Override, RecordsIn, NormRecords, Encodable, PacketsFrom, Deliver, Absorbed, RunAbsorbed;
    if frames == [] {
      NoFrames(sequence, s, times);
    } else {
      var first := PacketsFrom(frames[0], c, 0, sequence);
      var next := (sequence + |first|) % TWO32;
      var rest := RunPackets(frames[1..], c, next);
      EachJoin(first, rest);
      DeliverAppend(s, Each(first, Encode), Each(rest, Encode), times);
      var m := Deliver(s, Each(first, Encode), times[..|first|]);
      ChunkingIsInvisible(frames[0], c, 0, sequence, s, times[..|first|]);
      NextIsNewer(frames[0], sequence, s, m, |first|);
      RunIsInvisible(frames[1..], c, next, m, times[|first|..]);
      RunAbsorbs(frames, sequence, s, m, Deliver(m, Each(rest, Encode), times[|first|..]), |first|, |rest|);
    }
  }

  lemma NoFrames(sequence: u32, s: State, times: seq<int>)
    requires times == []
    ensures RunAbsorbed([], sequence, s, Deliver(s, Each(RunPackets([], 1, sequence), Encode), times), 0)
  {
  }

  lemma {:induction false} NextIsNewer(f: Frame, sequence: u32, s: State, m: State, n: nat)
    requires n >= 1 && Absorbed(f, 0, sequence, s, m, n)
    ensures m.haveSeq && !NotAfter((sequence + n) % TWO32, m.lastSeq)
  {
    hide Override, RecordsIn, NormRecords;
    AddSequence(sequence, n - 1, 1);
    SuccessorIsNewer((sequence + n - 1) % TWO32);
  }

  /** Any two chunk sizes leave the same records. */
  lemma {:induction false} ChunkSizeLeavesNoTrace(frames: seq<Frame>, c: nat, d: nat, sequence: u32, s: State,
                                                  times: seq<int>, times': seq<int>)
    requires 1 <= c <= MAX_OBJECTS_PER_PACKET && 1 <= d <= MAX_OBJECTS_PER_PACKET
    requires forall i :: 0 <= i < |frames| ==> Encodable(frames[i])
    requires s.haveSeq ==> !NotAfter(sequence, s.lastSeq)
    requires |times| == |RunPackets(frames, c, sequence)| && |times'| == |RunPackets(frames, d, sequence)|
    ensures RecordsIn(Deliver(s, Each(RunPackets(frames, c, sequence), Encode), times).objects)
      == RecordsIn(Deliver(s, Each(RunPackets(frames, d, sequence), Encode), times').objects)
  {
    hide Encode, NotAfter, Override, RecordsIn, NormRecords, Encodable, Deliver, RunPackets;
    RunIsInvisible(frames, c, sequence, s, times);
    RunIsInvisible(frames, d, sequence, s, times');
  }
}
