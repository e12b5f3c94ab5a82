/** The receiving process as a system of two threads: datagrams are counted, then settled by one locked store
    operation; the broadcaster takes snapshots between any two steps. */
module Pipeline {
  import opened Bytes
  import opened Floats
  import opened Records
  import Collections
  import opened Store
  import Olv1Source
  import Olv2Codec
  import Olv2Source
  import DisIds
  import DisSource

  /** The input source of the configured mode, with its private state. */
  datatype Receiver =
    | Olv1
    | Olv2(tracker: Olv2Source.Tracker, estimate: Olv2Source.Estimator)
    | Dis(cfg: DisSource.Config, dis: DisSource.Tracker)

  function Classify(r: Receiver, d: bytes): Outcome {
    match r
    case Olv1 => Olv1Source.Classify(d)
    case Olv2(tracker, estimate) => Olv2Source.Classify(tracker, estimate, d)
    case Dis(cfg, dis) => DisSource.Classify(cfg, dis, d)
  }

  function AfterDatagram(r: Receiver, d: bytes): Receiver {
    match r
    case Olv1 => r
    case Olv2(tracker, estimate) => Olv2(Olv2Source.AfterDatagram(tracker, d), estimate)
    case Dis(cfg, dis) => Dis(cfg, DisSource.AfterDatagram(cfg, dis, d))
  }

  /** `reported` and `ignored` record what was broadcast and how many PDUs were passed over. */
  datatype System = System(store: State, receiver: Receiver, inflight: Option<bytes>,
                           reported: seq<TrailPoint>, ignored: nat)

  datatype Action = Arrive(d: bytes) | Settle(wall: int, mono: int) | Broadcast(mono: int)

  /** The input thread alternates between counting and settling; the broadcaster is always enabled. */
  predicate Enabled(sys: System, a: Action) {
    match a
    case Arrive(_) => sys.inflight.None?
    case Settle(_, _) => sys.inflight.Some?
    case Broadcast(_) => true
  }

  function Next(sys: System, a: Action): System
    requires Enabled(sys, a)
  {
    match a
    case Arrive(d) => sys.(store := AfterReceived(sys.store, |d|), inflight := Some(d))
    case Settle(wall, mono) =>
      var o := Classify(sys.receiver, sys.inflight.value);
      sys.(store := AfterOutcome(sys.store, o, wall, mono), inflight := None,
           receiver := AfterDatagram(sys.receiver, sys.inflight.value),
           ignored := sys.ignored + if o.Ignore? then 1 else 0)
    case Broadcast(mono) =>
      sys.(store := AfterSnapshot(sys.store, mono), reported := sys.reported + SnapshotOf(sys.store, mono).trailPoints)
  }

  /** The states of a run, each action enabled where it happens. */
  ghost predicate IsRun(states: seq<System>, actions: seq<Action>) {
    && |states| == |actions| + 1
    && forall i :: 0 <= i < |actions| ==> Enabled(states[i], actions[i]) && states[i + 1] == Next(states[i], actions[i])
  }

  predicate FreshReceiver(r: Receiver) {
    match r
    case Olv1 => true
    case Olv2(tracker, _) => tracker.lastT == map[]
    case Dis(_, dis) => dis == DisSource.Fresh()
  }

  ghost predicate Starts(sys: System) {
    exists expiry :: sys.store == Initial(expiry) && sys.inflight == None && sys.reported == [] && sys.ignored == 0
      && FreshReceiver(sys.receiver)
  }

  // ----- accounting -----

  /** Every datagram is in exactly one bucket, apart from the one between its two steps. */
  predicate Balanced(sys: System) {
    var st := sys.store.stats;
    && st.received == st.accepted + st.malformed + st.stale + sys.ignored + (if sys.inflight.Some? then 1 else 0)
    && (!sys.receiver.Dis? ==> sys.ignored == 0)
  }

  /** The store remembers the last synthesized sequence number. */
  predicate InStep(sys: System) {
    sys.receiver.Dis? ==>
      if sys.store.haveSeq then sys.store.lastSeq == sys.receiver.dis.sequence else sys.receiver.dis.sequence == 0
  }

  lemma {:induction false} NextKeepsBalance(sys: System, a: Action)
    requires Enabled(sys, a) && Balanced(sys)
    ensures Balanced(Next(sys, a))
  {
    hide Classify, AfterOutcome, DropExpired, DropOld, Rows;
    if a.Settle? {
      OutcomeCountsOnce(sys.store, Classify(sys.receiver, sys.inflight.value), a.wall, a.mono);
      OnlyDisIgnores(sys.receiver, sys.inflight.value);
    }
  }

  /** Every outcome but being passed over adds one to one bucket. */
  lemma OutcomeCountsOnce(s: State, o: Outcome, wall: int, mono: int)
    ensures var st, st' := s.stats, AfterOutcome(s, o, wall, mono).stats;
      && st'.received == st.received
      && st'.accepted + st'.malformed + st'.stale == st.accepted + st.malformed + st.stale + if o.Ignore? then 0 else 1
  {
    hide Rejects, Upsert, Collections.LastN, ReplacesSatellite;
  }

  lemma {:induction false} OnlyDisIgnores(r: Receiver, d: bytes)
    ensures Classify(r, d).Ignore? ==> r.Dis?
  {
    hide Olv1Source.Classify, DisSource.Judge, Olv2Codec.Decode, Olv2Source.StaleBatch, Olv2Source.UpdateOf;
    if r.Olv1? {
      Olv1NeverIgnores(d);
    }
  }

  lemma Olv1NeverIgnores(d: bytes)
    ensures !Olv1Source.Classify(d).Ignore?
  {
    hide Olv1Source.Olv1Codec.Decode;
  }

  /** A synthesized packet is one ahead of the last, also across 2^32, so apply never finds it stale. */
  lemma DisNeverRejected(sys: System)
    requires sys.receiver.Dis? && InStep(sys) && sys.inflight.Some?
    ensures var o := Classify(sys.receiver, sys.inflight.value); o.Merge? ==> !Rejects(sys.store, o.pkt)
  {
    hide DisSource.Judge, DisIds.Fold, DisIds.Pack48, DisSource.RecordOf;
  }

  lemma {:induction false} NextKeepsStep(sys: System, a: Action)
    requires Enabled(sys, a) && InStep(sys)
    ensures InStep(Next(sys, a))
  {
    if sys.receiver.Dis? && a.Settle? {
      DisNeverRejected(sys);
    }
    hide DisSource.Judge, DisIds.Fold, DisIds.Pack48, DisSource.RecordOf, Rejects, Upsert, Collections.LastN,
      ReplacesSatellite, DropExpired, DropOld, Rows, Olv1Source.Classify, Olv2Source.Classify, Olv2Source.AfterDatagram;
  }

  /** In every state of every run, in every mode, the counters balance. */
  lemma {:induction false} AccountingHolds(states: seq<System>, actions: seq<Action>, k: nat)
    requires IsRun(states, actions) && Starts(states[0]) && k <= |actions|
    ensures Balanced(states[k]) && InStep(states[k])
    ensures states[k].receiver.Dis? && states[k].inflight.Some? ==>
      var o := Classify(states[k].receiver, states[k].inflight.value); o.Merge? ==> !Rejects(states[k].store, o.pkt)
  {
    hide Next, Enabled, Classify, Rejects;
    if k != 0 {
      AccountingHolds(states, actions, k - 1);
      NextKeepsBalance(states[k - 1], actions[k - 1]);
      NextKeepsStep(states[k - 1], actions[k - 1]);
    }
    if states[k].receiver.Dis? && states[k].inflight.Some? {
      DisNeverRejected(states[k]);
    }
  }

  // ----- trail points only ever move forward -----

  /** Everything reported or waiting to be reported. */
  function TrailLog(sys: System): seq<TrailPoint> {
    sys.reported + sys.store.pending
  }

  /** Strictly ascending in time per id. */
  ghost predicate Forward(log: seq<TrailPoint>) {
    forall i, j :: 0 <= i < j < |log| && log[i].id == log[j].id ==> Key(log[i].t) < Key(log[j].t)
  }

  /** The tracker is at or past every point of the log. */
  ghost predicate Covered(log: seq<TrailPoint>, lastT: map<int, F64>) {
    forall i :: 0 <= i < |log| ==> log[i].id in lastT && Key(log[i].t) <= Key(lastT[log[i].id])
  }

  lemma {:induction false} DropMiddle(a: seq<TrailPoint>, b: seq<TrailPoint>, c: seq<TrailPoint>, lastT: map<int, F64>)
    requires Forward(a + b + c) && Covered(a + b + c, lastT)
    ensures Forward(a + c) && Covered(a + c, lastT)
  {
    hide Key;
    var whole, part := a + b + c, a + c;
    forall i | 0 <= i < |part|
      ensures part[i] == whole[if i < |a| then i else i + |b|]
    {
    }
  }

  lemma {:induction false} AppendBatch(log: seq<TrailPoint>, lastT: map<int, F64>, pkt: Olv2Codec.TrackPacket)
    requires Forward(log) && Covered(log, lastT)
    requires pkt.points != [] && Olv2Codec.TimesAscend(pkt.points)
    requires pkt.trackId in lastT ==> Key(lastT[pkt.trackId]) < Key(pkt.points[0].t)
    ensures var trail, lastT' := Olv2Source.TrailOf(pkt), lastT[pkt.trackId := Olv2Source.Newest(pkt).t];
      Forward(log + trail) && Covered(log + trail, lastT')
  {
    hide Key;
    var ps, trail := pkt.points, Olv2Source.TrailOf(pkt);
    forall i, j | 0 <= i < j < |ps|
      ensures Key(ps[i].t) < Key(ps[j].t)
    {
      AscendFar(ps, i, j);
    }
  }

  lemma {:induction false} AscendFar(ps: seq<Olv2Codec.Point>, i: nat, j: nat)
    requires i < j < |ps| && Olv2Codec.TimesAscend(ps)
    ensures Key(ps[i].t) < Key(ps[j].t)
    decreases j
  {
    hide Key;
    if i < j - 1 {
      AscendFar(ps, i, j - 1);
    }
  }

  ghost predicate TrailSafe(sys: System) {
    sys.receiver.Olv2? && Forward(TrailLog(sys)) && Covered(TrailLog(sys), sys.receiver.tracker.lastT)
  }

  /** What the bounded queue gives up when a batch is appended. */
  lemma {:induction false} KeptAndGone(reported: seq<TrailPoint>, pending: seq<TrailPoint>, trail: seq<TrailPoint>)
    returns (gone: seq<TrailPoint>)
    ensures reported + gone + Collections.LastN(pending + trail, MAX_PENDING_TRAIL_POINTS)
      == (reported + pending) + trail
  {
    var all := pending + trail;
    var kept := Collections.LastN(all, MAX_PENDING_TRAIL_POINTS);
    gone := all[..|all| - |kept|];
    assert gone + kept == all;
  }

  lemma {:induction false} SettleKeepsTrail(sys: System, wall: int, mono: int)
    requires sys.inflight.Some? && TrailSafe(sys)
    ensures TrailSafe(Next(sys, Settle(wall, mono)))
  {
    hide Key, Olv2Codec.Decode, Olv2Source.SatelliteOf, Olv2Source.TargetOf, ReplacesSatellite, Forward, Covered,
      Olv2Codec.TimesAscend, Olv2Codec.PointsError;
    var d, tr := sys.inflight.value, sys.receiver.tracker;
    var r := Olv2Codec.Decode(d);
    if r.Ok? {
      Olv2Codec.DecodedIsNormal(d);
      var pkt := r.value;
      if !Olv2Source.StaleBatch(tr, pkt) {
        AppendBatch(TrailLog(sys), tr.lastT, pkt);
        var trail := Olv2Source.TrailOf(pkt);
        var all := sys.store.pending + trail;
        var kept := Collections.LastN(all, MAX_PENDING_TRAIL_POINTS);
        var gone := KeptAndGone(sys.reported, sys.store.pending, trail);
        DropMiddle(sys.reported, gone, kept, tr.lastT[pkt.trackId := Olv2Source.Newest(pkt).t]);
        assert TrailLog(Next(sys, Settle(wall, mono))) == sys.reported + kept;
      }
    }
  }

  lemma {:induction false} NextKeepsTrail(sys: System, a: Action)
    requires Enabled(sys, a) && TrailSafe(sys)
    ensures TrailSafe(Next(sys, a))
  {
    hide Key, Forward, Covered, Classify, AfterDatagram, DropExpired, DropOld, Rows;
    match a
    case Arrive(_) =>
    case Settle(wall, mono) => SettleKeepsTrail(sys, wall, mono);
    case Broadcast(mono) => assert TrailLog(Next(sys, a)) == TrailLog(sys);
  }

  /** Whatever arrives, in whatever order, and whenever snapshots fall: per id, every trail point that is
      ever reported is later than all those reported before it. */
  lemma {:induction false} TrailsMoveForward(states: seq<System>, actions: seq<Action>, k: nat)
    requires IsRun(states, actions) && Starts(states[0]) && states[0].receiver.Olv2? && k <= |actions|
    ensures TrailSafe(states[k]) && Forward(states[k].reported)
  {
    hide Next, Enabled, Key;
    if k != 0 {
      TrailsMoveForward(states, actions, k - 1);
      NextKeepsTrail(states[k - 1], actions[k - 1]);
    }
    assert forall i :: 0 <= i < |states[k].reported| ==> states[k].reported[i] == TrailLog(states[k])[i];
  }
}
