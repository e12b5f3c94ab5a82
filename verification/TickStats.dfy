/** What the message of one tick says besides rows and points: its number, the clients, the counters and the time. */
module TickStats {
  import opened Records
  import opened Json
  import opened Store
  import opened StateMessage
  import opened ClientMessage
  import opened MessageRoundTrip
  import opened Pipeline
  import opened Broadcasts
  import opened EndToEnd
  import opened Delivery
  import Sessions

  /** The number of a member of the statistics. */
  function Stat(stats: Loaded, key: string): Option<Value> {
    if !stats.LoadedObject? then None else FindStat(stats.members, key)
  }

  function FindStat(members: seq<LoadedMember>, key: string): Option<Value> {
    if members == [] then None
    else if members[0].key == key && members[0].value.LoadedNumber? then Some(members[0].value.n)
    else FindStat(members[1..], key)
  }

  /** The statistics by name. */
  lemma {:induction false} StatsByName(snap: Snapshot, b: Broadcast)
    ensures var stats := StatsFor(snap, b, Buffered);
      && Stat(stats, "udpReceived") == Some(Whole(snap.stats.received % TWO64))
      && Stat(stats, "udpAccepted") == Some(Whole(snap.stats.accepted % TWO64))
      && Stat(stats, "udpDropped") == Some(Whole((snap.stats.malformed + snap.stats.stale) % TWO64))
      && Stat(stats, "wsClients") == Some(SmallValue(b.clients))
      && Stat(stats, "objectCount") == Some(Whole(|snap.objects| % TWO64))
      && Stat(stats, "broadcastSeq") == Some(Whole(b.sequence % TWO64))
  {
    hide Buffered, ShownRate;
    StatNamesDiffer();
    var m := StatsFor(snap, b, Buffered).members;
    assert m[0].key == "udpReceived" && m[1].key == "udpAccepted" && m[2].key == "udpDropped";
    assert m[3].key == "udpRateHz";
    assert m[4].key == "wsClients" && m[5].key == "objectCount" && m[6].key == "broadcastSeq";
    StatAt(m, 0);
    StatAt(m, 1);
    StatAt(m, 2);
    StatAt(m, 4);
    StatAt(m, 5);
    StatAt(m, 6);
  }

  lemma {:induction false} StatAt(m: seq<LoadedMember>, k: nat)
    requires k < |m| && m[k].value.LoadedNumber? && forall i :: 0 <= i < k ==> m[i].key != m[k].key
    ensures FindStat(m, m[k].key) == Some(m[k].value.n)
  {
    if k > 0 {
      StatAt(m[1..], k - 1);
    }
  }

  lemma {:induction false} StatNamesDiffer()
    ensures var names := ["udpReceived", "udpAccepted", "udpDropped", "udpRateHz", "wsClients", "objectCount",
                          "broadcastSeq"];
      forall i, j :: 0 <= i < j < |names| ==> names[i] != names[j]
  {
    assert "udpReceived"[3] == 'R' && "udpAccepted"[3] == 'A' && "udpDropped"[3] == 'D' && "udpRateHz"[4] == 'a';
    assert "udpReceived"[4] == 'e' && "wsClients"[0] == 'w' && "objectCount"[0] == 'o' && "broadcastSeq"[0] == 'b';
  }

  // ----- the counters are those of the run -----

  /** Every arrival has been counted. */
  lemma {:induction false} ArrivalsCounted(states: seq<System>, actions: seq<Action>, n: nat)
    requires IsRun(states, actions) && states[0].store.stats.received == 0 && n <= |actions|
    ensures states[n].store.stats.received == |Delivered(actions[..n])|
  {
    hide Next, Enabled;
    if n > 0 {
      ArrivalsCounted(states, actions, n - 1);
      assert actions[..n][..n - 1] == actions[..n - 1];
      OneMoreCounted(states[n - 1], actions[n - 1]);
    }
  }

  lemma OneMoreCounted(sys: System, a: Action)
    requires Enabled(sys, a)
    ensures Next(sys, a).store.stats.received == sys.store.stats.received + if a.Arrive? then 1 else 0
  {
    hide Classify, AfterDatagram, Upsert, Rejects, ReplacesSatellite, DropExpired, DropOld, Rows;
  }

  lemma StartsAtZero(sys: System)
    requires Starts(sys)
    ensures sys.store.stats.received == 0
  {
  }

  /** In any run of process and server: if the text of a tick can be read at all, it carries the server's time, the
      number of the tick, counted from one, the number of registered clients, the number of rows, and the number of
      datagrams that ever arrived. */
  lemma {:induction false} TickSays(states: seq<Joint>, steps: seq<Step>, iso: int -> string, n: nat, mono: int,
                                    serverTime: int)
    requires IsJointRun(states, steps, iso) && n <= |steps| && PlainClock(iso)
    requires |steps| < TWO64 && |states[n].server.registered| < 0x8000_0000
    ensures var j := states[n];
      var r := ParseStateMessage(TickFrame(j, mono, serverTime, iso).text);
      r == Err(NotJson) || (
        && r.Ok? && r.value.State?
        && r.value.serverTime == iso(serverTime)
        && Stat(r.value.stats, "broadcastSeq") == Some(Whole((|j.log| + 1) % TWO64))
        && Stat(r.value.stats, "wsClients") == Some(Whole(|j.server.registered|))
        && Stat(r.value.stats, "objectCount") == Some(Whole(|r.value.objects| % TWO64))
        && Stat(r.value.stats, "udpReceived") == Some(Whole(|Delivered(Actions(states, steps, n))| % TWO64)))
  {
    hide Next, Enabled, ParseStateMessage, Print, StateTree, GoodBroadcast, PlainClock, Starts, IsRun, Delivered;
    hide ServerMatches, VelocityFinite, Buffered, EveryShown, TrailsFor, ObjectFor, Stat, StatsFor, Rows, DropExpired;
    hide DropOld, JointNext, StepEnabled;
    var j := states[n];
    var b, snap := TickBroadcast(j, serverTime, iso), SnapshotOf(j.sys.store, mono);
    TickIsGood(j, serverTime, iso);
    TextParses(snap, b);
    StatsByName(snap, b);
    ServerFollows(states, steps, iso, n);
    TickIsLog(j.server, j.log);
    Projects(states, steps, iso, n);
    var run, actions := Systems(states, steps, n), Actions(states, steps, n);
    StartsAtZero(states[0].sys);
    ArrivalsCounted(run, actions, |actions|);
    assert actions[..|actions|] == actions;
  }

  lemma TickIsLog(v: Sessions.Server, log: seq<Frame>)
    requires ServerMatches(v, log)
    ensures v.tick == |log|
  {
  }
}
