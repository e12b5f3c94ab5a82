/** Runs of the receiving process as runs of the store, so that what holds of the store's history holds of them. */
module RunHistory {
  import opened Records
  import opened Store
  import opened Pipeline
  import H = StoreHistory

  /** The store operation of one step, if it has one. */
  function EventOf(sys: System, a: Action): seq<H.Event>
    requires Enabled(sys, a)
  {
    match a
    case Arrive(d) => [H.Received(|d|)]
    case Broadcast(mono) => [H.Snap(mono)]
    case Settle(wall, mono) =>
      match Classify(sys.receiver, sys.inflight.value)
      case Drop(kind) => [H.Dropped(kind)]
      case Merge(pkt) => [H.Packet(pkt, wall, mono)]
      case MergeTrack(u) => [H.Track(u, wall, mono)]
      case Ignore => []
  }

  /** The store operations of the first `n` steps. */
  ghost function Events(states: seq<System>, actions: seq<Action>, n: nat): seq<H.Event>
    requires IsRun(states, actions) && n <= |actions|
  {
    if n == 0 then [] else Events(states, actions, n - 1) + EventOf(states[n - 1], actions[n - 1])
  }

  lemma {:induction false} RunAppend(expiry: int, evs: seq<H.Event>, e: H.Event)
    ensures H.Run(expiry, evs + [e]) == H.Step(H.Run(expiry, evs), e)
    ensures H.Log(expiry, evs + [e]) == H.Log(expiry, evs) + H.Recorded(H.Run(expiry, evs), e)
  {
    hide H.Step, H.Recorded;
    assert (evs + [e])[..|evs|] == evs;
  }

  lemma {:induction false} StepIsEvent(sys: System, a: Action)
    requires Enabled(sys, a)
    ensures var es := EventOf(sys, a);
      |es| <= 1 && Next(sys, a).store == if es == [] then sys.store else H.Step(sys.store, es[0])
  {
    hide Classify, AfterDatagram, AfterApply, AfterTrack, AfterDropped, AfterReceived, AfterSnapshot, SnapshotOf;
  }

  /** The store of every run is that of its operations. */
  lemma {:induction false} StoreIsRun(states: seq<System>, actions: seq<Action>, n: nat, expiry: int)
    requires IsRun(states, actions) && states[0].store == Initial(expiry) && n <= |actions|
    ensures states[n].store == H.Run(expiry, Events(states, actions, n))
  {
    hide Next, Enabled, EventOf;
    if n != 0 {
      StoreIsRun(states, actions, n - 1, expiry);
      var evs, sys, a := Events(states, actions, n - 1), states[n - 1], actions[n - 1];
      StepIsEvent(sys, a);
      var es := EventOf(sys, a);
      if es == [] {
        assert evs + es == evs;
      } else {
        assert es == [es[0]];
        RunAppend(expiry, evs, es[0]);
      }
    }
  }

  /** In every mode, a snapshot taken in a run lists exactly the last accepted records that have not expired. */
  lemma {:induction false} RunShowsHistory(states: seq<System>, actions: seq<Action>, n: nat, expiry: int, m: int)
    requires IsRun(states, actions) && states[0].store == Initial(expiry) && n <= |actions|
    requires H.ClocksAdvance(Events(states, actions, n) + [H.Snap(m)])
    ensures var rows, evs := SnapshotOf(states[n].store, m).objects, Events(states, actions, n);
      && (forall i, j :: 0 <= i < j < |rows| ==> rows[i].id < rows[j].id)
      && (forall i :: 0 <= i < |rows| ==> H.Shown(expiry, evs, m, rows[i].id) == Some(rows[i]))
      && (forall id :: H.Shown(expiry, evs, m, id).Some? ==> exists i :: 0 <= i < |rows| && rows[i].id == id)
  {
    hide Next, Enabled, Events, H.Shown, H.ClocksAdvance, H.Run, SnapshotOf;
    StoreIsRun(states, actions, n, expiry);
    H.SnapshotShowsHistory(expiry, Events(states, actions, n), m);
  }
}
