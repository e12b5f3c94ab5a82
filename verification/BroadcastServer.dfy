/** The broadcaster: the shared store on one side, the sessions on the other. */
module BroadcastServer {
  import opened Bytes
  import opened Store
  import opened StateMessage
  import opened Sessions

  /** The conversion of a size to a 32-bit integer. */
  function ToInt32(n: nat): (i: int)
    ensures -0x8000_0000 <= i < 0x8000_0000
  {
    var low := n % TWO32;
    if low < 0x8000_0000 then low else low - TWO32
  }

  /** What a tick adds to a snapshot, after `done` ticks and with so many sessions. */
  function BroadcastOf(serverTime: int, iso: int -> string, sessions: nat, done: nat): Broadcast {
    Broadcast(serverTime, iso, ToInt32(sessions), done + 1)
  }

  class WsServer {
    const store: StateStore
    const iso: int -> string
    var broadcastSeq: nat
    var sessions: set<SessionObject>
    var stopped: bool

    constructor (store: StateStore, iso: int -> string)
      ensures this.store == store && this.iso == iso && broadcastSeq == 0 && sessions == {} && !stopped
    {
      this.store, this.iso := store, iso;
      broadcastSeq, sessions, stopped := 0, {}, false;
    }

    /** broadcastTick: unless stopped, one snapshot, one text with the next number, sent to every session. */
    method BroadcastTick(serverTime: int, mono: int)
      requires forall s :: s in sessions ==> SessionOk(s.Model())
      modifies this`broadcastSeq, sessions, store
      ensures old(stopped) ==> broadcastSeq == old(broadcastSeq) && store.Model() == old(store.Model())
      ensures old(stopped) ==> forall s :: s in sessions ==> s.Model() == old(s.Model())
      ensures !old(stopped) ==> broadcastSeq == old(broadcastSeq) + 1
      ensures !old(stopped) ==> store.Model() == AfterSnapshot(old(store.Model()), mono)
      ensures !old(stopped) ==>
        var b := BroadcastOf(serverTime, iso, old(|sessions|), old(broadcastSeq));
        var text := FrameText(old(store.Model()), mono, b);
        forall s :: s in sessions ==>
          s.Model() == AfterSend(old(s.Model()), StateFrame(broadcastSeq, text)) && SessionOk(s.Model())
    {
      hide SessionOk, AfterSend, AfterSnapshot, SnapshotOf, ToInt32;
      if stopped { return; }
      broadcastSeq := broadcastSeq + 1;
      var b := Broadcast(serverTime, iso, ToInt32(|sessions|), broadcastSeq);
      var snap := store.TakeSnapshot(mono);
      var text := BuildStateMessage(snap, b);
      SendAll(StateFrame(broadcastSeq, text));
    }

    method SendAll(m: Message)
      requires forall s :: s in sessions ==> SessionOk(s.Model())
      modifies sessions
      ensures forall s :: s in sessions ==> s.Model() == AfterSend(old(s.Model()), m) && SessionOk(s.Model())
    {
      hide SessionOk, AfterSend;
      var todo := sessions;
      while todo != {}
        invariant todo <= sessions
        invariant forall s :: s in todo ==> s.Model() == old(s.Model())
        invariant forall s :: s in sessions && s !in todo ==>
          s.Model() == AfterSend(old(s.Model()), m) && SessionOk(s.Model())
        decreases |todo|
      {
        var s :| s in todo;
        s.Send(m);
        todo := todo - {s};
      }
    }

    /** stop: closes every session and forgets them all; ticks do nothing from then on. */
    method Stop()
      modifies this`stopped, this`sessions, sessions
      ensures stopped && (!old(stopped) ==> sessions == {})
      ensures old(stopped) ==>
        sessions == old(sessions) && forall s :: s in old(sessions) ==> s.Model() == old(s.Model())
      ensures !old(stopped) ==> forall s :: s in old(sessions) ==> s.Model() == AfterFail(old(s.Model()))
    {
      if stopped { return; }
      stopped := true;
      var todo := sessions;
      while todo != {}
        invariant stopped && todo <= old(sessions) == sessions
        invariant forall s :: s in todo ==> s.Model() == old(s.Model())
        invariant forall s :: s in sessions && s !in todo ==> s.Model() == AfterFail(old(s.Model()))
        decreases |todo|
      {
        var s :| s in todo;
        s.Fail();
        todo := todo - {s};
      }
      sessions := {};
    }
  }
}
