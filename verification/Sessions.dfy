/** The broadcast side: one bounded outbox per client with at most one write in flight. */
module Sessions {
  import opened SortedKeys

  const MAX_QUEUED_FRAMES: nat := 5

  /** The greeting, or the state frame of one broadcast tick with its text. */
  datatype Message = Hello | StateFrame(tick: nat, text: string)

  /** The fields of a session, and its history: everything queued, everything delivered, and where in the
      queued messages the delivered ones and the one in flight come from. */
  datatype Session = Session(outbox: seq<Message>, writing: bool, closed: bool, overflowWarned: bool,
                             sent: seq<Message>, delivered: seq<Message>, deliveredAt: seq<int>, headAt: int)

  function NewSession(): Session {
    Session([], false, false, false, [], [], [], 0)
  }

  // ----- the operations as functions of the state -----

  /** Erases at index `protect` until the bound holds. */
  function Shed(outbox: seq<Message>, protect: nat): (kept: seq<Message>)
    requires protect <= 1
    ensures |kept| <= MAX_QUEUED_FRAMES
    decreases |outbox|
  {
    if |outbox| > MAX_QUEUED_FRAMES then Shed(outbox[..protect] + outbox[protect + 1..], protect) else outbox
  }

  function Protected(s: Session): nat {
    if s.writing then 1 else 0
  }

  function AfterSend(s: Session, m: Message): Session {
    if s.closed then s else
    var queue := s.outbox + [m];
    var kept := Shed(queue, Protected(s));
    s.(outbox := kept, sent := s.sent + [m], writing := true,
       overflowWarned := s.overflowWarned || |queue| > MAX_QUEUED_FRAMES,
       headAt := if s.writing then s.headAt else |s.sent|)
  }

  function AfterFail(s: Session): Session {
    s.(closed := true)
  }

  /** Completion of the write in flight. */
  function AfterWrite(s: Session, ok: bool): Session
    requires s.writing && s.outbox != []
  {
    if !ok then AfterFail(s.(writing := false)) else
    var rest := s.outbox[1..];
    s.(outbox := rest, writing := rest != [], overflowWarned := s.overflowWarned && rest != [],
       delivered := s.delivered + [s.outbox[0]], deliveredAt := s.deliveredAt + [s.headAt],
       headAt := |s.sent| - |rest|)
  }

  // ----- what every step keeps -----

  /** The messages behind the one in flight. */
  function Waiting(s: Session): seq<Message> {
    if s.writing && s.outbox != [] then s.outbox[1..] else s.outbox
  }

  /** The queue is bounded; while open, a write is in flight exactly when there is something to send. */
  predicate QueueOk(s: Session) {
    && |s.outbox| <= MAX_QUEUED_FRAMES
    && (s.writing ==> s.outbox != [])
    && (!s.closed ==> (s.writing <==> s.outbox != []))
  }

  /** The waiting messages are the most recent contiguous run of those sent. */
  predicate WaitingRecent(s: Session) {
    var w := Waiting(s);
    |w| <= |s.sent| && w == s.sent[|s.sent| - |w|..]
  }

  /** The message in flight was sent before those waiting and after those delivered, and has not been dropped. */
  predicate HeadKept(s: Session) {
    && s.outbox != [] && 0 <= s.headAt < |s.sent| - |Waiting(s)| && s.sent[s.headAt] == s.outbox[0]
    && (forall i :: 0 <= i < |s.deliveredAt| ==> s.deliveredAt[i] < s.headAt)
    && (s.deliveredAt == [] ==> s.headAt == 0)
  }

  /** The delivered messages are a subsequence of those sent, in order, starting with the first. */
  predicate DeliveredOk(s: Session) {
    && |s.deliveredAt| == |s.delivered| && Ascending(s.deliveredAt)
    && (forall i :: 0 <= i < |s.deliveredAt| ==>
          0 <= s.deliveredAt[i] < |s.sent| && s.delivered[i] == s.sent[s.deliveredAt[i]])
    && (s.deliveredAt != [] ==> s.deliveredAt[0] == 0)
  }

  predicate SessionOk(s: Session) {
    && QueueOk(s) && DeliveredOk(s)
    && (!s.closed || s.writing ==> WaitingRecent(s))
    && (s.writing ==> HeadKept(s))
    && (!s.closed && !s.writing && s.delivered == [] ==> s.sent == [])
  }

  lemma NewSessionOk()
    ensures SessionOk(NewSession())
  {
  }

  /** One message more than the bound costs exactly the oldest one not in flight. */
  lemma ShedOne(queue: seq<Message>, protect: nat)
    requires protect <= 1 && |queue| <= MAX_QUEUED_FRAMES + 1
    ensures Shed(queue, protect)
      == if |queue| > MAX_QUEUED_FRAMES then queue[..protect] + queue[protect + 1..] else queue
  {
  }

  lemma SendGrowsHistory(s: Session, t: Session, m: Message)
    requires DeliveredOk(s) && t.sent == s.sent + [m] && t.delivered == s.delivered && t.deliveredAt == s.deliveredAt
    ensures DeliveredOk(t)
  {
  }

  /** Sending while a write is in flight. */
  lemma {:induction false} SendBehindWrite(s: Session, m: Message)
    requires QueueOk(s) && WaitingRecent(s) && HeadKept(s) && s.writing && !s.closed
    ensures var t := AfterSend(s, m); QueueOk(t) && WaitingRecent(t) && HeadKept(t)
  {
    hide AfterSend, Waiting;
    SentBehindHead(s, m);
    TailGrows(s.sent, Waiting(s), m);
  }

  /** The head stays, and the waiting messages lose their oldest if there are too many. */
  lemma {:induction false} SentBehindHead(s: Session, m: Message)
    requires QueueOk(s) && s.writing && !s.closed
    ensures var t, w := AfterSend(s, m), Waiting(s);
      && |s.outbox| == |w| + 1 && |t.outbox| == |Waiting(t)| + 1 && t.outbox[0] == s.outbox[0]
      && Waiting(t) == (if |w| + 1 == MAX_QUEUED_FRAMES then w[1..] + [m] else w + [m])
      && t == s.(outbox := t.outbox, sent := s.sent + [m], overflowWarned := t.overflowWarned)
  {
    hide Shed;
    var queue, w := s.outbox + [m], Waiting(s);
    ShedOne(queue, 1);
    assert queue == [s.outbox[0]] + (w + [m]);
  }

  /** A tail of the history stays one when both grow, and when its oldest message goes. */
  lemma TailGrows(sent: seq<Message>, w: seq<Message>, m: Message)
    requires |w| <= |sent| && w == sent[|sent| - |w|..]
    ensures w + [m] == (sent + [m])[|sent| - |w|..]
    ensures w != [] ==> w[1..] + [m] == (sent + [m])[|sent| - |w| + 1..]
  {
  }

  /** Sending on an idle session starts the write at once. */
  lemma {:induction false} SendWhenIdle(s: Session, m: Message)
    requires QueueOk(s) && DeliveredOk(s) && !s.writing && !s.closed && (s.delivered == [] ==> s.sent == [])
    ensures var t := AfterSend(s, m); QueueOk(t) && WaitingRecent(t) && HeadKept(t)
  {
    hide Shed;
    var t, queue := AfterSend(s, m), s.outbox + [m];
    ShedOne(queue, 0);
    assert queue == [m] && Waiting(t) == [];
  }

  lemma {:induction false} SendKeepsOk(s: Session, m: Message)
    requires SessionOk(s)
    ensures SessionOk(AfterSend(s, m))
  {
    hide Shed, QueueOk, WaitingRecent, HeadKept, DeliveredOk;
    if !s.closed {
      SendGrowsHistory(s, AfterSend(s, m), m);
      if s.writing {
        SendBehindWrite(s, m);
      } else {
        SendWhenIdle(s, m);
      }
    }
  }

  lemma {:induction false} WriteKeepsOk(s: Session, ok: bool)
    requires SessionOk(s) && s.writing
    ensures s.outbox != [] && SessionOk(AfterWrite(s, ok))
  {
    if ok {
      var t, w := AfterWrite(s, ok), Waiting(s);
      assert t.outbox == w;
      if w != [] {
        assert w[0] == s.sent[|s.sent| - |w|];
        assert Waiting(t) == w[1..];
      }
    }
  }

  lemma FailKeepsOk(s: Session)
    requires SessionOk(s)
    ensures SessionOk(AfterFail(s))
  {
  }

  // ----- the class -----

  class SessionObject {
    var outbox: seq<Message>
    var writing: bool
    var closed: bool
    var overflowWarned: bool
    ghost var sent: seq<Message>
    ghost var delivered: seq<Message>
    ghost var deliveredAt: seq<int>
    ghost var headAt: int

    ghost function Model(): Session
      reads this
    {
      Session(outbox, writing, closed, overflowWarned, sent, delivered, deliveredAt, headAt)
    }

    constructor ()
      ensures Model() == NewSession() && SessionOk(Model())
    {
      outbox, writing, closed, overflowWarned := [], false, false, false;
      sent, delivered, deliveredAt, headAt := [], [], [], 0;
      new;
      NewSessionOk();
    }

    /** send: queue, shed, and start a write if none is in flight. */
    method Send(m: Message)
      requires SessionOk(Model())
      modifies this
      ensures Model() == AfterSend(old(Model()), m) && SessionOk(Model())
    {
      hide SessionOk, Shed;
      SendKeepsOk(Model(), m);
      if closed { return; }
      outbox := outbox + [m];
      EnforceQueueLimit();
      sent := sent + [m];
      if !writing {
        writing := true;
        headAt := |sent| - 1;
      }
    }

    /** enforceQueueLimit: drop the oldest frames, sparing the one a write refers to. */
    method EnforceQueueLimit()
      modifies this`outbox, this`overflowWarned
      ensures outbox == Shed(old(outbox), if writing then 1 else 0)
      ensures overflowWarned == (old(overflowWarned) || |old(outbox)| > MAX_QUEUED_FRAMES)
    {
      var protect := if writing then 1 else 0;
      var dropped := false;
      while |outbox| > MAX_QUEUED_FRAMES
        invariant Shed(outbox, protect) == Shed(old(outbox), protect)
        invariant dropped || outbox == old(outbox)
        invariant dropped ==> |old(outbox)| > MAX_QUEUED_FRAMES
        invariant overflowWarned == old(overflowWarned)
        decreases |outbox|
      {
        outbox := outbox[..protect] + outbox[protect + 1..];
        dropped := true;
      }
      if dropped && !overflowWarned {
        overflowWarned := true;
      }
    }

    /** onWrite: the write in flight has completed. */
    method OnWrite(ok: bool)
      requires SessionOk(Model()) && writing
      modifies this
      ensures Model() == AfterWrite(old(Model()), ok) && SessionOk(Model())
    {
      hide SessionOk, QueueOk, WaitingRecent, HeadKept, DeliveredOk, Ascending;
      WriteKeepsOk(Model(), ok);
      writing := false;
      if !ok {
        Fail();
        return;
      }
      delivered, deliveredAt := delivered + [outbox[0]], deliveredAt + [headAt];
      outbox := outbox[1..];
      headAt := |sent| - |outbox|;
      if outbox == [] {
        overflowWarned := false;
      } else {
        writing := true;
      }
    }

    /** fail and close: no frame is queued afterwards. */
    method Fail()
      modifies this`closed
      ensures closed
    {
      if closed { return; }
      closed := true;
    }
  }

  // ----- the whole server -----

  /** Every session that ever was, those still registered, the broadcast counter and whether it was stopped. */
  datatype Server = Server(tick: nat, sessions: map<int, Session>, registered: set<int>, stopped: bool)

  /** A tick of the timer comes with the text it is about to broadcast. */
  datatype Event = Accepted(id: int) | Tick(text: string) | Written(id: int, ok: bool) | ReadFailed(id: int) | Stop

  predicate Enabled(v: Server, e: Event) {
    match e
    case Accepted(id) => id !in v.sessions
    case Written(id, _) => id in v.sessions && v.sessions[id].writing && v.sessions[id].outbox != []
    case ReadFailed(id) => id in v.sessions
    case _ => true
  }

  function Next(v: Server, e: Event): Server
    requires Enabled(v, e)
  {
    match e
    case Accepted(id) =>
      v.(sessions := v.sessions[id := AfterSend(NewSession(), Hello)], registered := v.registered + {id})
    case Tick(text) =>
      if v.stopped then v else
      v.(tick := v.tick + 1, sessions := AfterBroadcast(v, text))
    case Written(id, ok) =>
      v.(sessions := v.sessions[id := AfterWrite(v.sessions[id], ok)],
         registered := if ok || v.sessions[id].closed then v.registered else v.registered - {id})
    case ReadFailed(id) =>
      if v.sessions[id].closed then v else
      v.(sessions := v.sessions[id := AfterFail(v.sessions[id])], registered := v.registered - {id})
    case Stop =>
      if v.stopped then v else
      v.(sessions := map id | id in v.sessions ::
           if id in v.registered then AfterFail(v.sessions[id]) else v.sessions[id],
         registered := {}, stopped := true)
  }

  /** Every registered session has been sent the next frame. */
  function AfterBroadcast(v: Server, text: string): map<int, Session> {
    map id | id in v.sessions ::
      if id in v.registered then AfterSend(v.sessions[id], StateFrame(v.tick + 1, text)) else v.sessions[id]
  }

  /** Hello first, then state frames with strictly increasing numbers up to the counter. */
  ghost predicate NumberedUpTo(sent: seq<Message>, tick: nat) {
    && (sent != [] ==> sent[0] == Hello)
    && (forall i :: 0 < i < |sent| ==> sent[i].StateFrame? && sent[i].tick <= tick)
    && (forall i, j :: 0 < i < j < |sent| ==> sent[i].tick < sent[j].tick)
  }

  ghost predicate ServerOk(v: Server) {
    forall id :: id in v.sessions ==>
      SessionOk(v.sessions[id]) && NumberedUpTo(v.sessions[id].sent, v.tick) && v.sessions[id].sent != []
  }

  lemma NumberedLater(sent: seq<Message>, tick: nat, text: string)
    requires NumberedUpTo(sent, tick)
    ensures NumberedUpTo(sent, tick + 1)
    ensures sent != [] ==> NumberedUpTo(sent + [StateFrame(tick + 1, text)], tick + 1)
  {
  }

  lemma {:induction false} NextKeepsServer(v: Server, e: Event)
    requires ServerOk(v) && Enabled(v, e)
    ensures ServerOk(Next(v, e))
  {
    hide SessionOk, NumberedUpTo, Shed;
    match e
    case Accepted(id) =>
      NewSessionOk();
      SendKeepsOk(NewSession(), Hello);
      assert NumberedUpTo([Hello], v.tick) by { FirstNumbered(v.tick); }
      assert [] + [Hello] == [Hello];
    case Tick(text) =>
      forall id | id in v.sessions
        ensures SessionOk(AfterBroadcast(v, text)[id]) && NumberedUpTo(AfterBroadcast(v, text)[id].sent, v.tick + 1)
      {
        SendKeepsOk(v.sessions[id], StateFrame(v.tick + 1, text));
        NumberedLater(v.sessions[id].sent, v.tick, text);
      }
    case Written(id, ok) =>
      WriteKeepsOk(v.sessions[id], ok);
    case ReadFailed(id) =>
      FailKeepsOk(v.sessions[id]);
    case Stop =>
      forall id | id in v.sessions
        ensures SessionOk(Next(v, e).sessions[id])
      {
        FailKeepsOk(v.sessions[id]);
      }
  }

  /** Nothing but its own completion removes the frame a write refers to. */
  lemma {:induction false} InFlightUntilWritten(v: Server, e: Event, id: int)
    requires ServerOk(v) && Enabled(v, e) && id in v.sessions && v.sessions[id].writing
    requires !(e.Written? && e.id == id)
    ensures var s, t := v.sessions[id], Next(v, e).sessions[id];
      t.writing && t.outbox != [] && t.outbox[0] == s.outbox[0]
  {
    hide NumberedUpTo, Shed, WaitingRecent, HeadKept, DeliveredOk;
    var s := v.sessions[id];
    assert s.outbox != [];
    forall m: Message
      ensures AfterSend(s, m).writing && AfterSend(s, m).outbox != [] && AfterSend(s, m).outbox[0] == s.outbox[0]
    {
      ShedOne(s.outbox + [m], 1);
    }
  }

  lemma FirstNumbered(tick: nat)
    ensures NumberedUpTo([Hello], tick)
  {
  }

  ghost predicate IsRun(states: seq<Server>, events: seq<Event>) {
    && |states| == |events| + 1
    && states[0] == Server(0, map[], {}, false)
    && forall i :: 0 <= i < |events| ==> Enabled(states[i], events[i]) && states[i + 1] == Next(states[i], events[i])
  }

  /** What one client sees: hello, then state frames with strictly increasing numbers. */
  ghost predicate ClientView(delivered: seq<Message>) {
    && (delivered != [] ==> delivered[0] == Hello)
    && (forall i :: 0 < i < |delivered| ==> delivered[i].StateFrame?)
    && (forall i, j :: 0 < i < j < |delivered| ==> delivered[i].tick < delivered[j].tick)
  }

  /** In every state of every run, each client has at most five frames queued, the waiting ones are the most recent
      sent, and what it has received is hello followed by frames with strictly increasing numbers. */
  lemma {:induction false} EveryClientMovesForward(states: seq<Server>, events: seq<Event>, k: nat, id: int)
    requires IsRun(states, events) && k <= |events| && id in states[k].sessions
    ensures ServerOk(states[k])
    ensures var s := states[k].sessions[id];
      && |s.outbox| <= MAX_QUEUED_FRAMES
      && ClientView(s.delivered)
      && (!s.closed || s.writing ==> |Waiting(s)| <= |s.sent| && Waiting(s) == s.sent[|s.sent| - |Waiting(s)|..])
  {
    RunKeepsServer(states, events, k);
    DeliveredInOrder(states[k].sessions[id], states[k].tick);
  }

  lemma {:induction false} RunKeepsServer(states: seq<Server>, events: seq<Event>, k: nat)
    requires IsRun(states, events) && k <= |events|
    ensures ServerOk(states[k])
  {
    hide Next, Enabled, SessionOk, NumberedUpTo;
    if k != 0 {
      RunKeepsServer(states, events, k - 1);
      NextKeepsServer(states[k - 1], events[k - 1]);
    }
  }

  lemma {:induction false} DeliveredInOrder(s: Session, tick: nat)
    requires SessionOk(s) && NumberedUpTo(s.sent, tick)
    ensures ClientView(s.delivered)
  {
    forall i | 0 < i < |s.delivered|
      ensures s.deliveredAt[i] > 0
    {
      assert s.deliveredAt[0] < s.deliveredAt[i];
    }
  }
}
