/** Where every tick of a run went, client by client: delivered, still queued, or shed. */
module Shedding {
  import opened Bytes
  import opened Store
  import opened StateMessage
  import opened ClientMessage
  import opened Pipeline
  import opened Broadcasts
  import opened SnapshotFits
  import opened Batcher
  import opened EndToEnd
  import opened Viewer
  import opened Delivery
  import Olv2Codec
  import Sessions

  // ----- one session -----

  /** The numbers of the state frames among some messages. */
  function TicksOf(ms: seq<Sessions.Message>): set<nat> {
    if ms == [] then {} else
    var last := ms[|ms| - 1];
    TicksOf(ms[..|ms| - 1]) + if last.StateFrame? then {last.tick} else {}
  }

  lemma {:induction false} TicksJoin(a: seq<Sessions.Message>, b: seq<Sessions.Message>)
    ensures TicksOf(a + b) == TicksOf(a) + TicksOf(b)
    decreases |b|
  {
    if b == [] {
      assert a + b == a;
    } else {
      var n := |b| - 1;
      TicksJoin(a, b[..n]);
      assert (a + b)[..|a| + n] == a + b[..n];
    }
  }

  lemma {:induction false} TicksAreGot(ms: seq<Sessions.Message>, t: nat)
    ensures t in TicksOf(ms) <==> Got(ms, t)
  {
    if ms != [] {
      var n := |ms| - 1;
      TicksAreGot(ms[..n], t);
      if Got(ms[..n], t) {
        var i :| 0 <= i < n && ms[..n][i].StateFrame? && ms[..n][i].tick == t;
        assert ms[i] == ms[..n][i];
      }
      if Got(ms, t) {
        var i :| 0 <= i < |ms| && ms[i].StateFrame? && ms[i].tick == t;
        if i < n {
          assert ms[..n][i] == ms[i];
        }
      }
    }
  }

  lemma {:induction false} TicksOfOne(m: Sessions.Message)
    ensures TicksOf([m]) == if m.StateFrame? then {m.tick} else {}
  {
    assert [m][..0] == [];
  }

  ghost predicate Rising(ms: seq<Sessions.Message>) {
    forall i, j :: 0 <= i < j < |ms| && ms[i].StateFrame? && ms[j].StateFrame? ==> ms[i].tick < ms[j].tick
  }

  lemma {:induction false} HeadIsAlone(h: Sessions.Message, rest: seq<Sessions.Message>)
    requires Rising([h] + rest)
    ensures TicksOf([h]) !! TicksOf(rest) && Rising(rest)
  {
    var ms := [h] + rest;
    TicksOfOne(h);
    if h.StateFrame? {
      TicksAreGot(rest, h.tick);
      forall i | 0 <= i < |rest| && rest[i].StateFrame?
        ensures h.tick < rest[i].tick
      {
        assert ms[i + 1] == rest[i] && ms[0] == h;
      }
    }
    forall i, j | 0 <= i < j < |rest| && rest[i].StateFrame? && rest[j].StateFrame?
      ensures rest[i].tick < rest[j].tick
    {
      assert ms[i + 1] == rest[i] && ms[j + 1] == rest[j];
    }
  }

  /** The `n` numbers after `from`. */
  function Numbers(from: nat, n: nat): (r: set<nat>)
    ensures forall t: nat :: t in r <==> from < t <= from + n
  {
    if n == 0 then {} else Numbers(from, n - 1) + {from + n}
  }

  /** The ticks sent to a session since it joined, each in exactly one place. */
  ghost predicate Accounted(s: Sessions.Session, shed: set<nat>, joined: nat) {
    var d, o := TicksOf(s.delivered), TicksOf(s.outbox);
    && s.sent != [] && d + o + shed == Numbers(joined, |s.sent| - 1)
    && d !! o && d !! shed && o !! shed && Rising(s.outbox)
  }

  /** The frame that sending one more costs. */
  function ShedBySend(s: Sessions.Session): set<nat> {
    if |s.outbox| >= Sessions.MAX_QUEUED_FRAMES && s.outbox[1].StateFrame? then {s.outbox[1].tick} else {}
  }

  /** Below the limit nothing is shed; at the limit the frame behind the one in flight is. */
  lemma {:induction false} OutboxAfterSend(s: Sessions.Session, m: Sessions.Message)
    requires Sessions.QueueOk(s) && !s.closed
    ensures var t := Sessions.AfterSend(s, m);
      && t.sent == s.sent + [m] && t.delivered == s.delivered && t.closed == s.closed
      && t.outbox == (if |s.outbox| < Sessions.MAX_QUEUED_FRAMES then s.outbox else [s.outbox[0]] + s.outbox[2..]) + [m]
  {
    hide Sessions.Shed;
    Sessions.ShedOne(s.outbox + [m], if s.writing then 1 else 0);
  }

  lemma {:induction false} RisingGrows(ms: seq<Sessions.Message>, m: Sessions.Message)
    requires Rising(ms) && m.StateFrame? && forall t :: t in TicksOf(ms) ==> t < m.tick
    ensures Rising(ms + [m])
  {
    forall i | 0 <= i < |ms| && ms[i].StateFrame?
      ensures ms[i].tick < m.tick
    {
      TicksAreGot(ms, ms[i].tick);
      assert Got(ms, ms[i].tick);
    }
  }

  lemma {:induction false} RisingWithoutSecond(h: Sessions.Message, x: Sessions.Message, rest: seq<Sessions.Message>)
    requires Rising([h, x] + rest)
    ensures Rising([h] + rest) && TicksOf([x]) !! TicksOf([h] + rest)
    ensures TicksOf([h, x] + rest) == TicksOf([h] + rest) + TicksOf([x])
  {
    var ms, ns := [h, x] + rest, [h] + rest;
    forall i, j | 0 <= i < j < |ns| && ns[i].StateFrame? && ns[j].StateFrame?
      ensures ns[i].tick < ns[j].tick
    {
      assert ns[j] == ms[j + 1] && ns[i] == if i == 0 then ms[0] else ms[i + 1];
    }
    assert ms == [h] + ([x] + rest);
    HeadIsAlone(h, [x] + rest);
    HeadIsAlone(x, rest);
    TicksJoin([h], [x] + rest);
    TicksJoin([x], rest);
    TicksJoin([h], rest);
  }

  /** Sending puts the new tick into the outbox and moves at most one to the shed ones. */
  lemma {:induction false} SendAccounts(s: Sessions.Session, shed: set<nat>, joined: nat, text: string)
    requires Sessions.QueueOk(s) && !s.closed && Accounted(s, shed, joined)
    ensures var t := Sessions.AfterSend(s, Sessions.StateFrame(joined + |s.sent|, text));
      Accounted(t, shed + ShedBySend(s), joined)
  {
    hide Sessions.AfterSend, Rising, TicksOf;
    var m := Sessions.StateFrame(joined + |s.sent|, text);
    var t := Sessions.AfterSend(s, m);
    OutboxAfterSend(s, m);
    var kept := t.outbox[..|t.outbox| - 1];
    if |s.outbox| >= Sessions.MAX_QUEUED_FRAMES {
      var h, x, rest := s.outbox[0], s.outbox[1], s.outbox[2..];
      assert s.outbox == [h, x] + rest && kept == [h] + rest;
      RisingWithoutSecond(h, x, rest);
      TicksOfOne(x);
    } else {
      assert kept == s.outbox;
    }
    assert t.outbox == kept + [m];
    TicksJoin(kept, [m]);
    TicksOfOne(m);
    RisingGrows(kept, m);
  }

  /** Writing moves the head's tick to the delivered ones. */
  lemma {:induction false} WriteAccounts(s: Sessions.Session, shed: set<nat>, joined: nat, ok: bool)
    requires s.writing && s.outbox != [] && Accounted(s, shed, joined)
    ensures Accounted(Sessions.AfterWrite(s, ok), shed, joined)
  {
    hide Rising, TicksOf;
    if ok {
      var h, rest := s.outbox[0], s.outbox[1..];
      assert s.outbox == [h] + rest;
      HeadIsAlone(h, rest);
      TicksJoin([h], rest);
      TicksJoin(s.delivered, [h]);
    }
  }

  lemma {:induction false} NewAccounts(joined: nat)
    ensures Accounted(Sessions.AfterSend(Sessions.NewSession(), Sessions.Hello), {}, joined)
  {
    hide Sessions.Shed;
    Sessions.ShedOne([Sessions.Hello], 0);
    TicksOfOne(Sessions.Hello);
    var s := Sessions.AfterSend(Sessions.NewSession(), Sessions.Hello);
    assert [] + [Sessions.Hello] == [Sessions.Hello];
    assert s.outbox == [Sessions.Hello] && s.delivered == [] && s.sent == [Sessions.Hello];
  }

  // ----- the whole run -----

  /** A tick is sent to this client while its outbox is full. */
  predicate Full(j: Joint, s: Step, client: int) {
    && s.TimerTick? && !j.server.stopped && client in j.server.registered && client in j.server.sessions
    && |j.server.sessions[client].outbox| >= Sessions.MAX_QUEUED_FRAMES
  }

  function StepSheds(j: Joint, s: Step, client: int): set<nat> {
    if Full(j, s, client) then ShedBySend(j.server.sessions[client]) else {}
  }

  /** The ticks whose frames the client's outbox shed in the first `n` steps. */
  function ShedTicks(states: seq<Joint>, steps: seq<Step>, client: int, n: nat): set<nat>
    requires n <= |steps| <= |states|
  {
    if n == 0 then {} else
    ShedTicks(states, steps, client, n - 1) + StepSheds(states[n - 1], steps[n - 1], client)
  }

  /** How many ticks there had been when the client was accepted. */
  function JoinedAt(states: seq<Joint>, steps: seq<Step>, client: int, n: nat): nat
    requires n <= |steps| <= |states|
  {
    if n == 0 then 0
    else if steps[n - 1] == Net(Sessions.Accepted(client)) then |states[n - 1].log|
    else JoinedAt(states, steps, client, n - 1)
  }

  /** The registered sessions are those that are open. */
  ghost predicate RegisteredOpen(v: Sessions.Server) {
    && (forall id :: id in v.registered ==> id in v.sessions && !v.sessions[id].closed)
    && (forall id :: id in v.sessions && !v.sessions[id].closed ==> id in v.registered)
  }

  lemma {:induction false} NextKeepsOpen(v: Sessions.Server, e: Sessions.Event)
    requires Sessions.Enabled(v, e) && RegisteredOpen(v)
    ensures RegisteredOpen(Sessions.Next(v, e))
  {
    hide Sessions.Shed;
  }

  /** What is known of one client: nothing before it is accepted, and then where each tick went. */
  ghost predicate ClientAccounted(v: Sessions.Server, log: seq<Frame>, client: int, shed: set<nat>, joined: nat) {
    if client !in v.sessions then shed == {} else
    var s := v.sessions[client];
    && Accounted(s, shed, joined) && joined + |s.sent| - 1 <= |log|
    && (!s.closed ==> joined + |s.sent| - 1 == |log|)
  }

  lemma {:induction false} TickAccounts(v: Sessions.Server, log: seq<Frame>, f: Frame, client: int, shed: set<nat>,
                                        joined: nat)
    requires ServerMatches(v, log) && RegisteredOpen(v) && !v.stopped && ClientAccounted(v, log, client, shed, joined)
    ensures var more := if client in v.registered then ShedBySend(v.sessions[client]) else {};
      ClientAccounted(Sessions.Next(v, Sessions.Tick(f.text)), log + [f], client, shed + more, joined)
  {
    hide Sessions.AfterSend, Accounted, FromLog, Sessions.NumberedUpTo;
    hide Sessions.WaitingRecent, Sessions.HeadKept, Sessions.DeliveredOk;
    if client in v.registered {
      var s := v.sessions[client];
      SendAccounts(s, shed, joined, f.text);
      OutboxAfterSend(s, Sessions.StateFrame(v.tick + 1, f.text));
      var t := Sessions.Next(v, Sessions.Tick(f.text)).sessions[client];
      assert t == Sessions.AfterSend(s, Sessions.StateFrame(joined + |s.sent|, f.text));
      assert Accounted(t, shed + ShedBySend(s), joined);
    } else {
      assert client in v.sessions ==> Sessions.Next(v, Sessions.Tick(f.text)).sessions[client] == v.sessions[client];
      assert shed + {} == shed;
    }
  }

  lemma {:induction false} NetAccounts(v: Sessions.Server, log: seq<Frame>, e: Sessions.Event, client: int,
                                       shed: set<nat>, joined: nat)
    requires Sessions.Enabled(v, e) && !e.Tick? && RegisteredOpen(v) && ClientAccounted(v, log, client, shed, joined)
    ensures ClientAccounted(Sessions.Next(v, e), log, client, shed,
                            if e == Sessions.Accepted(client) then |log| else joined)
  {
    hide Sessions.AfterSend;
    match e
    case Accepted(id) =>
      if id == client {
        NewAccounts(|log|);
        OneSent();
      }
    case Written(id, ok) =>
      if id == client {
        hide Accounted;
        WriteAccounts(v.sessions[id], shed, joined, ok);
      }
    case _ =>
  }

  lemma OneSent()
    ensures |Sessions.AfterSend(Sessions.NewSession(), Sessions.Hello).sent| == 1
  {
  }

  /** In every state of every run, for every client: each tick sent to it since it was accepted is delivered,
      queued or shed, and in exactly one of these; and every tick since then was sent to it while it is open. */
  lemma {:induction false} EveryTickAccounted(states: seq<Joint>, steps: seq<Step>, iso: int -> string, n: nat,
                                              client: int)
    requires IsJointRun(states, steps, iso) && n <= |steps|
    ensures var j := states[n];
      && ServerMatches(j.server, j.log) && RegisteredOpen(j.server)
      && ClientAccounted(j.server, j.log, client, ShedTicks(states, steps, client, n),
                         JoinedAt(states, steps, client, n))
  {
    hide Next, Enabled, ServerMatches, Sessions.Next, Sessions.Enabled, TickFrame, Starts, ClientAccounted;
    ServerFollows(states, steps, iso, n);
    if n == 0 {
      NobodyAccounted(client);
    } else {
      EveryTickAccounted(states, steps, iso, n - 1, client);
      var j, s := states[n - 1], steps[n - 1];
      var shed, joined := ShedTicks(states, steps, client, n - 1), JoinedAt(states, steps, client, n - 1);
      match s
      case Input(a) =>
        assert shed + {} == shed;
      case TimerTick(mono, serverTime) =>
        if j.server.stopped {
          assert shed + {} == shed;
        } else {
          var f := TickFrame(j, mono, serverTime, iso);
          TickAccounts(j.server, j.log, f, client, shed, joined);
          TickEnabled(j.server, f.text);
          NextKeepsOpen(j.server, Sessions.Tick(f.text));
        }
      case Net(e) =>
        NetAccounts(j.server, j.log, e, client, shed, joined);
        NextKeepsOpen(j.server, e);
        assert shed + {} == shed;
    }
  }

  lemma TickEnabled(v: Sessions.Server, text: string)
    ensures Sessions.Enabled(v, Sessions.Tick(text))
  {
  }

  lemma NobodyAccounted(client: int)
    ensures ClientAccounted(Sessions.Server(0, map[], {}, false), [], client, {}, 0)
  {
  }

  /** An open client has got exactly the ticks since it was accepted that are neither queued nor were shed. */
  lemma {:induction false} GotIff(states: seq<Joint>, steps: seq<Step>, iso: int -> string, n: nat, client: int, t: nat)
    requires IsJointRun(states, steps, iso) && n <= |steps| && client in states[n].server.sessions
    requires !states[n].server.sessions[client].closed && 1 <= t <= |states[n].log|
    ensures var s := states[n].server.sessions[client];
      Got(s.delivered, t) <==>
        && JoinedAt(states, steps, client, n) < t && t !in ShedTicks(states, steps, client, n)
        && t !in TicksOf(s.outbox)
  {
    hide IsJointRun, TicksOf, Got;
    RunShape(states, steps, iso);
    EveryTickAccounted(states, steps, iso, n, client);
    TicksAreGot(states[n].server.sessions[client].delivered, t);
  }

  /** Every tick with points since the client was accepted showed a finite velocity, and is neither queued nor was
      shed; no tick before had points. */
  ghost predicate NothingLost(states: seq<Joint>, steps: seq<Step>, client: int, n: nat)
    requires n <= |steps| < |states| && client in states[n].server.sessions
  {
    var log, outbox := states[n].log, states[n].server.sessions[client].outbox;
    forall i :: 0 <= i < |log| && log[i].points != [] ==>
      && log[i].moving && JoinedAt(states, steps, client, n) <= i
      && i + 1 !in ShedTicks(states, steps, client, n) && i + 1 !in TicksOf(outbox)
  }

  /** An open client has read all reported points exactly when it joined in time, none of their frames is still
      queued or was shed, and each showed a finite velocity. */
  lemma {:induction false} ReadsAllIff(states: seq<Joint>, steps: seq<Step>, iso: int -> string, n: nat, client: int)
    requires IsJointRun(states, steps, iso) && n <= |steps| < TWO64 && PlainClock(iso) && states[0].sys.receiver.Olv2?
    requires client in states[n].server.sessions && TimesPrint(states[n].sys.reported)
    requires !states[n].server.sessions[client].closed && |states| > |steps|
    ensures var s := states[n].server.sessions[client];
      Read(s.delivered) == TrailsFor(states[n].sys.reported, Exact) <==> NothingLost(states, steps, client, n)
  {
    hide IsJointRun, TicksOf, Got, PlainClock, TimesPrint, Read, TrailsFor, Sublist, NeverBack;
    ClientReads(states, steps, iso, n, client, 0);
    var log, delivered := states[n].log, states[n].server.sessions[client].delivered;
    forall i | 0 <= i < |log| && log[i].points != []
      ensures Got(delivered, i + 1) <==>
        && JoinedAt(states, steps, client, n) <= i && i + 1 !in ShedTicks(states, steps, client, n)
        && i + 1 !in TicksOf(states[n].server.sessions[client].outbox)
    {
      GotIff(states, steps, iso, n, client, i + 1);
    }
  }

  /** A session that was accepted is never forgotten. */
  lemma {:induction false} SessionsStay(states: seq<Joint>, steps: seq<Step>, iso: int -> string, m: nat, n: nat,
                                        client: int)
    requires IsJointRun(states, steps, iso) && m <= n <= |steps| && client in states[m].server.sessions
    ensures client in states[n].server.sessions
    decreases n
  {
    hide Next, Enabled, TickFrame, Starts, Sessions.AfterSend, Sessions.AfterWrite;
    if m < n {
      SessionsStay(states, steps, iso, m, n - 1, client);
    }
  }

  /** What was shed stays shed. */
  lemma {:induction false} ShedStays(states: seq<Joint>, steps: seq<Step>, client: int, m: nat, n: nat)
    requires m <= n <= |steps| <= |states|
    ensures ShedTicks(states, steps, client, m) <= ShedTicks(states, steps, client, n)
    decreases n
  {
    hide StepSheds;
    if m < n {
      ShedStays(states, steps, client, m, n - 1);
    }
  }

  /** A tick that a client's outbox has shed never reaches it, however the run goes on. */
  lemma {:induction false} ShedIsLost(states: seq<Joint>, steps: seq<Step>, iso: int -> string, m: nat, n: nat,
                                      client: int, t: nat)
    requires IsJointRun(states, steps, iso) && m <= n <= |steps| && client in states[n].server.sessions
    requires |states| > |steps| && t in ShedTicks(states, steps, client, m)
    ensures !Got(states[n].server.sessions[client].delivered, t)
  {
    hide IsJointRun, TicksOf, Got;
    EveryTickAccounted(states, steps, iso, n, client);
    ShedStays(states, steps, client, m, n);
    TicksAreGot(states[n].server.sessions[client].delivered, t);
  }

  // ----- the guard of the branch that sheds -----

  /** The points of the frame behind the one in flight. */
  function PointsBehindHead(j: Joint, client: int): seq<TrailPoint>
    requires client in j.server.sessions && |j.server.sessions[client].outbox| > 1
  {
    var m := j.server.sessions[client].outbox[1];
    if m.StateFrame? && 1 <= m.tick <= |j.log| then j.log[m.tick - 1].points else []
  }

  /** Whenever a tick found the client's outbox full, the frame behind the one in flight carried no points. */
  predicate ShedsNoPoints(states: seq<Joint>, steps: seq<Step>, client: int, n: nat)
    requires n <= |steps| <= |states|
  {
    forall k :: 0 <= k < n && Full(states[k], steps[k], client) ==> PointsBehindHead(states[k], client) == []
  }

  lemma {:induction false} LogGrows(states: seq<Joint>, steps: seq<Step>, iso: int -> string, m: nat, n: nat)
    requires IsJointRun(states, steps, iso) && m <= n <= |steps|
    ensures states[m].log <= states[n].log
    decreases n
  {
    hide Next, Enabled, Sessions.Next, Sessions.Enabled, TickFrame, Starts;
    if m < n {
      LogGrows(states, steps, iso, m, n - 1);
    }
  }

  /** The ticks of the queued frames are ticks of the log. */
  lemma {:induction false} QueuedInLog(states: seq<Joint>, steps: seq<Step>, iso: int -> string, n: nat, client: int)
    requires IsJointRun(states, steps, iso) && n <= |steps|
    ensures forall t :: t in ShedTicks(states, steps, client, n) ==> 1 <= t <= |states[n].log|
    ensures client in states[n].server.sessions ==>
      forall t :: t in TicksOf(states[n].server.sessions[client].outbox) ==> 1 <= t <= |states[n].log|
  {
    hide IsJointRun, TicksOf, ShedTicks;
    EveryTickAccounted(states, steps, iso, n, client);
  }

  /** The ticks one step sheds carry points exactly when the frame behind the head does. */
  lemma {:induction false} StepShedsIff(states: seq<Joint>, steps: seq<Step>, iso: int -> string, k: nat, client: int)
    requires IsJointRun(states, steps, iso) && k < |steps|
    ensures var log, shed := states[k].log, StepSheds(states[k], steps[k], client);
      && (forall t :: t in shed ==> 1 <= t <= |log|)
      && ((forall t :: t in shed ==> log[t - 1].points == []) <==>
          (Full(states[k], steps[k], client) ==> PointsBehindHead(states[k], client) == []))
  {
    hide IsJointRun;
    RunShape(states, steps, iso);
    QueuedInLog(states, steps, iso, k, client);
    if Full(states[k], steps[k], client) {
      var outbox := states[k].server.sessions[client].outbox;
      if outbox[1].StateFrame? {
        TicksAreGot(outbox, outbox[1].tick);
        assert Got(outbox, outbox[1].tick);
        assert StepSheds(states[k], steps[k], client) == {outbox[1].tick};
      }
    }
  }

  ghost predicate ShedEmpty(shed: set<nat>, log: seq<Frame>) {
    forall t :: t in shed ==> 1 <= t <= |log| && log[t - 1].points == []
  }

  lemma {:induction false} ShedEmptyIff(states: seq<Joint>, steps: seq<Step>, iso: int -> string, n: nat, client: int)
    requires IsJointRun(states, steps, iso) && n <= |steps|
    ensures ShedEmpty(ShedTicks(states, steps, client, n), states[n].log) <==> ShedsNoPoints(states, steps, client, n)
  {
    hide IsJointRun, StepSheds, PointsBehindHead, Full;
    RunShape(states, steps, iso);
    if n > 0 {
      ShedEmptyIff(states, steps, iso, n - 1, client);
      StepShedsIff(states, steps, iso, n - 1, client);
      LogGrows(states, steps, iso, n - 1, n);
      QueuedInLog(states, steps, iso, n - 1, client);
      var shed, more := ShedTicks(states, steps, client, n - 1), StepSheds(states[n - 1], steps[n - 1], client);
      var old', log := states[n - 1].log, states[n].log;
      assert forall t :: t in shed + more ==> 1 <= t <= |old'| && log[t - 1] == old'[t - 1];
      assert ShedEmpty(shed + more, log) <==> ShedEmpty(shed, old') && ShedEmpty(more, old');
    }
  }

  // ----- from the samples to a client -----

  /** From the simulator to one client: under in-order lossless delivery of datagrams, any interleaving of ticks
      and writes, and no overflow of the store's queue, a client accepted before the first tick with points and
      with nothing left to write has read all that was reported exactly when no tick that found its outbox full
      shed a frame with points; and then it has read, for each id, exactly the time and position of every flushed
      frame that contains it, in order. */
  lemma {:induction false} SamplesReachClient(size: nat, sequence: u32, xs: seq<Sample>, s: Sender, states: seq<Joint>,
                                              steps: seq<Step>, iso: int -> string, client: int, id: u32)
    requires 1 <= size <= Olv2Codec.MAX_POINTS && GoodRun(xs)
    requires s == SendAll(size, sequence, xs) || s == Finish(SendAll(size, sequence, xs))
    requires IsJointRun(states, steps, iso) && |steps| < TWO64 && PlainClock(iso) && states[0].sys.receiver.Olv2?
    requires Lossless(states, steps, s) && forall i :: 0 <= i < |s.flushed| ==> TimePrints(s.flushed[i].t)
    requires var v := states[|steps|].server;
      client in v.sessions && !v.sessions[client].closed && v.sessions[client].outbox == []
    requires var log := states[|steps|].log;
      forall i :: 0 <= i < |log| && i < JoinedAt(states, steps, client, |steps|) ==> log[i].points == []
    ensures var j := states[|steps|];
      var read := Read(j.server.sessions[client].delivered);
      && (read == TrailsFor(j.sys.reported, Exact) <==> ShedsNoPoints(states, steps, client, |steps|))
      && (ShedsNoPoints(states, steps, client, |steps|) ==>
            SeenFor(read, id) == TrailsFor(Sightings(s.flushed, id), Exact))
  {
    hide GoodRun, SendAll, Finish, Lossless, IsJointRun, PlainClock, Sightings, ForId, TimePrints, TimesPrint, Read;
    hide TrailsFor, SeenFor, ShedsNoPoints, ShedTicks, JoinedAt;
    var n := |steps|;
    RunShape(states, steps, iso);
    LosslessReports(size, sequence, xs, s, states, steps, iso, id);
    ReadsAllIff(states, steps, iso, n, client);
    ShedEmptyIff(states, steps, iso, n, client);
    QueuedInLog(states, steps, iso, n, client);
    SeenForOfTrails(states[n].sys.reported, id);
    var log, shed := states[n].log, ShedTicks(states, steps, client, n);
    assert TicksOf([]) == {};
    assert NothingLost(states, steps, client, n) <==> ShedEmpty(shed, log) by {
      if NothingLost(states, steps, client, n) {
        forall t | t in shed
          ensures log[t - 1].points == []
        {
          assert log[t - 1].points != [] ==> t - 1 + 1 !in shed;
        }
      }
    }
  }
}
