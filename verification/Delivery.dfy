/** The receiving process and the broadcaster as one system: what each client reads against what was reported. */
module Delivery {
  import opened Bytes
  import opened Floats
  import opened Collections
  import opened Json
  import opened Printf
  import opened Store
  import opened StateMessage
  import opened ClientMessage
  import opened SnapshotFits
  import opened Pipeline
  import opened Broadcasts
  import opened Batcher
  import opened EndToEnd
  import opened Viewer
  import BroadcastServer
  import Olv2Codec
  import Sessions

  /** What one tick broadcast: its text, the trail points it drained, and whether the velocity it showed was finite. */
  datatype Frame = Frame(text: string, points: seq<TrailPoint>, moving: bool)

  /** `log` records every tick. */
  datatype Joint = Joint(sys: System, server: Sessions.Server, log: seq<Frame>)

  datatype Step = Input(a: Action) | TimerTick(mono: int, serverTime: int) | Net(e: Sessions.Event)

  predicate StepEnabled(j: Joint, s: Step) {
    match s
    case Input(a) => !a.Broadcast? && Enabled(j.sys, a)
    case TimerTick(_, _) => true
    case Net(e) => !e.Tick? && Sessions.Enabled(j.server, e)
  }

  function TickBroadcast(j: Joint, serverTime: int, iso: int -> string): Broadcast {
    BroadcastServer.BroadcastOf(serverTime, iso, |j.server.registered|, j.server.tick)
  }

  function TickFrame(j: Joint, mono: int, serverTime: int, iso: int -> string): Frame {
    Frame(FrameText(j.sys.store, mono, TickBroadcast(j, serverTime, iso)), j.sys.store.pending,
          VelocityFinite(j.sys.store))
  }

  /** A tick takes one snapshot and sends its text to every session, unless the server was stopped. */
  function JointNext(j: Joint, s: Step, iso: int -> string): Joint
    requires StepEnabled(j, s)
  {
    match s
    case Input(a) => j.(sys := Next(j.sys, a))
    case TimerTick(mono, serverTime) =>
      if j.server.stopped then j else
      var f := TickFrame(j, mono, serverTime, iso);
      Joint(Next(j.sys, Action.Broadcast(mono)), Sessions.Next(j.server, Sessions.Tick(f.text)), j.log + [f])
    case Net(e) => j.(server := Sessions.Next(j.server, e))
  }

  ghost predicate IsJointRun(states: seq<Joint>, steps: seq<Step>, iso: int -> string) {
    && |states| == |steps| + 1
    && Starts(states[0].sys) && states[0].server == Sessions.Server(0, map[], {}, false) && states[0].log == []
    && forall i :: 0 <= i < |steps| ==>
         StepEnabled(states[i], steps[i]) && states[i + 1] == JointNext(states[i], steps[i], iso)
  }

  ghost predicate PlainClock(iso: int -> string) {
    GoodBroadcast(StateMessage.Broadcast(0, iso, 0, 0))
  }

  lemma {:induction false} TickIsGood(j: Joint, serverTime: int, iso: int -> string)
    requires PlainClock(iso)
    ensures GoodBroadcast(TickBroadcast(j, serverTime, iso))
  {
    hide PlainString, BroadcastServer.ToInt32;
    var b, c := StateMessage.Broadcast(0, iso, 0, 0), TickBroadcast(j, serverTime, iso);
    forall t: int
      ensures PlainString(Iso(c, t))
    {
      assert PlainString(Iso(b, t));
    }
  }

  // ----- the receiving process on its own -----

  /** What the first `n` steps do to the receiving process. */
  function Actions(states: seq<Joint>, steps: seq<Step>, n: nat): seq<Action>
    requires n <= |steps| <= |states|
  {
    if n == 0 then [] else Actions(states, steps, n - 1) + ActionOf(states[n - 1], steps[n - 1])
  }

  function ActionOf(j: Joint, s: Step): seq<Action> {
    match s
    case Input(a) => [a]
    case TimerTick(mono, _) => if j.server.stopped then [] else [Action.Broadcast(mono)]
    case Net(_) => []
  }

  /** Its states along the way. */
  function Systems(states: seq<Joint>, steps: seq<Step>, n: nat): seq<System>
    requires n <= |steps| < |states|
  {
    if n == 0 then [states[0].sys] else
    Systems(states, steps, n - 1) + if ActionOf(states[n - 1], steps[n - 1]) == [] then [] else [states[n].sys]
  }

  lemma StepActs(j: Joint, s: Step, iso: int -> string)
    requires StepEnabled(j, s)
    ensures var t := JointNext(j, s, iso).sys;
      if ActionOf(j, s) == [] then t == j.sys
      else |ActionOf(j, s)| == 1 && Enabled(j.sys, ActionOf(j, s)[0]) && t == Next(j.sys, ActionOf(j, s)[0])
  {
    hide Next, Sessions.Next, TickFrame;
  }

  /** The receiving process of a joint run makes a run of its own. */
  lemma {:induction false} Projects(states: seq<Joint>, steps: seq<Step>, iso: int -> string, n: nat)
    requires IsJointRun(states, steps, iso) && n <= |steps|
    ensures var run, actions := Systems(states, steps, n), Actions(states, steps, n);
      && |run| == |actions| + 1 <= n + 1 && IsRun(run, actions)
      && run[0] == states[0].sys && run[|actions|] == states[n].sys
  {
    hide JointNext, StepEnabled, Next, Enabled, ActionOf, Starts;
    if n > 0 {
      Projects(states, steps, iso, n - 1);
      StepActs(states[n - 1], steps[n - 1], iso);
    }
  }

  /** Earlier states of the run are states of the longer one. */
  lemma {:induction false} SystemsPrefix(states: seq<Joint>, steps: seq<Step>, iso: int -> string, m: nat, n: nat)
    requires IsJointRun(states, steps, iso) && m <= n <= |steps|
    ensures |Actions(states, steps, m)| <= |Actions(states, steps, n)| < |Systems(states, steps, n)|
    ensures Systems(states, steps, n)[|Actions(states, steps, m)|] == states[m].sys
    decreases n
  {
    hide IsJointRun, IsRun, ActionOf;
    Projects(states, steps, iso, n);
    if m < n {
      assert |states| > |steps| by { RunShape(states, steps, iso); }
      SystemsPrefix(states, steps, iso, m, n - 1);
      Projects(states, steps, iso, n - 1);
    }
  }

  lemma RunShape(states: seq<Joint>, steps: seq<Step>, iso: int -> string)
    requires IsJointRun(states, steps, iso)
    ensures |states| == |steps| + 1
  {
    hide JointNext, StepEnabled;
  }

  // ----- what the log records -----

  function AllPoints(log: seq<Frame>): seq<TrailPoint> {
    if log == [] then [] else AllPoints(log[..|log| - 1]) + log[|log| - 1].points
  }

  /** A frame whose times print hands on all of its points, or none if its velocity is not finite. */
  ghost predicate FrameReads(f: Frame) {
    TimesPrint(f.points) ==> PointsIn(f.text) == if f.moving then TrailsFor(f.points, Exact) else []
  }

  /** Every frame of a session is one of the log. */
  ghost predicate FromLog(sent: seq<Sessions.Message>, log: seq<Frame>) {
    forall i :: 0 <= i < |sent| && sent[i].StateFrame? ==>
      1 <= sent[i].tick <= |log| && sent[i].text == log[sent[i].tick - 1].text
  }

  ghost predicate ServerMatches(v: Sessions.Server, log: seq<Frame>) {
    && v.tick == |log| && Sessions.ServerOk(v)
    && forall id :: id in v.sessions ==> FromLog(v.sessions[id].sent, log)
  }

  lemma SentAfterSend(s: Sessions.Session, m: Sessions.Message)
    ensures Sessions.AfterSend(s, m).sent == s.sent || Sessions.AfterSend(s, m).sent == s.sent + [m]
  {
    hide Sessions.Shed;
  }

  lemma FromLogGrows(sent: seq<Sessions.Message>, log: seq<Frame>, f: Frame)
    requires FromLog(sent, log)
    ensures FromLog(sent, log + [f]) && FromLog(sent + [Sessions.StateFrame(|log| + 1, f.text)], log + [f])
  {
  }

  lemma {:induction false} TickMatches(v: Sessions.Server, log: seq<Frame>, f: Frame)
    requires ServerMatches(v, log) && !v.stopped
    ensures ServerMatches(Sessions.Next(v, Sessions.Tick(f.text)), log + [f])
  {
    hide Sessions.AfterSend, FromLog, Sessions.ServerOk;
    Sessions.NextKeepsServer(v, Sessions.Tick(f.text));
    var t := Sessions.Next(v, Sessions.Tick(f.text));
    forall id | id in t.sessions
      ensures FromLog(t.sessions[id].sent, log + [f])
    {
      SentAfterSend(v.sessions[id], Sessions.StateFrame(v.tick + 1, f.text));
      FromLogGrows(v.sessions[id].sent, log, f);
    }
  }

  lemma {:induction false} NetMatches(v: Sessions.Server, log: seq<Frame>, e: Sessions.Event)
    requires ServerMatches(v, log) && !e.Tick? && Sessions.Enabled(v, e)
    ensures ServerMatches(Sessions.Next(v, e), log)
  {
    hide Sessions.ServerOk, Sessions.Shed;
    Sessions.NextKeepsServer(v, e);
  }

  /** Every session holds frames of the log. */
  lemma {:induction false} ServerFollows(states: seq<Joint>, steps: seq<Step>, iso: int -> string, n: nat)
    requires IsJointRun(states, steps, iso) && n <= |steps|
    ensures ServerMatches(states[n].server, states[n].log)
  {
    hide Next, Enabled, ServerMatches, Sessions.Next, Sessions.Enabled, TickFrame, Starts;
    if n == 0 {
      StartMatches();
    } else {
      ServerFollows(states, steps, iso, n - 1);
      var j, s := states[n - 1], steps[n - 1];
      if s.TimerTick? && !j.server.stopped {
        TickMatches(j.server, j.log, TickFrame(j, s.mono, s.serverTime, iso));
      } else if s.Net? {
        NetMatches(j.server, j.log, s.e);
      }
    }
  }

  lemma {:induction false} LogHolds(states: seq<Joint>, steps: seq<Step>, iso: int -> string, n: nat)
    requires IsJointRun(states, steps, iso) && n <= |steps| < TWO64 && PlainClock(iso) && states[0].sys.receiver.Olv2?
    ensures var j := states[n];
      && ServerMatches(j.server, j.log) && j.sys.reported == AllPoints(j.log)
      && forall i :: 0 <= i < |j.log| ==> FrameReads(j.log[i]) && AllTrailDecoded(j.log[i].points)
  {
    hide Next, Enabled, ServerMatches, Sessions.Next, FrameReads, AllTrailDecoded, TickFrame, PlainClock, Starts;
    hide Sessions.Enabled;
    ServerFollows(states, steps, iso, n);
    if n == 0 {
      NothingReported(states[0].sys);
    } else {
      LogHolds(states, steps, iso, n - 1);
      var j, s := states[n - 1], steps[n - 1];
      match s
      case Input(a) =>
        NextReports(j.sys, a);
      case TimerTick(mono, serverTime) =>
        if !j.server.stopped {
          var f := TickFrame(j, mono, serverTime, iso);
          FrameOfRun(states, steps, iso, n - 1, mono, serverTime);
          BroadcastReports(j.sys, mono);
          assert (j.log + [f])[..|j.log|] == j.log;
          TickDrains(j, mono, serverTime, iso);
        }
      case Net(e) =>
    }
  }

  lemma TickDrains(j: Joint, mono: int, serverTime: int, iso: int -> string)
    ensures TickFrame(j, mono, serverTime, iso).points == j.sys.store.pending
  {
    hide FrameText, VelocityFinite;
  }

  lemma {:induction false} BroadcastReports(sys: System, mono: int)
    ensures Enabled(sys, Action.Broadcast(mono))
    ensures Next(sys, Action.Broadcast(mono)).reported == sys.reported + sys.store.pending
  {
    hide Next;
    NextReports(sys, Action.Broadcast(mono));
  }

  lemma StartMatches()
    ensures ServerMatches(Sessions.Server(0, map[], {}, false), [])
  {
  }

  lemma NothingReported(sys: System)
    requires Starts(sys)
    ensures sys.reported == []
  {
  }

  lemma {:induction false} FrameOfRun(states: seq<Joint>, steps: seq<Step>, iso: int -> string, n: nat, mono: int,
                                      serverTime: int)
    requires IsJointRun(states, steps, iso) && n <= |steps| < TWO64 && PlainClock(iso) && states[0].sys.receiver.Olv2?
    ensures var f := TickFrame(states[n], mono, serverTime, iso); FrameReads(f) && AllTrailDecoded(f.points)
  {
    hide Next, Enabled, JointNext, StepEnabled, GoodBroadcast, PointsIn, TimesPrint, VelocityFinite, Starts;
    hide TrailsFor, FrameText, AllTrailDecoded, Faithful, ParseStateMessage, PlainClock;
    Projects(states, steps, iso, n);
    var run, actions := Systems(states, steps, n), Actions(states, steps, n);
    var b := TickBroadcast(states[n], serverTime, iso);
    TickIsGood(states[n], serverTime, iso);
    hide TickBroadcast;
    Olv2BroadcastsAreRecoveredIff(run, actions, |actions|, mono, b);
    if TimesPrint(states[n].sys.store.pending) {
      BroadcastSeen(run, actions, |actions|, mono, b);
    }
  }

  // ----- what one client reads -----

  /** All trail points in the frames a client has received. */
  function Read(delivered: seq<Sessions.Message>): seq<ClientTrailPoint> {
    if delivered == [] then [] else
    var last := delivered[|delivered| - 1];
    Read(delivered[..|delivered| - 1]) + if last.StateFrame? then PointsIn(last.text) else []
  }

  ghost predicate Got(delivered: seq<Sessions.Message>, tick: nat) {
    exists i :: 0 <= i < |delivered| && delivered[i].StateFrame? && delivered[i].tick == tick
  }

  /** The points of the first `n` ticks that reached the client in a frame it can read. */
  ghost function Picked(log: seq<Frame>, n: nat, delivered: seq<Sessions.Message>): seq<ClientTrailPoint>
    requires n <= |log|
  {
    if n == 0 then [] else
    Picked(log, n - 1, delivered)
    + if Got(delivered, n) && log[n - 1].moving then TrailsFor(log[n - 1].points, Exact) else []
  }

  /** What a client has received: frames of the log with increasing numbers up to `n`. */
  ghost predicate Received(log: seq<Frame>, n: nat, delivered: seq<Sessions.Message>) {
    && n <= |log| && FromLog(delivered, log)
    && (forall i :: 0 <= i < |delivered| && delivered[i].StateFrame? ==> delivered[i].tick <= n)
    && (forall i, j :: 0 <= i < j < |delivered| && delivered[i].StateFrame? && delivered[j].StateFrame? ==>
          delivered[i].tick < delivered[j].tick)
  }

  ghost predicate LogReads(log: seq<Frame>) {
    forall i :: 0 <= i < |log| ==> FrameReads(log[i]) && TimesPrint(log[i].points)
  }

  lemma {:induction false} PickedSame(log: seq<Frame>, n: nat, a: seq<Sessions.Message>, b: seq<Sessions.Message>)
    requires n <= |log| && forall t :: 1 <= t <= n ==> (Got(a, t) <==> Got(b, t))
    ensures Picked(log, n, a) == Picked(log, n, b)
  {
    hide Got;
    if n > 0 {
      PickedSame(log, n - 1, a, b);
    }
  }

  lemma {:induction false} NothingPicked(log: seq<Frame>, n: nat, delivered: seq<Sessions.Message>)
    requires n <= |log| && forall i :: 0 <= i < |delivered| ==> !delivered[i].StateFrame?
    ensures Picked(log, n, delivered) == []
  {
    if n > 0 {
      NothingPicked(log, n - 1, delivered);
    }
  }

  /** A client reads, tick by tick, the points of the frames it got. */
  lemma {:induction false} ReadIsPicked(log: seq<Frame>, n: nat, delivered: seq<Sessions.Message>)
    requires n <= |log| && Received(log, n, delivered) && LogReads(log)
    ensures Read(delivered) == Picked(log, n, delivered)
    decreases |delivered|, n
  {
    hide PointsIn, TimesPrint, Got, Received, TrailsFor, Exact;
    if delivered == [] {
      NothingPicked(log, n, delivered);
    } else {
      var k := |delivered| - 1;
      var front, last := delivered[..k], delivered[k];
      ReceivedFront(log, n, delivered);
      GotFront(delivered);
      if !last.StateFrame? {
        ReadIsPicked(log, n, front);
        PickedSame(log, n, front, delivered);
      } else if last.tick < n {
        ReadIsPicked(log, n - 1, delivered);
      } else {
        ReadIsPicked(log, n - 1, front);
        PickedSame(log, n - 1, front, delivered);
        GotLast(delivered);
        LastFrameReads(log, n, last);
      }
    }
  }

  lemma {:induction false} LastFrameReads(log: seq<Frame>, n: nat, last: Sessions.Message)
    requires 1 <= n <= |log| && LogReads(log) && last.StateFrame? && last.text == log[n - 1].text
    ensures PointsIn(last.text) == if log[n - 1].moving then TrailsFor(log[n - 1].points, Exact) else []
  {
    hide PointsIn, TimesPrint, TrailsFor, Exact;
    assert FrameReads(log[n - 1]);
  }

  /** The frames before the last one, and where the last one comes from. */
  lemma ReceivedFront(log: seq<Frame>, n: nat, delivered: seq<Sessions.Message>)
    requires Received(log, n, delivered) && delivered != []
    ensures var front, last := delivered[..|delivered| - 1], delivered[|delivered| - 1];
      if !last.StateFrame? then Received(log, n, front)
      else && 1 <= last.tick <= n <= |log| && last.text == log[last.tick - 1].text
           && (last.tick == n ==> Received(log, n - 1, front))
           && (last.tick < n ==> Received(log, n - 1, delivered) && !Got(delivered, n))
  {
  }

  lemma GotLast(delivered: seq<Sessions.Message>)
    requires delivered != [] && delivered[|delivered| - 1].StateFrame?
    ensures Got(delivered, delivered[|delivered| - 1].tick)
  {
  }

  lemma {:induction false} GotFront(delivered: seq<Sessions.Message>)
    requires delivered != []
    ensures var last := delivered[|delivered| - 1];
      forall t: nat :: (last.StateFrame? ==> t != last.tick) ==>
        (Got(delivered[..|delivered| - 1], t) <==> Got(delivered, t))
  {
    var front := delivered[..|delivered| - 1];
    forall t: nat | Got(front, t)
      ensures Got(delivered, t)
    {
      var i :| 0 <= i < |front| && front[i].StateFrame? && front[i].tick == t;
      assert delivered[i] == front[i];
    }
    forall t: nat | Got(delivered, t)
      ensures Got(front, t) || (delivered[|front|].StateFrame? && t == delivered[|front|].tick)
    {
      var i :| 0 <= i < |delivered| && delivered[i].StateFrame? && delivered[i].tick == t;
      if i < |front| {
        assert front[i] == delivered[i];
      }
    }
  }

  // ----- in order, and all of it exactly when nothing was missed -----

  /** `a` is what is left of `b` when some elements are taken out. */
  predicate Sublist(a: seq<ClientTrailPoint>, b: seq<ClientTrailPoint>)
    decreases |b|
  {
    a == [] || (b != [] &&
      ((a[|a| - 1] == b[|b| - 1] && Sublist(a[..|a| - 1], b[..|b| - 1])) || Sublist(a, b[..|b| - 1])))
  }

  lemma {:induction false} SublistSkips(a: seq<ClientTrailPoint>, b: seq<ClientTrailPoint>, c: seq<ClientTrailPoint>)
    requires Sublist(a, b)
    ensures Sublist(a, b + c)
    decreases |c|
  {
    if c == [] {
      assert b + c == b;
    } else {
      SublistSkips(a, b, c[..|c| - 1]);
      assert (b + c)[..|b + c| - 1] == b + c[..|c| - 1];
    }
  }

  lemma {:induction false} SublistKeeps(a: seq<ClientTrailPoint>, b: seq<ClientTrailPoint>, c: seq<ClientTrailPoint>)
    requires Sublist(a, b)
    ensures Sublist(a + c, b + c)
    decreases |c|
  {
    if c == [] {
      assert b + c == b && a + c == a;
    } else {
      SublistKeeps(a, b, c[..|c| - 1]);
      assert (b + c)[..|b + c| - 1] == b + c[..|c| - 1];
      assert (a + c)[..|a + c| - 1] == a + c[..|c| - 1];
    }
  }

  lemma {:induction false} SublistLength(a: seq<ClientTrailPoint>, b: seq<ClientTrailPoint>)
    requires Sublist(a, b)
    ensures |a| <= |b|
    decreases |b|
  {
    if a != [] {
      if a[|a| - 1] == b[|b| - 1] && Sublist(a[..|a| - 1], b[..|b| - 1]) {
        SublistLength(a[..|a| - 1], b[..|b| - 1]);
      } else {
        SublistLength(a, b[..|b| - 1]);
      }
    }
  }

  lemma {:induction false} SublistMember(a: seq<ClientTrailPoint>, b: seq<ClientTrailPoint>, i: nat)
    requires Sublist(a, b) && i < |a|
    ensures exists j :: 0 <= j < |b| && b[j] == a[i]
    decreases |b|
  {
    var m, n := |a| - 1, |b| - 1;
    if a[m] == b[n] && Sublist(a[..m], b[..n]) {
      if i < m {
        SublistMember(a[..m], b[..n], i);
        var j :| 0 <= j < n && b[..n][j] == a[..m][i];
        assert b[j] == a[i];
      }
    } else {
      SublistMember(a, b[..n], i);
      var j :| 0 <= j < n && b[..n][j] == a[i];
      assert b[j] == a[i];
    }
  }

  /** Taking out the points of one id keeps a sublist one. */
  lemma {:induction false} SublistPerId(a: seq<ClientTrailPoint>, b: seq<ClientTrailPoint>, id: u32)
    requires Sublist(a, b)
    ensures Sublist(SeenFor(a, id), SeenFor(b, id))
    decreases |b|
  {
    if a != [] {
      var m, n := |a| - 1, |b| - 1;
      var more := if HasId(b[n], id) then [b[n]] else [];
      if a[m] == b[n] && Sublist(a[..m], b[..n]) {
        SublistPerId(a[..m], b[..n], id);
        SublistKeeps(SeenFor(a[..m], id), SeenFor(b[..n], id), more);
      } else {
        SublistPerId(a, b[..n], id);
        SublistSkips(SeenFor(a, id), SeenFor(b[..n], id), more);
      }
    }
  }

  /** Per id the printed times never run backwards. */
  predicate NeverBack(points: seq<ClientTrailPoint>) {
    forall i, j :: 0 <= i < j < |points| && points[i].id == points[j].id ==>
      RealOf(points[i].t) <= RealOf(points[j].t)
  }

  lemma {:induction false} SublistNeverBack(a: seq<ClientTrailPoint>, b: seq<ClientTrailPoint>)
    requires Sublist(a, b) && NeverBack(b)
    ensures NeverBack(a)
    decreases |b|
  {
    hide RealOf;
    if a != [] {
      var m, n := |a| - 1, |b| - 1;
      if a[m] == b[n] && Sublist(a[..m], b[..n]) {
        SublistNeverBack(a[..m], b[..n]);
        forall i | 0 <= i < m && a[i].id == a[m].id
          ensures RealOf(a[i].t) <= RealOf(a[m].t)
        {
          SublistMember(a[..m], b[..n], i);
          var j :| 0 <= j < n && b[..n][j] == a[..m][i];
          assert b[j] == a[i];
        }
        forall i, j | 0 <= i < j < |a| && a[i].id == a[j].id
          ensures RealOf(a[i].t) <= RealOf(a[j].t)
        {
          if j < m {
            assert a[..m][i] == a[i] && a[..m][j] == a[j];
          }
        }
      } else {
        SublistNeverBack(a, b[..n]);
      }
    }
  }

  /** The reported points in order print in order. */
  lemma {:induction false} ReportedNeverBack(points: seq<TrailPoint>)
    requires Forward(points) && AllTrailDecoded(points)
    ensures NeverBack(TrailsFor(points, Exact))
  {
    hide Key, Shown64, RealOf, Exact;
    var seen := TrailsFor(points, Exact);
    forall i, j | 0 <= i < j < |seen| && seen[i].id == seen[j].id
      ensures RealOf(seen[i].t) <= RealOf(seen[j].t)
    {
      assert Key(points[i].t) < Key(points[j].t);
      assert DecodedTrail(points[i]) && DecodedTrail(points[j]);
      TimesReadInOrder(points[i].t, points[j].t);
    }
  }

  lemma {:induction false} PickedSublist(log: seq<Frame>, n: nat, delivered: seq<Sessions.Message>)
    requires n <= |log|
    ensures Sublist(Picked(log, n, delivered), TrailsFor(AllPoints(log[..n]), Exact))
  {
    hide Got, Exact, TrailsFor, Sublist;
    if n > 0 {
      var a, points := Picked(log, n - 1, delivered), log[n - 1].points;
      PickedSublist(log, n - 1, delivered);
      assert log[..n][..n - 1] == log[..n - 1];
      TrailsForAppend(AllPoints(log[..n - 1]), points);
      var b, c := TrailsFor(AllPoints(log[..n - 1]), Exact), TrailsFor(points, Exact);
      SublistTakes(a, b, c, Got(delivered, n) && log[n - 1].moving);
    } else {
      NothingIsSublist(TrailsFor(AllPoints(log[..n]), Exact));
    }
  }

  lemma NothingIsSublist(b: seq<ClientTrailPoint>)
    ensures Sublist([], b)
  {
  }

  lemma {:induction false} SublistTakes(a: seq<ClientTrailPoint>, b: seq<ClientTrailPoint>, c: seq<ClientTrailPoint>,
                                        taken: bool)
    requires Sublist(a, b)
    ensures Sublist(a + (if taken then c else []), b + c)
  {
    if taken {
      SublistKeeps(a, b, c);
    } else {
      SublistSkips(a, b, c);
      assert a + [] == a;
    }
  }

  /** Nothing was missed: every tick that carried points reached the client in a frame it can read. */
  ghost predicate MissedNothing(log: seq<Frame>, n: nat, delivered: seq<Sessions.Message>)
    requires n <= |log|
  {
    forall i :: 0 <= i < n && log[i].points != [] ==> Got(delivered, i + 1) && log[i].moving
  }

  lemma {:induction false} PickedAllIff(log: seq<Frame>, n: nat, delivered: seq<Sessions.Message>)
    requires n <= |log|
    ensures Picked(log, n, delivered) == TrailsFor(AllPoints(log[..n]), Exact) <==> MissedNothing(log, n, delivered)
  {
    hide Got, Exact, TrailFor, MissedNothing;
    if n > 0 {
      var a, points := Picked(log, n - 1, delivered), log[n - 1].points;
      assert log[..n][..n - 1] == log[..n - 1];
      TrailsForAppend(AllPoints(log[..n - 1]), points);
      var b, c := TrailsFor(AllPoints(log[..n - 1]), Exact), TrailsFor(points, Exact);
      PickedAllIff(log, n - 1, delivered);
      PickedSublist(log, n - 1, delivered);
      SublistLength(a, b);
      MissedOneMore(log, n, delivered);
      JoinedAllIff(a, b, c, Got(delivered, n) && log[n - 1].moving);
    } else {
      assert MissedNothing(log, 0, delivered) by { MissedNone(log, delivered); }
    }
  }

  lemma MissedNone(log: seq<Frame>, delivered: seq<Sessions.Message>)
    ensures MissedNothing(log, 0, delivered)
  {
  }

  lemma MissedOneMore(log: seq<Frame>, n: nat, delivered: seq<Sessions.Message>)
    requires 0 < n <= |log|
    ensures MissedNothing(log, n, delivered) <==>
      MissedNothing(log, n - 1, delivered) && (log[n - 1].points != [] ==> Got(delivered, n) && log[n - 1].moving)
  {
    hide Got;
  }

  lemma {:induction false} JoinedAllIff(a: seq<ClientTrailPoint>, b: seq<ClientTrailPoint>, c: seq<ClientTrailPoint>,
                                        taken: bool)
    requires |a| <= |b|
    ensures a + (if taken then c else []) == b + c <==> a == b && (c == [] || taken)
  {
    var d := if taken then c else [];
    if a + d == b + c {
      assert |d| == |c| + (|b| - |a|);
      assert a == (a + d)[..|a|] && b == (b + c)[..|b|];
    }
  }

  // ----- the theorems -----

  lemma {:induction false} PointsPrint(log: seq<Frame>, i: nat)
    requires i < |log| && TimesPrint(AllPoints(log))
    ensures TimesPrint(log[i].points)
    decreases |log|
  {
    hide TimesPrint;
    var k := |log| - 1;
    TimesPrintAppend(AllPoints(log[..k]), log[k].points);
    if i < k {
      PointsPrint(log[..k], i);
    }
  }

  lemma {:induction false} PointsDecoded(log: seq<Frame>)
    requires forall i :: 0 <= i < |log| ==> AllTrailDecoded(log[i].points)
    ensures AllTrailDecoded(AllPoints(log))
  {
    hide DecodedTrail;
    if log != [] {
      PointsDecoded(log[..|log| - 1]);
      assert AllTrailDecoded(log[|log| - 1].points);
    }
  }

  /** What a client has received is frames of the log with increasing numbers. */
  lemma {:induction false} ClientReceived(v: Sessions.Server, log: seq<Frame>, client: int)
    requires ServerMatches(v, log) && client in v.sessions
    ensures Received(log, |log|, v.sessions[client].delivered)
  {
    hide Sessions.QueueOk, Sessions.WaitingRecent, Sessions.HeadKept;
    var s := v.sessions[client];
    Sessions.DeliveredInOrder(s, v.tick);
    forall i | 0 <= i < |s.delivered|
      ensures s.delivered[i] == s.sent[s.deliveredAt[i]]
    {
    }
    assert Sessions.ClientView(s.delivered);
    assert forall i :: 0 < i < |s.delivered| ==> s.delivered[i].StateFrame?;
  }

  /** In every run, for every client, however many frames its outbox shed and however late it came: per id, what it
      reads is the reported points with some taken out, its times never run backwards, and it reads all of them
      exactly when every tick that carried points reached it with a finite satellite velocity. */
  lemma {:induction false} ClientReads(states: seq<Joint>, steps: seq<Step>, iso: int -> string, n: nat, client: int,
                                       id: u32)
    requires IsJointRun(states, steps, iso) && n <= |steps| < TWO64 && PlainClock(iso) && states[0].sys.receiver.Olv2?
    requires client in states[n].server.sessions && TimesPrint(states[n].sys.reported)
    ensures var delivered, log := states[n].server.sessions[client].delivered, states[n].log;
      var read, all := Read(delivered), TrailsFor(states[n].sys.reported, Exact);
      && Sublist(SeenFor(read, id), SeenFor(all, id)) && NeverBack(read)
      && (read == all <==> MissedNothing(log, |log|, delivered))
  {
    hide JointNext, StepEnabled, Next, Enabled, ServerMatches, PlainClock, Starts, TimesPrint, FrameReads, PointsIn;
    hide AllTrailDecoded, Received, Sublist, NeverBack, MissedNothing, Exact, TrailFor, Read, SeenFor, Key, Forward;
    var j := states[n];
    var log, delivered := j.log, j.server.sessions[client].delivered;
    LogHolds(states, steps, iso, n);
    assert LogReads(log) by {
      forall i | 0 <= i < |log|
        ensures FrameReads(log[i]) && TimesPrint(log[i].points)
      {
        PointsPrint(log, i);
      }
    }
    ClientReceived(j.server, log, client);
    ReadIsPicked(log, |log|, delivered);
    assert log[..|log|] == log;
    PickedSublist(log, |log|, delivered);
    PickedAllIff(log, |log|, delivered);
    var read, all := Read(delivered), TrailsFor(j.sys.reported, Exact);
    SublistPerId(read, all, id);
    Projects(states, steps, iso, n);
    ReportedForward(states, steps, iso, n);
    PointsDecoded(log);
    ReportedNeverBack(j.sys.reported);
    SublistNeverBack(read, all);
  }

  lemma {:induction false} ReportedForward(states: seq<Joint>, steps: seq<Step>, iso: int -> string, n: nat)
    requires IsJointRun(states, steps, iso) && n <= |steps| && states[0].sys.receiver.Olv2?
    ensures Forward(states[n].sys.reported)
  {
    hide JointNext, StepEnabled, Next, Enabled, Starts, Forward;
    Projects(states, steps, iso, n);
    var run, actions := Systems(states, steps, n), Actions(states, steps, n);
    TrailsMoveForward(run, actions, |actions|);
  }

  /** Frames show a finite velocity when the store always holds one. */
  lemma {:induction false} AlwaysMoving(states: seq<Joint>, steps: seq<Step>, iso: int -> string, n: nat)
    requires IsJointRun(states, steps, iso) && n <= |steps|
    requires forall k :: 0 <= k <= n ==> VelocityFinite(states[k].sys.store)
    ensures forall i :: 0 <= i < |states[n].log| ==> states[n].log[i].moving
  {
    hide Next, Enabled, Sessions.Next, Sessions.Enabled, Starts, FrameText, VelocityFinite;
    if n > 0 {
      AlwaysMoving(states, steps, iso, n - 1);
      assert VelocityFinite(states[n - 1].sys.store);
    }
  }

  /** The receiving process of a joint run is given the datagrams of the simulator, in order and without loss, and
      its queue does not overflow; at the end nothing waits in it. */
  ghost predicate Lossless(states: seq<Joint>, steps: seq<Step>, s: Sender)
    requires |states| == |steps| + 1
  {
    var run, actions := Systems(states, steps, |steps|), Actions(states, steps, |steps|);
    && IsRun(run, actions) && NoOverflow(run, actions)
    && Delivered(actions) == Each(s.packets, Olv2Codec.Encode)
    && states[|steps|].sys.inflight.None? && states[|steps|].sys.store.pending == []
  }

  /** What is reported in such a run is what was flushed, its times print, and all frames show a finite velocity. */
  lemma {:induction false} LosslessReports(size: nat, sequence: u32, xs: seq<Sample>, s: Sender, states: seq<Joint>,
                                           steps: seq<Step>, iso: int -> string, id: u32)
    requires 1 <= size <= Olv2Codec.MAX_POINTS && GoodRun(xs)
    requires s == SendAll(size, sequence, xs) || s == Finish(SendAll(size, sequence, xs))
    requires IsJointRun(states, steps, iso) && states[0].sys.receiver.Olv2? && Lossless(states, steps, s)
    requires forall i :: 0 <= i < |s.flushed| ==> TimePrints(s.flushed[i].t)
    ensures var j := states[|steps|];
      && TimesPrint(j.sys.reported) && ForId(j.sys.reported, id) == Sightings(s.flushed, id)
      && forall i :: 0 <= i < |j.log| ==> j.log[i].moving
  {
    hide GoodRun, SendAll, Finish, JointNext, StepEnabled, NoOverflow, ForId, Sightings, Delivered, Next, Enabled;
    hide TimePrints, TimesPrint, Each, VelocityFinite, Starts;
    var n := |steps|;
    Projects(states, steps, iso, n);
    var run, actions := Systems(states, steps, n), Actions(states, steps, n);
    ReportedPrintWhole(size, sequence, xs, s, run, actions);
    ExactlyOnce(size, sequence, xs, s, run, actions, id);
    forall k | 0 <= k <= n
      ensures VelocityFinite(states[k].sys.store)
    {
      SystemsPrefix(states, steps, iso, k, n);
      SentVelocityStays(size, sequence, xs, s, run, actions, |Actions(states, steps, k)|);
    }
    AlwaysMoving(states, steps, iso, n);
  }
}
