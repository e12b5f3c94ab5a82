/** A client that writes nothing while five ticks pass loses the points of the first one, for good. */
module SlowClient {
  import opened Records
  import opened Store
  import opened StateMessage
  import opened ClientMessage
  import opened Pipeline
  import opened Broadcasts
  import opened SpoilingInputs
  import opened Delivery
  import opened Shedding
  import Olv2Codec
  import Olv2Source
  import Sessions

  /** What is received, and when. */
  datatype Setting = Setting(pkt: Olv2Codec.TrackPacket, estimate: Olv2Source.Estimator, expiry: int, wall: int,
                             mono: int, iso: int -> string)

  ghost predicate Accepts(x: Setting) {
    && Olv2Codec.Decode(Olv2Codec.Encode(x.pkt)) == Ok(x.pkt)
    && 1 <= |x.pkt.points| <= Olv2Codec.MAX_POINTS
  }

  function Receiving(x: Setting): (run: seq<System>)
    ensures |run| == 3
  {
    Olv2Run(x.pkt, x.estimate, x.expiry, x.wall, x.mono)
  }

  const IDLE: Sessions.Server := Sessions.Server(0, map[], {}, false)

  function Greeted(): Sessions.Server {
    Sessions.Next(IDLE, Sessions.Accepted(0))
  }

  /** The state after the client was accepted, the datagram received, and `k` ticks with no write completed. */
  function Stalled(x: Setting, k: nat): Joint {
    if k == 0 then Joint(Receiving(x)[2], Greeted(), [])
    else JointNext(Stalled(x, k - 1), TimerTick(x.mono, x.wall), x.iso)
  }

  function StalledStates(x: Setting): seq<Joint> {
    [Joint(Receiving(x)[0], IDLE, []), Joint(Receiving(x)[0], Greeted(), []), Joint(Receiving(x)[1], Greeted(), []),
     Stalled(x, 0), Stalled(x, 1), Stalled(x, 2), Stalled(x, 3), Stalled(x, 4), Stalled(x, 5)]
  }

  function StalledSteps(x: Setting): seq<Step> {
    var tick := TimerTick(x.mono, x.wall);
    [Net(Sessions.Accepted(0)), Input(Arrive(Olv2Codec.Encode(x.pkt))), Input(Settle(x.wall, x.mono)),
     tick, tick, tick, tick, tick]
  }

  lemma {:induction false} StalledIsRun(x: Setting)
    requires Accepts(x)
    ensures IsJointRun(StalledStates(x), StalledSteps(x), x.iso)
    ensures StalledStates(x)[0].sys.receiver.Olv2?
  {
    hide Olv2Codec.Decode, Olv2Codec.Encode, Next, Enabled, Starts, Sessions.Next, Olv2Run, TickFrame;
    AcceptedOnItsOwn(x.pkt, x.estimate, x.expiry, x.wall, x.mono);
    var run, actions := Receiving(x), [Arrive(Olv2Codec.Encode(x.pkt)), Settle(x.wall, x.mono)];
    assert Enabled(run[0], actions[0]) && run[1] == Next(run[0], actions[0]);
    assert Enabled(run[1], actions[1]) && run[2] == Next(run[1], actions[1]);
  }

  /** Up to five messages are queued, the first tick's frame second, and that frame drained all points. */
  lemma {:induction false} StalledQueue(x: Setting, k: nat)
    requires Accepts(x) && k <= 4
    ensures var v, log := Stalled(x, k).server, Stalled(x, k).log;
      && !v.stopped && v.registered == {0} && 0 in v.sessions && v.tick == k == |log|
      && (k > 0 ==> log[0].points == Olv2Source.TrailOf(x.pkt))
      && var s := v.sessions[0];
         && !s.closed && s.writing && |s.outbox| == k + 1
         && (k > 0 ==> s.outbox[1].StateFrame? && s.outbox[1].tick == 1)
  {
    hide Olv2Codec.Decode, Olv2Codec.Encode, Next, FrameText, VelocityFinite, Sessions.AfterSend, Olv2Run;
    if k == 0 {
      GreetingQueued();
    } else {
      StalledQueue(x, k - 1);
      var s := Stalled(x, k - 1).server.sessions[0];
      var f := TickFrame(Stalled(x, k - 1), x.mono, x.wall, x.iso);
      StaysWriting(s, Sessions.StateFrame(k, f.text));
      if k == 1 {
        AcceptedOnItsOwn(x.pkt, x.estimate, x.expiry, x.wall, x.mono);
      }
    }
  }

  lemma {:induction false} GreetingQueued()
    ensures var s := Sessions.AfterSend(Sessions.NewSession(), Sessions.Hello);
      !s.closed && s.writing && s.outbox == [Sessions.Hello]
  {
    Sessions.ShedOne([Sessions.Hello], 0);
    assert [] + [Sessions.Hello] == [Sessions.Hello];
  }

  lemma {:induction false} StaysWriting(s: Sessions.Session, m: Sessions.Message)
    requires !s.closed && s.writing && 1 <= |s.outbox| < Sessions.MAX_QUEUED_FRAMES
    ensures var t := Sessions.AfterSend(s, m); !t.closed && t.writing && t.outbox == s.outbox + [m]
  {
    Sessions.ShedOne(s.outbox + [m], 1);
  }

  /** The fifth tick finds the outbox full and sheds the frame of the first. */
  lemma {:induction false} FirstTickIsShed(x: Setting)
    requires Accepts(x)
    ensures 1 in ShedTicks(StalledStates(x), StalledSteps(x), 0, 8)
    ensures |StalledStates(x)[8].log| > 0 && StalledStates(x)[8].log[0].points == Olv2Source.TrailOf(x.pkt)
    ensures 0 in StalledStates(x)[8].server.sessions
  {
    hide Stalled, StalledStates, StalledSteps, ShedTicks, StepSheds, IsJointRun;
    StalledEnds(x);
    StalledLengths(x);
    FifthTickSheds(x);
    StalledQueue(x, 4);
    StalledIsRun(x);
    LastShed(StalledStates(x), StalledSteps(x), 0, 8);
    LogGrows(StalledStates(x), StalledSteps(x), x.iso, 7, 8);
    SessionsStay(StalledStates(x), StalledSteps(x), x.iso, 7, 8, 0);
  }

  lemma StalledEnds(x: Setting)
    ensures StalledStates(x)[7] == Stalled(x, 4) && StalledSteps(x)[7] == TimerTick(x.mono, x.wall)
  {
    hide Stalled, Receiving, Greeted;
  }

  lemma {:induction false} FifthTickSheds(x: Setting)
    requires Accepts(x)
    ensures StepSheds(Stalled(x, 4), TimerTick(x.mono, x.wall), 0) == {1}
  {
    hide Stalled, Accepts;
    StalledQueue(x, 4);
  }

  lemma LastShed(states: seq<Joint>, steps: seq<Step>, client: int, n: nat)
    requires 0 < n <= |steps| <= |states|
    ensures StepSheds(states[n - 1], steps[n - 1], client) <= ShedTicks(states, steps, client, n)
  {
  }

  /** The first `n` steps alone decide what they shed. */
  lemma {:induction false} ShedPrefix(states: seq<Joint>, steps: seq<Step>, states': seq<Joint>, steps': seq<Step>,
                                      client: int, n: nat)
    requires n <= |steps| < |states| && n <= |steps'| < |states'|
    requires forall i :: 0 <= i < n ==> states[i] == states'[i] && steps[i] == steps'[i]
    ensures ShedTicks(states, steps, client, n) == ShedTicks(states', steps', client, n)
  {
    hide StepSheds;
    if n > 0 {
      ShedPrefix(states, steps, states', steps', client, n - 1);
    }
  }

  /** For every accepted OLV2 datagram there is a run that loses it: five ticks without a completed write, and
      however the run goes on the client is never delivered the frame that carried its points. */
  lemma {:induction false} SlowClientLosesPoints(x: Setting, states: seq<Joint>, steps: seq<Step>, n: nat)
    requires Accepts(x) && IsJointRun(states, steps, x.iso) && 8 <= n <= |steps|
    requires states[..9] == StalledStates(x) && steps[..8] == StalledSteps(x)
    ensures IsJointRun(StalledStates(x), StalledSteps(x), x.iso)
    ensures |states[n].log| > 0 && states[n].log[0].points == Olv2Source.TrailOf(x.pkt) != []
    ensures 0 in states[n].server.sessions
      && !Got(states[n].server.sessions[0].delivered, 1)
      && (!states[n].server.sessions[0].closed && |steps| < TWO64 && PlainClock(x.iso)
          && TimesPrint(states[n].sys.reported) ==>
            Read(states[n].server.sessions[0].delivered) != TrailsFor(states[n].sys.reported, Exact))
  {
    hide IsJointRun, StalledStates, StalledSteps, Got, ShedTicks, Accepts, Read, TrailsFor, PlainClock, TimesPrint;
    RunShape(states, steps, x.iso);
    StalledIsRun(x);
    RunShape(StalledStates(x), StalledSteps(x), x.iso);
    FirstTickIsShed(x);
    StalledLengths(x);
    forall i | 0 <= i < 8
      ensures states[i] == StalledStates(x)[i] && steps[i] == StalledSteps(x)[i]
    {
      assert states[i] == states[..9][i] && steps[i] == steps[..8][i];
    }
    ShedPrefix(states, steps, StalledStates(x), StalledSteps(x), 0, 8);
    assert states[8] == states[..9][8];
    LogGrows(states, steps, x.iso, 8, n);
    SessionsStay(states, steps, x.iso, 8, n, 0);
    ShedIsLost(states, steps, x.iso, 8, n, 0, 1);
    ShedStays(states, steps, 0, 8, n);
    if !states[n].server.sessions[0].closed && |steps| < TWO64 && PlainClock(x.iso)
       && TimesPrint(states[n].sys.reported) {
      assert states[0] == states[..9][0];
      ReadsAllIff(states, steps, x.iso, n, 0);
      assert 0 + 1 in ShedTicks(states, steps, 0, n);
    }
  }

  lemma StalledLengths(x: Setting)
    requires Accepts(x)
    ensures |StalledStates(x)| == 9 && |StalledSteps(x)| == 8 && Olv2Source.TrailOf(x.pkt) != []
  {
    hide Stalled, Receiving;
  }
}
