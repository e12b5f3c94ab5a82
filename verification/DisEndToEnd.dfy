/** From the simulator's DIS emitter to the rows a broadcast shows. */
module DisEndToEnd {
  import opened ByteNumbers
  import opened Bytes
  import opened Records
  import opened Collections
  import opened Frames
  import opened Store
  import opened Pipeline
  import opened DisIds
  import opened DisWire
  import opened DisSource
  import opened DisRows
  import opened DisBuilder
  import RunHistory
  import opened ClientMessage
  import H = StoreHistory

  function DatagramOf(e: Emission): bytes {
    Marshal(e.pdu)
  }

  /** The states emitted for objects, in order. */
  function ObjectStates(es: seq<Emission>, satellite: EntityId): seq<EntityState> {
    if es == [] then [] else
    var e := es[|es| - 1].pdu.e;
    ObjectStates(es[..|es| - 1], satellite) + if e.id == satellite then [] else [e]
  }

  function StateOf(h: Heard): EntityState {
    h.e
  }

  /** The receiver in its own run accepts every emission. */
  ghost predicate AllAccepted(rcfg: Config, es: seq<Emission>) {
    forall i :: 0 <= i < |es| ==>
      Judge(rcfg, After(rcfg, Fresh(), Each(es, DatagramOf)[..i]), DatagramOf(es[i])) == Accepted(es[i].pdu.e)
  }

  lemma {:induction false} AcceptedFront(rcfg: Config, es: seq<Emission>)
    requires AllAccepted(rcfg, es) && es != []
    ensures AllAccepted(rcfg, es[..|es| - 1])
  {
    hide Judge, After, DatagramOf;
    var front := es[..|es| - 1];
    forall i | 0 <= i < |front|
      ensures Judge(rcfg, After(rcfg, Fresh(), Each(front, DatagramOf)[..i]), DatagramOf(front[i]))
        == Accepted(front[i].pdu.e)
    {
      assert Each(front, DatagramOf)[..i] == Each(es, DatagramOf)[..i] && front[i] == es[i];
    }
  }

  /** In a run that settles accepted emissions, what is heard of objects is what was emitted for them, in order. */
  lemma {:induction false} HeardIsEmitted(states: seq<System>, actions: seq<Action>, n: nat, es: seq<Emission>)
    requires IsRun(states, actions) && Starts(states[0]) && states[0].receiver.Dis? && n <= |actions|
    requires Settled(states, actions, n) == Each(es, DatagramOf) && AllAccepted(states[0].receiver.cfg, es)
    ensures Each(Pdus(states, actions, n), StateOf) == ObjectStates(es, states[0].receiver.cfg.satellite)
  {
    hide Next, Pipeline.Enabled, Judge, After, DatagramOf, AllAccepted, Starts, ObjectStates, Settled, Pdus, PduOf;
    if n != 0 {
      var sys, a := states[n - 1], actions[n - 1];
      DisRun(states, actions, n - 1);
      DisNext(sys, a);
      OneMoreStep(states, actions, n);
      if a.Settle? {
        var rcfg := states[0].receiver.cfg;
        LastDatagram(Settled(states, actions, n - 1), sys.inflight.value, es);
        var front := es[..|es| - 1];
        AcceptedFront(rcfg, es);
        HeardIsEmitted(states, actions, n - 1, front);
        HeardLast(rcfg, es, sys, a);
        HeardOne(Pdus(states, actions, n - 1), PduOf(sys, a));
      } else {
        HeardIsEmitted(states, actions, n - 1, es);
      }
    } else {
      NothingHeard(states, actions, es);
    }
  }

  lemma OneMoreStep(states: seq<System>, actions: seq<Action>, n: nat)
    requires IsRun(states, actions) && states[0].receiver.Dis? && 0 < n <= |actions|
    requires actions[n - 1].Settle? ==> states[n - 1].inflight.Some?
    ensures var sys, a := states[n - 1], actions[n - 1];
      if a.Settle? then
        && Settled(states, actions, n) == Settled(states, actions, n - 1) + [sys.inflight.value]
        && Pdus(states, actions, n) == Pdus(states, actions, n - 1) + PduOf(sys, a)
      else
        && Settled(states, actions, n) == Settled(states, actions, n - 1)
        && Pdus(states, actions, n) == Pdus(states, actions, n - 1)
  {
    hide Next, Pipeline.Enabled, Judge;
  }

  lemma {:induction false} NothingHeard(states: seq<System>, actions: seq<Action>, es: seq<Emission>)
    requires IsRun(states, actions) && states[0].receiver.Dis? && Settled(states, actions, 0) == Each(es, DatagramOf)
    ensures Each(Pdus(states, actions, 0), StateOf) == ObjectStates(es, states[0].receiver.cfg.satellite)
  {
    hide Next, Pipeline.Enabled, DatagramOf;
    assert es == [];
  }

  lemma {:induction false} LastDatagram(ds: seq<bytes>, d: bytes, es: seq<Emission>)
    requires ds + [d] == Each(es, DatagramOf)
    ensures es != [] && ds == Each(es[..|es| - 1], DatagramOf) && d == DatagramOf(es[|es| - 1])
  {
    hide DatagramOf;
    assert ds == (ds + [d])[..|ds|] && d == (ds + [d])[|ds|];
  }

  /** Settling the last emission is hearing it, unless it is the satellite's. */
  lemma {:induction false} HeardLast(rcfg: Config, es: seq<Emission>, sys: System, a: Action)
    requires es != [] && AllAccepted(rcfg, es) && Pipeline.Enabled(sys, a) && a.Settle? && sys.inflight.Some?
    requires sys.receiver.Dis? && sys.receiver.cfg == rcfg && sys.inflight.value == DatagramOf(es[|es| - 1])
    requires sys.receiver.dis == After(rcfg, Fresh(), Each(es[..|es| - 1], DatagramOf))
    ensures ObjectStates(es, rcfg.satellite)
      == ObjectStates(es[..|es| - 1], rcfg.satellite) + Each(PduOf(sys, a), StateOf)
  {
    hide Judge, After, DatagramOf, AllAccepted, Pipeline.Enabled;
    var k := |es| - 1;
    assert Each(es, DatagramOf)[..k] == Each(es[..k], DatagramOf);
    LastAccepted(rcfg, es);
  }

  lemma LastAccepted(rcfg: Config, es: seq<Emission>)
    requires AllAccepted(rcfg, es) && es != []
    ensures var k := |es| - 1;
      Judge(rcfg, After(rcfg, Fresh(), Each(es, DatagramOf)[..k]), DatagramOf(es[k])) == Accepted(es[k].pdu.e)
  {
    hide Judge, After, DatagramOf;
  }

  lemma HeardOne(a: seq<Heard>, b: seq<Heard>)
    ensures Each(a + b, StateOf) == Each(a, StateOf) + Each(b, StateOf)
  {
  }

  // ----- which entities are emitted -----

  /** Every object id of a run has the same upper half. */
  ghost predicate OneApplication(run: seq<Instant>, app: u16) {
    forall i, k :: 0 <= i < |run| && 0 <= k < |run[i].frame.objects| ==>
      run[i].frame.objects[k].id / 0x1_0000 == app
  }

  lemma {:induction false} EmittedEntities(run: seq<Instant>, cfg: EmitConfig, app: u16, i: nat)
    requires OneApplication(run, app) && i < |Emissions(run, cfg)|
    ensures var id := Emissions(run, cfg)[i].pdu.e.id; id == cfg.satellite || (id.site == cfg.site && id.app == app)
  {
    hide HourTicks, EntityKind;
    var last := run[|run| - 1];
    HourTicksWrap(last.t);
    if i < |Emissions(run[..|run| - 1], cfg)| {
      EmittedEntities(run[..|run| - 1], cfg, app, i);
    }
  }

  predicate AtSite(states: seq<EntityState>, site: u16, app: u16) {
    forall i :: 0 <= i < |states| ==> states[i].id.site == site && states[i].id.app == app
  }

  lemma {:induction false} ObjectStatesSites(es: seq<Emission>, satellite: EntityId, site: u16, app: u16)
    requires forall i :: 0 <= i < |es| ==>
      var id := es[i].pdu.e.id; id == satellite || (id.site == site && id.app == app)
    ensures AtSite(ObjectStates(es, satellite), site, app)
  {
    if es != [] {
      ObjectStatesSites(es[..|es| - 1], satellite, site, app);
    }
  }

  // ----- the theorem -----

  lemma {:induction false} EmittedAllAccepted(run: seq<Instant>, cfg: EmitConfig, rcfg: Config)
    requires Steady(Emissions(run, cfg)) && (rcfg.exercise.Some? ==> rcfg.exercise.value == cfg.exercise)
    ensures AllAccepted(rcfg, Emissions(run, cfg))
  {
    hide Judge, After, Emissions, Steady, Marshal;
    var es := Emissions(run, cfg);
    forall i | 0 <= i < |es|
      ensures Judge(rcfg, After(rcfg, Fresh(), Each(es, DatagramOf)[..i]), DatagramOf(es[i])) == Accepted(es[i].pdu.e)
    {
      EmittedRunsAccepted(run, cfg, rcfg, Each(es, DatagramOf), i);
    }
  }

  /** From the DIS emitter to the broadcast: when the datagrams of a steady run are settled in order, whatever is
      broadcast in between, and no two of its objects share a folded id, every object PDU is heard, and a broadcast
      shows one row for each emitted entity whose last PDU has not expired, made from that PDU, and no other rows.
      The receiver must be told the satellite's entity. */
  lemma {:induction false} EmittedRunRows(run: seq<Instant>, cfg: EmitConfig, states: seq<System>, actions: seq<Action>,
                                          n: nat, expiry: int, m: int)
    requires Steady(Emissions(run, cfg)) && DistinctFolds(StateIds(ObjectStates(Emissions(run, cfg), cfg.satellite)))
    requires IsRun(states, actions) && Starts(states[0]) && states[0].store == Initial(expiry) && n <= |actions|
    requires states[0].receiver.Dis? && states[0].receiver.cfg.satellite == cfg.satellite
    requires var exercise := states[0].receiver.cfg.exercise; exercise.Some? ==> exercise.value == cfg.exercise
    requires Settled(states, actions, n) == Each(Emissions(run, cfg), DatagramOf)
    requires H.ClocksAdvance(RunHistory.Events(states, actions, n) + [H.Snap(m)])
    ensures var pdus, rows := Pdus(states, actions, n), SnapshotOf(states[n].store, m).objects;
      && Each(pdus, StateOf) == ObjectStates(Emissions(run, cfg), cfg.satellite)
      && (forall i, j :: 0 <= i < j < |rows| ==> rows[i].id < rows[j].id)
      && RowsMatch(rows, IdsOf(pdus), pdus, m, expiry)
  {
    hide Next, Pipeline.Enabled, Starts, Steady, Emissions, AllAccepted, DatagramOf, Settled, Pdus;
    hide RunHistory.Events, H.ClocksAdvance, RowsMatch, SnapshotOf, ObjectStates, Tracked, After, DistinctFolds;
    var rcfg, es, pdus := states[0].receiver.cfg, Emissions(run, cfg), Pdus(states, actions, n);
    EmittedAllAccepted(run, cfg, rcfg);
    HeardIsEmitted(states, actions, n, es);
    DisRun(states, actions, n);
    HeardIds(pdus);
    DistinctRows(states, actions, n, expiry, m);
  }

  function StateIds(states: seq<EntityState>): (ids: seq<EntityId>)
    ensures |ids| == |states| && forall i :: 0 <= i < |ids| ==> ids[i] == states[i].id
  {
    seq(|states|, i requires 0 <= i < |states| => states[i].id)
  }

  lemma HeardIds(pdus: seq<Heard>)
    ensures StateIds(Each(pdus, StateOf)) == IdsOf(pdus)
  {
  }

  /** Objects whose ids have one upper half never share a folded id. */
  lemma {:induction false} OneApplicationDistinct(run: seq<Instant>, cfg: EmitConfig, app: u16)
    requires OneApplication(run, app)
    ensures DistinctFolds(StateIds(ObjectStates(Emissions(run, cfg), cfg.satellite)))
  {
    hide Emissions, OneApplication, ObjectStates, DistinctFolds;
    var es := Emissions(run, cfg);
    forall i | 0 <= i < |es|
      ensures var id := es[i].pdu.e.id; id == cfg.satellite || (id.site == cfg.site && id.app == app)
    {
      EmittedEntities(run, cfg, app, i);
    }
    ObjectStatesSites(es, cfg.satellite, cfg.site, app);
    OneSiteDistinct(StateIds(ObjectStates(es, cfg.satellite)), cfg.site, app);
  }

  // ----- what the emitted PDUs show -----

  /** What a row made from an object's PDU shows: the object's place, motion and category, but for stars. */
  predicate ShowsObject(o: ObjectRecord, r: ObjectRecord, site: u16) {
    && o.id == Fold(EntityId(site, r.id / 0x1_0000, r.id % 0x1_0000)) && o.pos == r.pos && o.vel == r.vel
    && HasVelocity(o) && o.confidence == 100
    && CategoryName(o.kind as int) == if r.kind == 2 then "unknown" else CategoryName(r.kind as int)
  }

  /** A frame's PDUs, in order: the satellite under its configured entity, then each object; the receiver's rows of
      the objects show them. */
  lemma {:induction false} FramePdusShow(f: Frame, cfg: EmitConfig, t: real, i: nat)
    requires i <= |f.objects|
    ensures var pdus := FramePdus(f, cfg, t);
      && |pdus| == 1 + |f.objects| && pdus[i].exercise == cfg.exercise && pdus[i].timestamp == 2 * HourTicks(t)
      && (i == 0 ==> pdus[0].e.id == cfg.satellite && pdus[0].e.pos == f.sat.pos && pdus[0].e.vel == f.sat.vel
                     && CategoryName(RecordOf(pdus[0].e).kind as int) == "satellite")
      && (i > 0 ==> ShowsObject(RecordOf(pdus[i].e), f.objects[i - 1], cfg.site))
  {
    hide Fold, HourTicks, TrueTicks, CategoryName;
    HourTicksWrap(t);
    SatelliteCategory();
    if i > 0 {
      var r := f.objects[i - 1];
      assert FramePdus(f, cfg, t)[i].e == ObjectPdu(r, cfg, HourTicks(t) * 2).e;
      SameCategory(r.kind);
    }
  }

  lemma SatelliteCategory()
    ensures CategoryName(MapObjectType(1, 5) as int) == "satellite"
  {
  }

  lemma SameCategory(kind: byte)
    ensures var (k, domain) := EntityKind(kind);
      CategoryName(MapObjectType(k, domain) as int) == if kind == 2 then "unknown" else CategoryName(kind as int)
  {
  }
}
