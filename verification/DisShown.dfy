/** What a DIS run shows of its PDUs: the satellite, the last data time, and what a row says of its entity. */
module DisShown {
  import opened ByteNumbers
  import opened Bytes
  import opened Records
  import opened Store
  import opened Pipeline
  import opened DisIds
  import opened DisWire
  import opened DisSource
  import opened ClientMessage

  // ----- one row -----

  /** What the viewer is told an entity of this kind and domain is. */
  predicate ShownAs(kind: byte, domain: byte, category: string) {
    if kind == 0 then category == if domain == 5 then "debris" else "unknown"
    else if kind == 1 then
      category == if domain == 5 then "satellite" else if domain == 1 then "groundHot" else "unknown"
    else if kind == 2 then category == "comet"
    else if kind == 3 then category == if domain == 1 then "groundHot" else "unknown"
    else category == "unknown"
  }

  /** A row says where its entity is, how it moves, and what it is; it always carries a velocity. */
  lemma RecordShows(e: EntityState)
    ensures var o := RecordOf(e);
      && o.id == Fold(e.id) && o.pos == e.pos && o.vel == e.vel && HasVelocity(o) && o.flags == 1
      && o.confidence == 100 && o.intensity == 0 && ShownAs(e.kind, e.domain, CategoryName(o.kind as int))
  {
    hide Fold;
  }

  // ----- the satellite -----

  /** An accepted PDU and the wall time it was merged at. */
  datatype Heard = Heard(e: EntityState, wall: int)

  /** The PDUs accepted in the first `n` steps, the satellite's among them. */
  ghost function AllHeard(states: seq<System>, actions: seq<Action>, n: nat): seq<Heard>
    requires IsRun(states, actions) && n <= |actions|
  {
    if n == 0 then [] else AllHeard(states, actions, n - 1) + HeardIn(states[n - 1], actions[n - 1])
  }

  ghost function HeardIn(sys: System, a: Action): seq<Heard>
    requires Pipeline.Enabled(sys, a)
  {
    if !sys.receiver.Dis? || !a.Settle? then [] else
    var v := Judge(sys.receiver.cfg, sys.receiver.dis, sys.inflight.value);
    if v.Accepted? then [Heard(v.e, a.wall)] else []
  }

  /** The last PDU of an entity. */
  function LastOf(hs: seq<Heard>, id: EntityId): Option<EntityState> {
    if hs == [] then None else
    var last := hs[|hs| - 1].e;
    if last.id == id then Some(last) else LastOf(hs[..|hs| - 1], id)
  }

  /** The satellite of the last PDU of the configured entity, numbered by the PDUs accepted so far; all zero before
      its first. */
  ghost predicate SatelliteOf(sat: Satellite, hs: seq<Heard>, satellite: EntityId) {
    && sat.sequence == |hs| % TWO32
    && match LastOf(hs, satellite)
       case None => sat.id == 0 && sat.pos == ZERO_VEC64 && sat.vel == ZERO_VEC32
       case Some(e) => sat.id == Fold(satellite) && sat.pos == e.pos && sat.vel == e.vel
  }

  ghost predicate Holds(sys: System, hs: seq<Heard>) {
    && sys.receiver.Dis? && sys.receiver.dis.sequence == |hs| % TWO32
    && SatelliteOf(sys.receiver.dis.sat.(sequence := |hs| % TWO32), hs, sys.receiver.cfg.satellite)
    && (if hs == [] then sys.store.satellite == None && sys.store.lastDataTime == None
        else && sys.store.satellite.Some? && SatelliteOf(sys.store.satellite.value, hs, sys.receiver.cfg.satellite)
             && sys.store.lastDataTime == Some(hs[|hs| - 1].wall))
  }

  lemma {:induction false} LastOfPush(hs: seq<Heard>, h: Heard, id: EntityId)
    ensures LastOf(hs + [h], id) == if h.e.id == id then Some(h.e) else LastOf(hs, id)
  {
    assert (hs + [h])[..|hs|] == hs;
  }

  /** Merging an accepted PDU. */
  lemma {:induction false} MergedHolds(sys: System, wall: int, mono: int, e: EntityState, hs: seq<Heard>)
    requires sys.inflight.Some? && InStep(sys) && Holds(sys, hs)
    requires Judge(sys.receiver.cfg, sys.receiver.dis, sys.inflight.value) == Accepted(e)
    ensures Holds(Next(sys, Settle(wall, mono)), hs + [Heard(e, wall)])
    ensures Next(sys, Settle(wall, mono)).receiver.cfg == sys.receiver.cfg
  {
    hide Judge, Rejects, Upsert, Fold, Pack48, RecordOf, LastOf, Ticks;
    DisNeverRejected(sys);
    hide InStep;
    LastOfPush(hs, Heard(e, wall), sys.receiver.cfg.satellite);
    CountOn(|hs|);
  }

  lemma CountOn(n: nat)
    ensures (n % TWO32 + 1) % TWO32 == (n + 1) % TWO32
  {
  }

  lemma {:induction false} NextHolds(sys: System, a: Action, hs: seq<Heard>)
    requires Pipeline.Enabled(sys, a) && InStep(sys) && Holds(sys, hs)
    ensures Holds(Next(sys, a), hs + HeardIn(sys, a)) && Next(sys, a).receiver.cfg == sys.receiver.cfg
  {
    hide Judge, Fold, Pack48, DropExpired, DropOld, Rows, RecordOf, SatelliteOf, AfterApply;
    if a.Settle? && Judge(sys.receiver.cfg, sys.receiver.dis, sys.inflight.value).Accepted? {
      MergedHolds(sys, a.wall, a.mono, Judge(sys.receiver.cfg, sys.receiver.dis, sys.inflight.value).e, hs);
    } else {
      assert hs + [] == hs;
    }
  }

  lemma NothingHeard(sys: System)
    requires Starts(sys) && sys.receiver.Dis?
    ensures Holds(sys, [])
  {
  }

  /** What a snapshot of any DIS run shows: the satellite of the last accepted PDU of the configured entity, carried
      through all PDUs since, and the wall time of the last accepted PDU of any. */
  lemma {:induction false} SatelliteShowsHeard(states: seq<System>, actions: seq<Action>, n: nat)
    requires IsRun(states, actions) && Starts(states[0]) && states[0].receiver.Dis? && n <= |actions|
    ensures Holds(states[n], AllHeard(states, actions, n)) && states[n].receiver.cfg == states[0].receiver.cfg
    ensures forall m: int :: var snap, hs := SnapshotOf(states[n].store, m), AllHeard(states, actions, n);
      if hs == [] then snap.satellite == None && snap.lastDataTime == None
      else && snap.satellite.Some? && SatelliteOf(snap.satellite.value, hs, states[0].receiver.cfg.satellite)
           && snap.lastDataTime == Some(hs[|hs| - 1].wall)
  {
    hide Next, Pipeline.Enabled, HeardIn, SatelliteOf, Starts, InStep, Balanced, Rows, DropExpired, DropOld;
    if n == 0 {
      NothingHeard(states[0]);
    } else {
      SatelliteShowsHeard(states, actions, n - 1);
      AccountingHolds(states, actions, n - 1);
      NextHolds(states[n - 1], actions[n - 1], AllHeard(states, actions, n - 1));
    }
  }
}
