/** Broadcasts in DIS mode, where nothing checks values. */
module DisBroadcasts {
  import opened Records
  import opened Json
  import opened Printf
  import opened Store
  import opened StateMessage
  import opened ClientMessage
  import opened SnapshotFits
  import opened SpoiledFrames
  import opened Pipeline
  import opened Broadcasts
  import DisIds
  import DisSource
  import DisWire

  // ----- exactly when a DIS broadcast is recovered -----

  /** Rows made from PDUs always carry a velocity and no intensity. */
  predicate FromPdu(o: ObjectRecord) {
    HasVelocity(o) && o.intensity == 0
  }

  predicate DisHolds(s: Store.State) {
    s.pending == [] && forall id :: id in s.objects ==> FromPdu(s.objects[id].obj)
  }

  lemma RecordIsFromPdu(e: DisWire.EntityState)
    ensures FromPdu(DisSource.RecordOf(e))
  {
    hide DisIds.Fold, DisSource.MapObjectType;
  }

  lemma {:induction false} UpsertFromPdus(objects: Table, records: seq<ObjectRecord>, mono: int)
    requires forall id :: id in objects ==> FromPdu(objects[id].obj)
    requires forall i :: 0 <= i < |records| ==> FromPdu(records[i])
    ensures forall id :: id in Upsert(objects, records, mono) ==> FromPdu(Upsert(objects, records, mono)[id].obj)
  {
    hide FromPdu;
    if records != [] {
      UpsertFromPdus(objects, records[..|records| - 1], mono);
    }
  }

  lemma {:induction false} NextKeepsDis(sys: System, a: Action)
    requires Enabled(sys, a) && sys.receiver.Dis? && DisHolds(sys.store)
    ensures DisHolds(Next(sys, a).store)
  {
    hide FromPdu, Rejects, Upsert, DropOld, Rows, DisSource.Judge, DisSource.RecordOf, DisSource.AfterDatagram;
    if a.Settle? {
      var d := sys.inflight.value;
      var v := DisSource.Judge(sys.receiver.cfg, sys.receiver.dis, d);
      if v.Accepted? {
        RecordIsFromPdu(v.e);
        var pkt := DisSource.PacketOf(sys.receiver.cfg,
                                      DisSource.AfterDatagram(sys.receiver.cfg, sys.receiver.dis, d), v.e);
        UpsertFromPdus(sys.store.objects, pkt.objects, a.mono);
      }
    }
  }

  lemma {:induction false} RunsStayDis(states: seq<System>, actions: seq<Action>, k: nat)
    requires IsRun(states, actions) && Starts(states[0]) && k <= |actions| && states[0].receiver.Dis?
    ensures DisHolds(states[k].store) && states[k].receiver.Dis?
  {
    hide Next, Enabled, FromPdu;
    ModeStays(states, actions, k);
    if k != 0 {
      hide Starts, DisHolds;
      RunsStayDis(states, actions, k - 1);
      NextKeepsDis(states[k - 1], actions[k - 1]);
    }
  }

  /** The stored values that a broadcast at `mono` shows can all be printed. */
  predicate StoredPrint(s: Store.State, mono: int) {
    && (s.satellite.Some? ==> SatellitePrints(s.satellite.value))
    && (forall id :: id in s.objects && mono - s.objects[id].lastUpdate <= s.expiry ==>
          PositionPrints(s.objects[id].obj.pos) && FiniteVec32(s.objects[id].obj.vel))
  }

  /** In a DIS run, whatever arrives, the viewer recovers a broadcast exactly when the satellite and every record
      that has not expired have finite velocities and positions that print whole. */
  lemma {:induction false} DisBroadcastsAreRecoveredIff(states: seq<System>, actions: seq<Action>, k: nat, mono: int,
                                                        b: Broadcast)
    requires IsRun(states, actions) && Starts(states[0]) && k <= |actions| && states[0].receiver.Dis?
    requires GoodBroadcast(b) && |actions| < TWO64
    ensures ParseStateMessage(BroadcastText(states[k], mono, b)) == Ok(Faithful(SnapshotOf(states[k].store, mono), b))
      <==> StoredPrint(states[k].store, mono)
  {
    hide Next, Enabled, Starts, GoodBroadcast, Faithful, ParseStateMessage, StateTree, Print, Survives, ShownRate;
    hide ValuesPrint, StoredPrint, DisHolds;
    RunsStayDis(states, actions, k);
    AcceptsAreSteps(states, actions, k);
    RateReadsBack(states[k].store, mono);
    RecoveredIffPrints(SnapshotOf(states[k].store, mono), b);
    PrintsIffStored(states[k].store, mono);
  }

  lemma {:induction false} PrintsIffStored(s: Store.State, mono: int)
    requires DisHolds(s)
    ensures ValuesPrint(SnapshotOf(s, mono)) <==> StoredPrint(s, mono)
  {
    hide DropExpired, DropOld, SatellitePrints, PositionPrints, FiniteVec32, FromPdu, Rows;
    RowsAreStored(s, mono, RowPrints);
    hide RowPrints;
    forall id | id in s.objects
      ensures var o := s.objects[id].obj; RowPrints(o) <==> PositionPrints(o.pos) && FiniteVec32(o.vel)
    {
      RowFromPduPrints(s.objects[id].obj);
    }
  }

  /** What holds of all rows holds of all unexpired records. */
  lemma {:induction false} RowsAreStored(s: Store.State, mono: int, ok: ObjectRecord -> bool)
    ensures var rows := SnapshotOf(s, mono).objects;
      (forall i :: 0 <= i < |rows| ==> ok(rows[i])) <==>
      forall id :: id in s.objects && mono - s.objects[id].lastUpdate <= s.expiry ==> ok(s.objects[id].obj)
  {
    hide DropOld, Rows;
    var kept := DropExpired(s.objects, s.expiry, mono);
    var ids := RowsAreRecords(kept);
    var rows := SnapshotOf(s, mono).objects;
    hide DropExpired;
    if forall i :: 0 <= i < |rows| ==> ok(rows[i]) {
      forall id | id in s.objects && mono - s.objects[id].lastUpdate <= s.expiry
        ensures ok(s.objects[id].obj)
      {
        KeptAre(s.objects, s.expiry, mono, id);
        var i :| 0 <= i < |ids| && ids[i] == id;
        assert ok(rows[i]);
      }
    }
    if forall id :: id in s.objects && mono - s.objects[id].lastUpdate <= s.expiry ==> ok(s.objects[id].obj) {
      forall i | 0 <= i < |rows|
        ensures ok(rows[i])
      {
        KeptAre(s.objects, s.expiry, mono, ids[i]);
        assert rows[i] == s.objects[ids[i]].obj;
      }
    }
  }

  lemma {:induction false} RowFromPduPrints(o: ObjectRecord)
    requires FromPdu(o)
    ensures RowPrints(o) <==> PositionPrints(o.pos) && FiniteVec32(o.vel)
  {
    hide HasVelocity, PositionPrints, FiniteVec32;
    ZeroIsFinite();
  }

  // ----- exactly when it is not JSON -----

  /** No stored value that a broadcast at `mono` shows is infinite, no number, or 46 characters long before the
      point. */
  predicate StoredSpells(s: Store.State, mono: int) {
    && (s.satellite.Some? ==> All(SatelliteShown(s.satellite.value), Spells))
    && (forall id :: id in s.objects && mono - s.objects[id].lastUpdate <= s.expiry ==>
          All(RowShown(s.objects[id].obj), Spells))
  }

  /** In a DIS run, whatever arrives, a broadcast is not JSON exactly when some value it shows is no number or has
      46 characters before the point. */
  lemma {:induction false} DisBroadcastUnreadableIff(states: seq<System>, actions: seq<Action>, k: nat, mono: int,
                                                     b: Broadcast)
    requires IsRun(states, actions) && Starts(states[0]) && k <= |actions| && states[0].receiver.Dis?
    requires GoodBroadcast(b) && |actions| < TWO64
    ensures ParseStateMessage(BroadcastText(states[k], mono, b)) == Err(NotJson)
      <==> !StoredSpells(states[k].store, mono)
  {
    hide Next, Enabled, Starts, GoodBroadcast, ParseStateMessage, StateTree, Print, ShownRate;
    hide SatelliteShown, RowShown, Spells, All, Lead, DropExpired, DropOld, Rows, AllZero, FractionPart, Kept;
    RunsStayDis(states, actions, k);
    AcceptsAreSteps(states, actions, k);
    RateReadsBack(states[k].store, mono);
    UnreadableIff(SnapshotOf(states[k].store, mono), b);
    SurvivingSpells(ShownRate(SnapshotOf(states[k].store, mono).rateHz));
    RowsAreStored(states[k].store, mono, o => All(RowShown(o), Spells));
  }

  lemma {:induction false} SurvivingSpells(s: Shown)
    requires Survives(s)
    ensures Spells(s)
  {
    hide Lead, AllZero, FractionPart, Kept;
  }
}
