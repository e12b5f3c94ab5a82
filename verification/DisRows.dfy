/** The object table of a DIS run: which entity each row belongs to, and which of its PDUs it shows. */
module DisRows {
  import opened Bytes
  import opened Records
  import opened Store
  import opened Pipeline
  import opened DisIds
  import opened DisWire
  import opened DisSource
  import opened RunHistory
  import H = StoreHistory

  /** A PDU accepted at a time of the monotonic clock. */
  datatype Heard = Heard(e: EntityState, mono: int)

  /** The datagrams settled in the first `n` steps. */
  ghost function Settled(states: seq<System>, actions: seq<Action>, n: nat): seq<bytes>
    requires IsRun(states, actions) && n <= |actions|
  {
    if n == 0 then [] else
    Settled(states, actions, n - 1) + if actions[n - 1].Settle? then [states[n - 1].inflight.value] else []
  }

  /** The accepted PDUs among them, but for those of the satellite. */
  ghost function Pdus(states: seq<System>, actions: seq<Action>, n: nat): seq<Heard>
    requires IsRun(states, actions) && states[0].receiver.Dis? && n <= |actions|
  {
    if n == 0 then [] else Pdus(states, actions, n - 1) + PduOf(states[n - 1], actions[n - 1])
  }

  ghost function PduOf(sys: System, a: Action): seq<Heard>
    requires Pipeline.Enabled(sys, a)
  {
    if !sys.receiver.Dis? || !a.Settle? then [] else
    var v := Judge(sys.receiver.cfg, sys.receiver.dis, sys.inflight.value);
    if v.Accepted? && v.e.id != sys.receiver.cfg.satellite then [Heard(v.e, a.mono)] else []
  }

  function IdsOf(pdus: seq<Heard>): (ids: seq<EntityId>)
    ensures |ids| == |pdus| && forall i :: 0 <= i < |ids| ==> ids[i] == pdus[i].e.id
  {
    seq(|pdus|, i requires 0 <= i < |pdus| => pdus[i].e.id)
  }

  function RecordsOf(pdus: seq<Heard>): (log: seq<Stored>)
    ensures |log| == |pdus| && forall i :: 0 <= i < |log| ==> log[i] == Stored(RecordOf(pdus[i].e), pdus[i].mono)
  {
    seq(|pdus|, i requires 0 <= i < |pdus| => Stored(RecordOf(pdus[i].e), pdus[i].mono))
  }

  /** The last PDU of an entity. */
  function LastPdu(pdus: seq<Heard>, id: EntityId): Option<Heard> {
    if pdus == [] then None else
    var last := pdus[|pdus| - 1];
    if last.e.id == id then Some(last) else LastPdu(pdus[..|pdus| - 1], id)
  }

  lemma {:induction false} LastPduExists(pdus: seq<Heard>, id: EntityId)
    ensures LastPdu(pdus, id).Some? <==> id in IdsOf(pdus)
    ensures LastPdu(pdus, id).Some? ==> LastPdu(pdus, id).value.e.id == id
  {
    if pdus != [] {
      var n := |pdus| - 1;
      LastPduExists(pdus[..n], id);
      assert IdsOf(pdus) == IdsOf(pdus[..n]) + [pdus[n].e.id];
    }
  }

  // ----- the run as a run of the source alone -----

  lemma {:induction false} DisNext(sys: System, a: Action)
    requires Pipeline.Enabled(sys, a) && sys.receiver.Dis?
    ensures var r, t := sys.receiver, Next(sys, a).receiver;
      && t.Dis? && t.cfg == r.cfg && (a.Settle? ==> sys.inflight.Some?)
      && t.dis == if a.Settle? then DisSource.AfterDatagram(r.cfg, r.dis, sys.inflight.value) else r.dis
  {
    hide Pipeline.Classify, AfterOutcome, AfterReceived, AfterSnapshot, SnapshotOf, DisSource.AfterDatagram;
  }

  /** The tracker is that of the settled datagrams, and the tracked ids are those of the accepted PDUs. */
  lemma {:induction false} DisRun(states: seq<System>, actions: seq<Action>, n: nat)
    requires IsRun(states, actions) && Starts(states[0]) && states[0].receiver.Dis? && n <= |actions|
    ensures var r, ds := states[n].receiver, Settled(states, actions, n);
      && r.Dis? && r.cfg == states[0].receiver.cfg && r.dis == After(r.cfg, Fresh(), ds)
      && Tracked(r.cfg, Fresh(), ds) == IdsOf(Pdus(states, actions, n))
  {
    hide Next, Pipeline.Enabled, Judge, DisSource.AfterDatagram;
    if n != 0 {
      hide Starts;
      DisRun(states, actions, n - 1);
      var sys, a, ds := states[n - 1], actions[n - 1], Settled(states, actions, n - 1);
      DisNext(sys, a);
      if a.Settle? {
        var d := sys.inflight.value;
        assert (ds + [d])[..|ds|] == ds;
        var pdus, more := Pdus(states, actions, n - 1), PduOf(sys, a);
        assert IdsOf(pdus + more) == IdsOf(pdus) + IdsOf(more);
      } else {
        assert ds + [] == ds;
        assert Pdus(states, actions, n - 1) + [] == Pdus(states, actions, n - 1);
      }
    }
  }

  // ----- the accepted records are those of the accepted PDUs -----

  /** The records one step adds to the store's history. */
  lemma {:induction false} StepRecords(sys: System, a: Action)
    requires Pipeline.Enabled(sys, a) && sys.receiver.Dis? && InStep(sys)
    ensures var es := EventOf(sys, a);
      |es| <= 1 && (if es == [] then [] else H.Recorded(sys.store, es[0])) == RecordsOf(PduOf(sys, a))
  {
    hide Judge, Rejects, RecordOf, Pack48;
    if a.Settle? {
      DisNeverRejected(sys);
      var v := Judge(sys.receiver.cfg, sys.receiver.dis, sys.inflight.value);
      if v.Accepted? && v.e.id != sys.receiver.cfg.satellite {
        StampOne(RecordOf(v.e), a.mono);
      } else {
        assert H.StampAll([], a.mono) == [];
      }
    }
  }

  lemma {:induction false} StampOne(rec: ObjectRecord, mono: int)
    ensures H.StampAll([rec], mono) == [Stored(rec, mono)]
  {
    assert H.StampAll([], mono) == [] && [rec][..0] == [];
  }

  /** The store's history of accepted records is exactly the records of the accepted PDUs, in order. */
  lemma {:induction false} LogIsPdus(states: seq<System>, actions: seq<Action>, n: nat, expiry: int)
    requires IsRun(states, actions) && Starts(states[0]) && states[0].store == Initial(expiry)
    requires states[0].receiver.Dis? && n <= |actions|
    ensures H.Log(expiry, Events(states, actions, n)) == RecordsOf(Pdus(states, actions, n))
  {
    hide Next, Pipeline.Enabled, EventOf, PduOf, H.Recorded, InStep, Balanced, RecordOf, H.Log, H.Run, RecordsOf;
    if n == 0 {
      NoLog(expiry);
    } else {
      LogIsPdus(states, actions, n - 1, expiry);
      StoreIsRun(states, actions, n - 1, expiry);
      DisRun(states, actions, n - 1);
      AccountingHolds(states, actions, n - 1);
      hide Starts;
      var sys, a, evs := states[n - 1], actions[n - 1], Events(states, actions, n - 1);
      StepRecords(sys, a);
      LogStep(expiry, evs, sys.store, EventOf(sys, a), RecordsOf(PduOf(sys, a)));
      RecordsAppend(Pdus(states, actions, n - 1), PduOf(sys, a));
    }
  }

  lemma {:induction false} NoLog(expiry: int)
    ensures H.Log(expiry, []) == RecordsOf([])
  {
  }

  lemma {:induction false} RecordsAppend(a: seq<Heard>, b: seq<Heard>)
    ensures RecordsOf(a + b) == RecordsOf(a) + RecordsOf(b)
  {
    hide RecordOf;
  }

  lemma {:induction false} LogStep(expiry: int, evs: seq<H.Event>, s: Store.State, es: seq<H.Event>, recs: seq<Stored>)
    requires s == H.Run(expiry, evs) && |es| <= 1 && recs == if es == [] then [] else H.Recorded(s, es[0])
    ensures H.Log(expiry, evs + es) == H.Log(expiry, evs) + recs
  {
    hide H.Recorded, H.Run, H.Log;
    if es == [] {
      assert evs + es == evs;
    } else {
      assert es == [es[0]];
      RunAppend(expiry, evs, es[0]);
    }
  }

  // ----- entities that share no object id -----

  /** No other entity among them shares the object id of this one. */
  ghost predicate OwnsFold(pdus: seq<Heard>, id: EntityId) {
    forall i :: 0 <= i < |pdus| && Fold(pdus[i].e.id) == Fold(id) ==> pdus[i].e.id == id
  }

  /** The last record accepted under the fold of an id is that of this entity's last PDU, and of no other's. */
  lemma {:induction false} LatestIsLastPdu(pdus: seq<Heard>, id: EntityId)
    requires OwnsFold(pdus, id)
    ensures H.Latest(RecordsOf(pdus), Fold(id)) ==
      match LastPdu(pdus, id) case None => None case Some(p) => Some(Stored(RecordOf(p.e), p.mono))
  {
    hide Fold, MapObjectType;
    if pdus != [] {
      var n := |pdus| - 1;
      LatestIsLastPdu(pdus[..n], id);
      assert RecordsOf(pdus)[..n] == RecordsOf(pdus[..n]);
    }
  }

  /** A record under any id comes from a tracked entity with that fold. */
  lemma {:induction false} LatestIsTracked(pdus: seq<Heard>, f: int)
    ensures H.Latest(RecordsOf(pdus), f).Some? <==> exists i :: 0 <= i < |pdus| && Fold(pdus[i].e.id) == f
  {
    hide Fold, MapObjectType;
    if pdus != [] {
      var n := |pdus| - 1;
      LatestIsTracked(pdus[..n], f);
      assert RecordsOf(pdus)[..n] == RecordsOf(pdus[..n]);
      if i :| 0 <= i < n && Fold(pdus[i].e.id) == f {
        assert pdus[..n][i] == pdus[i];
      }
    }
  }

  lemma {:induction false} DistinctOwn(pdus: seq<Heard>, i: nat)
    requires DistinctFolds(IdsOf(pdus)) && i < |pdus|
    ensures OwnsFold(pdus, IdsOf(pdus)[i])
  {
    hide Fold;
    var ids := IdsOf(pdus);
    forall k | 0 <= k < |pdus| && Fold(pdus[k].e.id) == Fold(ids[i])
      ensures pdus[k].e.id == ids[i]
    {
      assert ids[k] == pdus[k].e.id;
    }
  }

  /** Each row belongs to one of these entities and is its last PDU's, and an entity is missing only if a broadcast
      found it expired. */
  ghost predicate TableMatches(table: Table, ids: seq<EntityId>, pdus: seq<Heard>, evs: seq<H.Event>, expiry: int) {
    && (forall f :: f in table ==> exists i :: 0 <= i < |ids| && Fold(ids[i]) == f)
    && (forall i :: 0 <= i < |ids| ==> LastPdu(pdus, ids[i]).Some? && LastPdu(pdus, ids[i]).value.e.id == ids[i])
    && (forall i :: 0 <= i < |ids| ==>
          var p := LastPdu(pdus, ids[i]).value;
          if Fold(ids[i]) in table then table[Fold(ids[i])] == Stored(RecordOf(p.e), p.mono)
          else exists k :: 0 <= k < |evs| && evs[k].Snap? && evs[k].mono - p.mono > expiry)
  }

  /** When no two tracked entities share an object id, whatever the run: a row of the table belongs to exactly one
      tracked entity, shows that entity's last accepted PDU, and a tracked entity is missing only if a broadcast found
      it expired. */
  lemma {:induction false} DistinctTable(states: seq<System>, actions: seq<Action>, n: nat, expiry: int)
    requires IsRun(states, actions) && Starts(states[0]) && states[0].store == Initial(expiry)
    requires states[0].receiver.Dis? && n <= |actions|
    requires DistinctFolds(Tracked(states[0].receiver.cfg, Fresh(), Settled(states, actions, n)))
    ensures var ids := Tracked(states[0].receiver.cfg, Fresh(), Settled(states, actions, n));
      TableMatches(states[n].store.objects, ids, Pdus(states, actions, n), Events(states, actions, n), expiry)
  {
    hide Next, Pipeline.Enabled, Settled, Pdus, Events, Starts, Fold, RecordOf, Tracked, H.Latest, H.Log;
    hide H.Run, DistinctFolds, OwnsFold;
    DisRun(states, actions, n);
    LogIsPdus(states, actions, n, expiry);
    StoreIsRun(states, actions, n, expiry);
    var evs, pdus, ids := Events(states, actions, n), Pdus(states, actions, n), IdsOf(Pdus(states, actions, n));
    H.ExpiryConstant(expiry, evs);
    var s := states[n].store;
    forall f | f in s.objects
      ensures exists i :: 0 <= i < |ids| && Fold(ids[i]) == f
    {
      H.RunFaithful(expiry, evs, f);
      LatestIsTracked(pdus, f);
      var i :| 0 <= i < |pdus| && Fold(pdus[i].e.id) == f;
      assert Fold(ids[i]) == f;
    }
    forall i | 0 <= i < |ids|
      ensures LastPdu(pdus, ids[i]).Some? && LastPdu(pdus, ids[i]).value.e.id == ids[i]
      ensures var p := LastPdu(pdus, ids[i]).value;
        if Fold(ids[i]) in s.objects then s.objects[Fold(ids[i])] == Stored(RecordOf(p.e), p.mono)
        else exists k :: 0 <= k < |evs| && evs[k].Snap? && evs[k].mono - p.mono > expiry
    {
      assert ids[i] in ids;
      LastPduExists(pdus, ids[i]);
      DistinctOwn(pdus, i);
      LatestIsLastPdu(pdus, ids[i]);
      H.RunFaithful(expiry, evs, Fold(ids[i]));
    }
  }

  /** What is shown under the fold of an id is the record of its last PDU, unless it has expired. */
  lemma {:induction false} ShownIsLastPdu(expiry: int, evs: seq<H.Event>, pdus: seq<Heard>, id: EntityId, m: int)
    requires H.Log(expiry, evs) == RecordsOf(pdus) && OwnsFold(pdus, id)
    ensures H.Shown(expiry, evs, m, Fold(id)) ==
      match LastPdu(pdus, id)
      case None => None
      case Some(p) => if m - p.mono <= expiry then Some(RecordOf(p.e)) else None
  {
    hide Fold, RecordOf, H.Log, H.Latest;
    LatestIsLastPdu(pdus, id);
  }

  lemma {:induction false} ShownIsTracked(expiry: int, evs: seq<H.Event>, pdus: seq<Heard>, f: int, m: int)
    requires H.Log(expiry, evs) == RecordsOf(pdus) && H.Shown(expiry, evs, m, f).Some?
    ensures exists i :: 0 <= i < |pdus| && Fold(pdus[i].e.id) == f
  {
    hide Fold, RecordOf, H.Log, H.Latest;
    LatestIsTracked(pdus, f);
  }

  /** One row for each entity whose last PDU has not expired at `m`, made from that PDU, and no other rows. */
  ghost predicate RowsMatch(rows: seq<ObjectRecord>, ids: seq<EntityId>, pdus: seq<Heard>, m: int, expiry: int) {
    && (forall r :: 0 <= r < |rows| ==> exists i :: 0 <= i < |ids| && RowOf(rows[r], pdus, ids[i], m, expiry))
    && (forall i :: 0 <= i < |ids| ==> LastPdu(pdus, ids[i]).Some?)
    && (forall i :: 0 <= i < |ids| && m - LastPdu(pdus, ids[i]).value.mono <= expiry ==>
          exists r :: 0 <= r < |rows| && RowOf(rows[r], pdus, ids[i], m, expiry))
  }

  /** Rows that show a history of PDUs. */
  lemma {:induction false} RowsOfPdus(expiry: int, evs: seq<H.Event>, pdus: seq<Heard>, rows: seq<ObjectRecord>, m: int)
    requires H.Log(expiry, evs) == RecordsOf(pdus) && DistinctFolds(IdsOf(pdus))
    requires forall i :: 0 <= i < |rows| ==> H.Shown(expiry, evs, m, rows[i].id) == Some(rows[i])
    requires forall id :: H.Shown(expiry, evs, m, id).Some? ==> exists i :: 0 <= i < |rows| && rows[i].id == id
    ensures RowsMatch(rows, IdsOf(pdus), pdus, m, expiry)
  {
    hide Fold, RecordOf, H.Shown, H.Log, DistinctFolds, OwnsFold;
    var ids := IdsOf(pdus);
    forall i | 0 <= i < |ids|
      ensures LastPdu(pdus, ids[i]).Some?
      ensures m - LastPdu(pdus, ids[i]).value.mono <= expiry ==>
        exists r :: 0 <= r < |rows| && RowOf(rows[r], pdus, ids[i], m, expiry)
    {
      assert ids[i] in ids;
      LastPduExists(pdus, ids[i]);
      DistinctOwn(pdus, i);
      ShownIsLastPdu(expiry, evs, pdus, ids[i], m);
      if m - LastPdu(pdus, ids[i]).value.mono <= expiry {
        var r :| 0 <= r < |rows| && rows[r].id == Fold(ids[i]);
        assert RowOf(rows[r], pdus, ids[i], m, expiry);
      }
    }
    forall r | 0 <= r < |rows|
      ensures exists i :: 0 <= i < |ids| && RowOf(rows[r], pdus, ids[i], m, expiry)
    {
      ShownIsTracked(expiry, evs, pdus, rows[r].id, m);
      var i :| 0 <= i < |pdus| && Fold(pdus[i].e.id) == rows[r].id;
      assert ids[i] == pdus[i].e.id;
      DistinctOwn(pdus, i);
      ShownIsLastPdu(expiry, evs, pdus, ids[i], m);
      assert RowOf(rows[r], pdus, ids[i], m, expiry);
    }
  }

  /** What a broadcast shows of such a run: one row for each tracked entity whose last PDU has not expired, made
      from that PDU, and no other rows. */
  lemma {:induction false} DistinctRows(states: seq<System>, actions: seq<Action>, n: nat, expiry: int, m: int)
    requires IsRun(states, actions) && Starts(states[0]) && states[0].store == Initial(expiry)
    requires states[0].receiver.Dis? && n <= |actions|
    requires DistinctFolds(Tracked(states[0].receiver.cfg, Fresh(), Settled(states, actions, n)))
    requires H.ClocksAdvance(Events(states, actions, n) + [H.Snap(m)])
    ensures var ids := Tracked(states[0].receiver.cfg, Fresh(), Settled(states, actions, n));
      var pdus := Pdus(states, actions, n);
      var rows := SnapshotOf(states[n].store, m).objects;
      && (forall i, j :: 0 <= i < j < |rows| ==> rows[i].id < rows[j].id)
      && RowsMatch(rows, ids, pdus, m, expiry)
  {
    hide Next, Pipeline.Enabled, Settled, Pdus, Events, Starts, Fold, RecordOf, Tracked, H.Shown, H.Log;
    hide SnapshotOf, H.ClocksAdvance, RowsMatch, DistinctFolds;
    DisRun(states, actions, n);
    LogIsPdus(states, actions, n, expiry);
    RunShowsHistory(states, actions, n, expiry, m);
    var rows := SnapshotOf(states[n].store, m).objects;
    RowsOfPdus(expiry, Events(states, actions, n), Pdus(states, actions, n), rows, m);
  }

  /** The row is the entity's, made from its last PDU, which has not expired at `m`. */
  ghost predicate RowOf(row: ObjectRecord, pdus: seq<Heard>, id: EntityId, m: int, expiry: int) {
    var p := LastPdu(pdus, id);
    p.Some? && m - p.value.mono <= expiry && row == RecordOf(p.value.e) && row.id == Fold(id)
  }

  // ----- one site and application -----

  lemma {:induction false} OneSiteFolds(cfg: Config, ds: seq<bytes>, site: u16, app: u16)
    requires OneSite(cfg, ds, site, app)
    ensures DistinctFolds(Tracked(cfg, Fresh(), ds))
  {
    hide Tracked;
    OneSiteDistinct(Tracked(cfg, Fresh(), ds), site, app);
  }

  /** With one site and application, the table always matches what was heard. */
  lemma {:induction false} OneSiteTable(states: seq<System>, actions: seq<Action>, n: nat, expiry: int, site: u16,
                                        app: u16)
    requires IsRun(states, actions) && Starts(states[0]) && states[0].store == Initial(expiry)
    requires states[0].receiver.Dis? && n <= |actions|
    requires OneSite(states[0].receiver.cfg, Settled(states, actions, n), site, app)
    ensures var ids := Tracked(states[0].receiver.cfg, Fresh(), Settled(states, actions, n));
      TableMatches(states[n].store.objects, ids, Pdus(states, actions, n), Events(states, actions, n), expiry)
  {
    hide Next, Pipeline.Enabled, Settled, Pdus, Events, Starts, Tracked, OneSite, DistinctFolds, TableMatches;
    OneSiteFolds(states[0].receiver.cfg, Settled(states, actions, n), site, app);
    DistinctTable(states, actions, n, expiry);
  }

  /** With one site and application, a broadcast shows one row for each tracked entity whose last PDU has not
      expired, made from that PDU, and no other rows. */
  lemma {:induction false} OneSiteRows(states: seq<System>, actions: seq<Action>, n: nat, expiry: int, m: int,
                                       site: u16, app: u16)
    requires IsRun(states, actions) && Starts(states[0]) && states[0].store == Initial(expiry)
    requires states[0].receiver.Dis? && n <= |actions|
    requires OneSite(states[0].receiver.cfg, Settled(states, actions, n), site, app)
    requires H.ClocksAdvance(Events(states, actions, n) + [H.Snap(m)])
    ensures var ids := Tracked(states[0].receiver.cfg, Fresh(), Settled(states, actions, n));
      var rows := SnapshotOf(states[n].store, m).objects;
      && (forall i, j :: 0 <= i < j < |rows| ==> rows[i].id < rows[j].id)
      && RowsMatch(rows, ids, Pdus(states, actions, n), m, expiry)
  {
    hide Next, Pipeline.Enabled, Settled, Pdus, Events, Starts, Tracked, OneSite, DistinctFolds, RowsMatch;
    hide SnapshotOf, H.ClocksAdvance;
    OneSiteFolds(states[0].receiver.cfg, Settled(states, actions, n), site, app);
    DistinctRows(states, actions, n, expiry, m);
  }
}
