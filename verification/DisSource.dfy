/** The DIS input source: filtering, hourly-wrapping timestamps, synthesized sequence numbers. */
module DisSource {
  import opened ByteNumbers
  import opened Bytes
  import opened Records
  import opened Store
  import opened DisIds
  import opened DisWire
  import Olv1Codec

  const MIN_VERSION: byte := 5
  const MAX_VERSION: byte := 7
  /** Half of the 31-bit tick range. */
  const HALF_RANGE: int := 0x4000_0000

  datatype Config = Config(exercise: Option<byte>, satellite: EntityId)

  /** Newest timestamp per entity, claimed object ids, last satellite, synthesized sequence. */
  datatype Tracker = Tracker(lastTs: map<int, int>, objectFold: map<int, int>, sat: Satellite, sequence: u32)

  function Fresh(): Tracker {
    Tracker(map[], map[], Satellite(0, 0, ZERO_VEC64, ZERO_VEC32), 0)
  }

  /** Ticks of the hour: the timestamp without its absolute/relative flag. */
  function Ticks(d: bytes): nat
    requires |d| >= HEADER_SIZE
  {
    Be32(d, 4) / 2
  }

  /** isStale's answer. */
  predicate StaleTicks(last: map<int, int>, packed: int, ts: nat) {
    packed in last && ts != 0 && ts < last[packed] && last[packed] - ts < HALF_RANGE
  }

  function MapObjectType(kind: byte, domain: byte): byte {
    if kind == 1 && domain == 5 then 4
    else if kind == 1 && domain == 1 then 5
    else if kind == 3 && domain == 1 then 5
    else if kind == 2 then 3
    else if kind == 0 && domain == 5 then 1
    else 0
  }

  // ----- what happens to a datagram -----

  datatype Verdict = Dropped(kind: DropKind) | Ignored | Accepted(e: EntityState)

  function Judge(cfg: Config, tr: Tracker, d: bytes): Verdict {
    if |d| < HEADER_SIZE then Dropped(Malformed)
    else if d[0] < MIN_VERSION || d[0] > MAX_VERSION then Dropped(Malformed)
    else if cfg.exercise.Some? && d[1] != cfg.exercise.value then Ignored
    else if d[2] != ENTITY_STATE_PDU then Ignored
    else if Unmarshal(d).None? then Dropped(Malformed)
    else if StaleTicks(tr.lastTs, Pack48(Unmarshal(d).value.id), Ticks(d)) then Dropped(Stale)
    else Accepted(Unmarshal(d).value)
  }

  function NextSequence(tr: Tracker): u32 {
    (tr.sequence + 1) % TWO32
  }

  function AfterAccepted(cfg: Config, tr: Tracker, e: EntityState, ts: nat): Tracker {
    var packed, sequence := Pack48(e.id), NextSequence(tr);
    var lastTs := tr.lastTs[packed := ts];
    if e.id == cfg.satellite
    then Tracker(lastTs, tr.objectFold, Satellite(Fold(e.id), sequence, e.pos, e.vel), sequence)
    else Tracker(lastTs, tr.objectFold[Fold(e.id) := packed], tr.sat, sequence)
  }

  function RecordOf(e: EntityState): ObjectRecord {
    ObjectRecord(Fold(e.id), MapObjectType(e.kind, e.domain), FLAG_HAS_VELOCITY, 100, e.pos, e.vel, 0)
  }

  function Capped(total: nat): (n: u16)
    ensures n <= total && n <= Olv1Codec.MAX_TRACKED_OBJECTS
  {
    if total < Olv1Codec.MAX_TRACKED_OBJECTS then total else Olv1Codec.MAX_TRACKED_OBJECTS
  }

  /** The packet synthesized after the tracker has taken the PDU in: it always repeats the satellite. */
  function PacketOf(cfg: Config, after: Tracker, e: EntityState): StatePacket {
    StatePacket(after.sequence, after.sat.id, after.sat.pos, after.sat.vel,
                Capped(|after.objectFold|),
                if e.id == cfg.satellite then [] else [RecordOf(e)])
  }

  function AfterDatagram(cfg: Config, tr: Tracker, d: bytes): Tracker {
    var v := Judge(cfg, tr, d);
    if v.Accepted? then AfterAccepted(cfg, tr, v.e, Ticks(d)) else tr
  }

  function Classify(cfg: Config, tr: Tracker, d: bytes): Outcome {
    match Judge(cfg, tr, d)
    case Dropped(kind) => Drop(kind)
    case Ignored => Ignore
    case Accepted(e) => Merge(PacketOf(cfg, AfterDatagram(cfg, tr, d), e))
  }

  class DisInputSource {
    const store: StateStore
    const cfg: Config
    var lastTs: map<int, int>
    var objectFold: map<int, int>
    var sat: Satellite
    var sequence: u32

    ghost function Model(): Tracker
      reads this
    {
      Tracker(lastTs, objectFold, sat, sequence)
    }

    constructor (cfg: Config, store: StateStore)
      ensures Model() == Fresh() && this.store == store && this.cfg == cfg
    {
      this.store := store;
      this.cfg := cfg;
      lastTs, objectFold, sequence := map[], map[], 0;
      sat := Satellite(0, 0, ZERO_VEC64, ZERO_VEC32);
    }

    /** isStale: records the timestamp unless it is stale. */
    method IsStale(packed: int, ts: nat) returns (stale: bool)
      modifies this`lastTs
      ensures stale == StaleTicks(old(lastTs), packed, ts)
      ensures lastTs == if stale then old(lastTs) else old(lastTs)[packed := ts]
    {
      if packed !in lastTs {
        lastTs := lastTs[packed := ts];
        return false;
      }
      if ts == 0 {
        lastTs := lastTs[packed := ts];
        return false;
      }
      var last := lastTs[packed];
      if ts >= last {
        lastTs := lastTs[packed := ts];
        return false;
      }
      if last - ts >= HALF_RANGE {
        lastTs := lastTs[packed := ts];
        return false;
      }
      return true;
    }

    /** processDatagram: count, header checks, unmarshal, staleness, translate, apply. */
    method ProcessDatagram(d: bytes, wall: int, mono: int)
      modifies this, store
      ensures Model() == AfterDatagram(cfg, old(Model()), d)
      ensures store.Model() == AfterOutcome(AfterReceived(old(store.Model()), |d|),
                                            Classify(cfg, old(Model()), d), wall, mono)
    {
      hide StaleTicks, Pack48, Fold, Unmarshal, Be32, AfterApply, AfterDropped, AfterReceived;
      store.CountReceived(|d|);
      if |d| < HEADER_SIZE {
        store.CountDropped(Malformed);
        return;
      }
      var version, exercise, pduType := d[0], d[1], d[2];
      if version < MIN_VERSION || version > MAX_VERSION {
        store.CountDropped(Malformed);
        return;
      }
      if cfg.exercise.Some? && exercise != cfg.exercise.value { return; }
      if pduType != ENTITY_STATE_PDU { return; }
      var body := Unmarshal(d);
      if body.None? {
        store.CountDropped(Malformed);
        return;
      }
      var e := body.value;
      var stale := IsStale(Pack48(e.id), Ticks(d));
      if stale {
        store.CountDropped(Stale);
        return;
      }
      var pkt := Absorb(e);
      var result := store.Apply(pkt, wall, mono);
    }

    /** The accepted part: number the packet, update the satellite or claim the object id, fill the packet. */
    method Absorb(e: EntityState) returns (pkt: StatePacket)
      modifies this`sequence, this`sat, this`objectFold
      ensures sequence == (old(sequence) + 1) % TWO32
      ensures sat == if e.id == cfg.satellite then Satellite(Fold(e.id), sequence, e.pos, e.vel) else old(sat)
      ensures objectFold ==
        if e.id == cfg.satellite then old(objectFold) else old(objectFold)[Fold(e.id) := Pack48(e.id)]
      ensures pkt == PacketOf(cfg, Model(), e)
    {
      hide Pack48, Fold;
      sequence := (sequence + 1) % TWO32;
      var folded := FoldEntityId(e.id);
      var objects := [];
      if e.id == cfg.satellite {
        sat := Satellite(folded, sequence, e.pos, e.vel);
      } else {
        var packed := Pack48(e.id);
        if folded !in objectFold {
          objectFold := objectFold[folded := packed];
        } else if objectFold[folded] != packed {
          objectFold := objectFold[folded := packed];
        } else {
          assert objectFold == objectFold[folded := packed];
        }
        objects := [RecordOf(e)];
      }
      pkt := StatePacket(sequence, sat.id, sat.pos, sat.vel, Capped(|objectFold|), objects);
    }
  }

  // ----- streams of PDUs survive the hourly wrap -----

  const TICK_RANGE: int := 0x8000_0000

  /** One accepted-or-not PDU: its entity and its true, never wrapping tick count. */
  datatype Stamp = Stamp(packed: int, tick: nat)

  /** The tick count of the last stamp of an entity. */
  function LastTick(stamps: seq<Stamp>, packed: int): Option<nat> {
    if stamps == [] then None else
    var last := stamps[|stamps| - 1];
    if last.packed == packed then Some(last.tick) else LastTick(stamps[..|stamps| - 1], packed)
  }

  /** Per entity, ticks never decrease and advance by at most half the range at a time. */
  ghost predicate InOrder(stamps: seq<Stamp>) {
    forall i :: 0 <= i < |stamps| ==>
      var prev := LastTick(stamps[..i], stamps[i].packed);
      prev.Some? ==> prev.value <= stamps[i].tick <= prev.value + HALF_RANGE
  }

  /** The receiver's timestamp table after a stream, each timestamp sent modulo the range. */
  function TableAfter(stamps: seq<Stamp>): map<int, int> {
    if stamps == [] then map[] else
    var n := |stamps| - 1;
    var table, x := TableAfter(stamps[..n]), stamps[n];
    if StaleTicks(table, x.packed, x.tick % TICK_RANGE) then table else table[x.packed := x.tick % TICK_RANGE]
  }

  /** No PDU of an in-order stream is ever stale, over any number of hours. */
  lemma {:induction false} StreamsSurviveWrap(stamps: seq<Stamp>)
    requires InOrder(stamps)
    ensures forall p :: p in TableAfter(stamps) <==> LastTick(stamps, p).Some?
    ensures forall p :: p in TableAfter(stamps) ==> TableAfter(stamps)[p] == LastTick(stamps, p).value % TICK_RANGE
    ensures forall i :: 0 <= i < |stamps| ==>
      !StaleTicks(TableAfter(stamps[..i]), stamps[i].packed, stamps[i].tick % TICK_RANGE)
  {
    hide StaleTicks;
    if stamps != [] {
      var n := |stamps| - 1;
      var front, x := stamps[..n], stamps[n];
      forall i | 0 <= i < n
        ensures front[..i] == stamps[..i]
      {
      }
      StreamsSurviveWrap(front);
      var table, prev := TableAfter(front), LastTick(front, x.packed);
      assert !StaleTicks(table, x.packed, x.tick % TICK_RANGE) by {
        FreshTicks(table, x, prev);
      }
      forall i | 0 <= i < |stamps|
        ensures !StaleTicks(TableAfter(stamps[..i]), stamps[i].packed, stamps[i].tick % TICK_RANGE)
      {
        if i < n {
          assert stamps[i] == front[i] && front[..i] == stamps[..i];
        } else {
          assert stamps[..i] == front;
        }
      }
    }
  }

  lemma FreshTicks(table: map<int, int>, x: Stamp, prev: Option<nat>)
    requires x.packed in table <==> prev.Some?
    requires prev.Some? ==>
      table[x.packed] == prev.value % TICK_RANGE && prev.value <= x.tick <= prev.value + HALF_RANGE
    ensures !StaleTicks(table, x.packed, x.tick % TICK_RANGE)
  {
  }

  // ----- rows and ids of one site and application -----

  /** The ids of the entities accepted so far, other than the satellite. */
  function Tracked(cfg: Config, tr: Tracker, ds: seq<bytes>): seq<EntityId> {
    if ds == [] then [] else
    var n := |ds| - 1;
    var v := Judge(cfg, After(cfg, tr, ds[..n]), ds[n]);
    Tracked(cfg, tr, ds[..n]) + if v.Accepted? && v.e.id != cfg.satellite then [v.e.id] else []
  }

  /** The tracker after a run of datagrams. */
  function After(cfg: Config, tr: Tracker, ds: seq<bytes>): Tracker {
    if ds == [] then tr else AfterDatagram(cfg, After(cfg, tr, ds[..|ds| - 1]), ds[|ds| - 1])
  }

  /** An accepted PDU whose folded id is already claimed by a different entity. */
  predicate Collides(cfg: Config, tr: Tracker, d: bytes) {
    var v := Judge(cfg, tr, d);
    && v.Accepted? && v.e.id != cfg.satellite
    && Fold(v.e.id) in tr.objectFold && tr.objectFold[Fold(v.e.id)] != Pack48(v.e.id)
  }

  /** Every tracked entity of the run belongs to one site and application. */
  ghost predicate OneSite(cfg: Config, ds: seq<bytes>, site: u16, app: u16) {
    var ids := Tracked(cfg, Fresh(), ds);
    forall i :: 0 <= i < |ids| ==> ids[i].site == site && ids[i].app == app
  }

  /** The claimed ids are exactly the folds of the tracked entities, each claimed by its own entity. */
  ghost predicate ClaimsMatch(claims: map<int, int>, ids: seq<EntityId>) {
    && (forall i :: 0 <= i < |ids| ==> Fold(ids[i]) in claims && claims[Fold(ids[i])] == Pack48(ids[i]))
    && (forall f :: f in claims ==> exists i :: 0 <= i < |ids| && Fold(ids[i]) == f)
  }

  /** No two of these entities share an object id. */
  ghost predicate DistinctFolds(ids: seq<EntityId>) {
    forall i, j :: 0 <= i < |ids| && 0 <= j < |ids| && Fold(ids[i]) == Fold(ids[j]) ==> ids[i] == ids[j]
  }

  lemma {:induction false} DistinctGrows(ids: seq<EntityId>, id: EntityId)
    ensures DistinctFolds(ids + [id]) <==>
      DistinctFolds(ids) && forall i :: 0 <= i < |ids| && Fold(ids[i]) == Fold(id) ==> ids[i] == id
  {
    hide Fold;
    var more := ids + [id];
    assert forall i :: 0 <= i < |ids| ==> more[i] == ids[i];
    assert more[|ids|] == id;
  }

  lemma {:induction false} ClaimsGrow(claims: map<int, int>, ids: seq<EntityId>, id: EntityId)
    requires ClaimsMatch(claims, ids)
    requires forall i :: 0 <= i < |ids| && Fold(ids[i]) == Fold(id) ==> ids[i] == id
    ensures ClaimsMatch(claims[Fold(id) := Pack48(id)], ids + [id])
    ensures Fold(id) in claims ==> claims[Fold(id)] == Pack48(id)
  {
    hide Fold, Pack48;
    var more, grown := ids + [id], claims[Fold(id) := Pack48(id)];
    forall f | f in grown
      ensures exists i :: 0 <= i < |more| && Fold(more[i]) == f
    {
      if f in claims {
        var i :| 0 <= i < |ids| && Fold(ids[i]) == f;
        assert more[i] == ids[i];
      } else {
        assert more[|ids|] == id;
      }
    }
  }

  /** An entity that finds its object id free or its own shares it with no other. */
  lemma {:induction false} UnclaimedIsDistinct(claims: map<int, int>, ids: seq<EntityId>, id: EntityId)
    requires ClaimsMatch(claims, ids) && (Fold(id) in claims ==> claims[Fold(id)] == Pack48(id))
    ensures forall i :: 0 <= i < |ids| && Fold(ids[i]) == Fold(id) ==> ids[i] == id
  {
    hide Fold, Pack48;
    forall i | 0 <= i < |ids| && Fold(ids[i]) == Fold(id)
      ensures ids[i] == id
    {
      UnpackPack(ids[i]);
      UnpackPack(id);
    }
  }

  /** No PDU has found its object id claimed by another entity. */
  ghost predicate NeverCollides(cfg: Config, ds: seq<bytes>) {
    forall i :: 0 <= i < |ds| ==> !Collides(cfg, After(cfg, Fresh(), ds[..i]), ds[i])
  }

  lemma {:induction false} CollidesSplits(cfg: Config, ds: seq<bytes>)
    requires ds != []
    ensures var n := |ds| - 1;
      NeverCollides(cfg, ds) <==>
        NeverCollides(cfg, ds[..n]) && !Collides(cfg, After(cfg, Fresh(), ds[..n]), ds[n])
  {
    hide Collides, After;
    var n := |ds| - 1;
    forall i | 0 <= i < n
      ensures ds[..n][..i] == ds[..i] && ds[..n][i] == ds[i]
    {
    }
    if NeverCollides(cfg, ds) {
      forall i | 0 <= i < n
        ensures !Collides(cfg, After(cfg, Fresh(), ds[..n][..i]), ds[..n][i])
      {
        assert ds[..n][..i] == ds[..i] && ds[..n][i] == ds[i];
      }
    }
    if NeverCollides(cfg, ds[..n]) && !Collides(cfg, After(cfg, Fresh(), ds[..n]), ds[n]) {
      forall i | 0 <= i < |ds|
        ensures !Collides(cfg, After(cfg, Fresh(), ds[..i]), ds[i])
      {
        assert i < n ==> ds[..n][..i] == ds[..i] && ds[..n][i] == ds[i];
      }
    }
  }

  /** The collision branch is taken exactly when two tracked entities share an object id; otherwise each entity keeps
      its own claim. */
  lemma {:induction false} NeverCollidesIff(cfg: Config, ds: seq<bytes>)
    ensures NeverCollides(cfg, ds) <==> DistinctFolds(Tracked(cfg, Fresh(), ds))
    ensures NeverCollides(cfg, ds) ==> ClaimsMatch(After(cfg, Fresh(), ds).objectFold, Tracked(cfg, Fresh(), ds))
  {
    hide Judge, Fold, Pack48, NeverCollides, DistinctFolds, ClaimsMatch;
    if ds == [] {
      NothingCollides(cfg);
    } else {
      var n := |ds| - 1;
      NeverCollidesIff(cfg, ds[..n]);
      CollidesSplits(cfg, ds);
      var tr, ids := After(cfg, Fresh(), ds[..n]), Tracked(cfg, Fresh(), ds[..n]);
      var v := Judge(cfg, tr, ds[n]);
      if v.Accepted? && v.e.id != cfg.satellite {
        DistinctGrows(ids, v.e.id);
        if DistinctFolds(ids) {
          ClaimOrCollide(tr.objectFold, ids, v.e.id);
        }
      } else {
        assert ids + [] == ids;
      }
    }
  }

  lemma NothingCollides(cfg: Config)
    ensures NeverCollides(cfg, []) && DistinctFolds([]) && ClaimsMatch(map[], [])
  {
  }

  lemma {:induction false} ClaimOrCollide(claims: map<int, int>, ids: seq<EntityId>, id: EntityId)
    requires ClaimsMatch(claims, ids)
    ensures (Fold(id) in claims ==> claims[Fold(id)] == Pack48(id)) <==>
      forall i :: 0 <= i < |ids| && Fold(ids[i]) == Fold(id) ==> ids[i] == id
    ensures (Fold(id) in claims ==> claims[Fold(id)] == Pack48(id)) ==>
      ClaimsMatch(claims[Fold(id) := Pack48(id)], ids + [id])
  {
    hide Fold, Pack48, ClaimsMatch;
    if Fold(id) in claims ==> claims[Fold(id)] == Pack48(id) {
      UnclaimedIsDistinct(claims, ids, id);
      ClaimsGrow(claims, ids, id);
    } else if forall i :: 0 <= i < |ids| && Fold(ids[i]) == Fold(id) ==> ids[i] == id {
      ClaimsGrow(claims, ids, id);
    }
  }

  /** Entities of one site and application never share an object id. */
  lemma {:induction false} OneSiteDistinct(ids: seq<EntityId>, site: u16, app: u16)
    requires forall i :: 0 <= i < |ids| ==> ids[i].site == site && ids[i].app == app
    ensures DistinctFolds(ids)
  {
    hide Fold;
    forall i, j | 0 <= i < |ids| && 0 <= j < |ids| && Fold(ids[i]) == Fold(ids[j])
      ensures ids[i] == ids[j]
    {
      FoldInjective(ids[i], ids[j]);
    }
  }

  /** With one site and application, each entity keeps its own claim on its object id and no PDU ever collides. */
  lemma {:induction false} OneSiteNeverCollides(cfg: Config, ds: seq<bytes>, site: u16, app: u16)
    requires OneSite(cfg, ds, site, app)
    ensures ClaimsMatch(After(cfg, Fresh(), ds).objectFold, Tracked(cfg, Fresh(), ds))
    ensures NeverCollides(cfg, ds)
  {
    hide Fold, NeverCollides, ClaimsMatch, DistinctFolds, Tracked, After;
    OneSiteDistinct(Tracked(cfg, Fresh(), ds), site, app);
    NeverCollidesIff(cfg, ds);
  }
}
