/** The simulator's DIS emitter in exact arithmetic: hourly timestamps, entity ids and types. */
module DisBuilder {
  import opened ByteNumbers
  import opened Bytes
  import opened Records
  import opened Frames
  import opened Collections
  import opened DisIds
  import opened DisWire
  import opened DisSource
  import Store

  /** Ticks per second: 2^31 to the hour. */
  const TICKS_PER_SECOND: real := 2147483648.0 / 3600.0

  datatype EmitConfig = EmitConfig(exercise: byte, satellite: EntityId, site: u16)

  function NotNegative(t: real): (r: real)
    ensures r >= 0.0
  {
    if t < 0.0 then 0.0 else t
  }

  /** Seconds into the hour. */
  function HourSeconds(t: real): real {
    t - 3600.0 * (t / 3600.0).Floor as real
  }

  /** The 31-bit tick count the emitter computes. */
  function HourTicks(t: real): int {
    (HourSeconds(NotNegative(t)) * TICKS_PER_SECOND).Floor % TICK_RANGE
  }

  /** Ticks since time zero, never wrapping. */
  function TrueTicks(t: real): (n: nat) {
    var scaled := NotNegative(t) * TICKS_PER_SECOND;
    assert scaled.Floor >= 0;
    scaled.Floor
  }

  function EntityKind(olvType: byte): (byte, byte) {
    if olvType == 4 then (1, 5)
    else if olvType == 5 then (1, 1)
    else if olvType == 3 then (2, 0)
    else if olvType == 1 then (0, 5)
    else (0, 0)
  }

  function ObjectEntity(site: u16, id: u32): EntityId {
    EntityId(site, id / 0x1_0000, id % 0x1_0000)
  }

  function SatellitePdu(f: Frame, cfg: EmitConfig, timestamp: u32): Pdu {
    Pdu(cfg.exercise, timestamp, EntityState(cfg.satellite, 1, 5, f.sat.pos, f.sat.vel))
  }

  function ObjectPdu(r: ObjectRecord, cfg: EmitConfig, timestamp: u32): Pdu {
    var (kind, domain) := EntityKind(r.kind);
    Pdu(cfg.exercise, timestamp, EntityState(ObjectEntity(cfg.site, r.id), kind, domain, r.pos, r.vel))
  }

  lemma FloorScale(x: real, h: int)
    ensures (x - (h * TICK_RANGE) as real).Floor == x.Floor - h * TICK_RANGE
  {
  }

  /** The emitted count is the true count modulo 2^31. */
  lemma {:induction false} HourTicksWrap(t: real)
    ensures HourTicks(t) == TrueTicks(t) % TICK_RANGE && 0 <= HourTicks(t) < TICK_RANGE
  {
    var x := NotNegative(t);
    var h := (x / 3600.0).Floor;
    assert HourSeconds(x) * TICKS_PER_SECOND == x * TICKS_PER_SECOND - (h * TICK_RANGE) as real by {
      assert 3600.0 * TICKS_PER_SECOND == 2147483648.0;
      assert HourSeconds(x) == x - 3600.0 * h as real;
      assert (3600.0 * h as real) * TICKS_PER_SECOND == h as real * 2147483648.0;
      assert (h * TICK_RANGE) as real == h as real * 2147483648.0;
    }
    FloorScale(x * TICKS_PER_SECOND, h);
    ModShift(TrueTicks(t), h);
  }

  lemma {:induction false} ModShift(n: nat, h: int)
    ensures (n - h * TICK_RANGE) % TICK_RANGE == n % TICK_RANGE
  {
    var q, r := n / TICK_RANGE, n % TICK_RANGE;
    assert n - h * TICK_RANGE == TICK_RANGE * (q - h) + r;
  }

  /** Time that advances by at most half an hour advances the count by at most half its range. */
  lemma {:induction false} HalfHourIsHalfRange(s: real, t: real)
    requires s <= t <= s + 1800.0
    ensures TrueTicks(s) <= TrueTicks(t) <= TrueTicks(s) + HALF_RANGE
  {
    var a, b := NotNegative(s) * TICKS_PER_SECOND, NotNegative(t) * TICKS_PER_SECOND;
    assert 1800.0 * TICKS_PER_SECOND == 1073741824.0;
    ScaleOrder(NotNegative(s), NotNegative(t), TICKS_PER_SECOND);
    ScaleOrder(NotNegative(t), NotNegative(s) + 1800.0, TICKS_PER_SECOND);
    assert a <= b <= a + 1073741824.0;
  }

  lemma ScaleOrder(x: real, y: real, k: real)
    requires x <= y && k > 0.0
    ensures x * k <= y * k
  {
  }

  /** An object's type survives the trip through (kind, domain), except that stars become unknown. */
  lemma TypeSurvivesIff(olvType: byte)
    requires olvType <= 5
    ensures var (kind, domain) := EntityKind(olvType);
      MapObjectType(kind, domain) == (if olvType == 2 then 0 else olvType)
  {
  }

  /** Different object ids become different entities. */
  lemma ObjectEntityInjective(site: u16, a: u32, b: u32)
    requires ObjectEntity(site, a) == ObjectEntity(site, b)
    ensures a == b
  {
  }

  /** The PDUs of one frame: the satellite, then every object, all with one timestamp. */
  function FramePdus(f: Frame, cfg: EmitConfig, t: real): (pdus: seq<Pdu>)
    ensures |pdus| == 1 + |f.objects|
  {
    HourTicksWrap(t);
    var timestamp := HourTicks(t) * 2;
    [SatellitePdu(f, cfg, timestamp)]
    + seq(|f.objects|, i requires 0 <= i < |f.objects| => ObjectPdu(f.objects[i], cfg, timestamp))
  }

  /** buildDisPdus: one datagram for each PDU. */
  method BuildDisPdus(f: Frame, cfg: EmitConfig, t: real) returns (datagrams: seq<bytes>)
    ensures datagrams == Each(FramePdus(f, cfg, t), Marshal)
  {
    hide HourTicks, TrueTicks, Marshal;
    HourTicksWrap(t);
    var ticks := HourTicks(t);
    var timestamp := ticks * 2;
    datagrams := [Marshal(SatellitePdu(f, cfg, timestamp))];
    for i := 0 to |f.objects|
      invariant datagrams == Each(FramePdus(f, cfg, t), Marshal)[..i + 1]
    {
      var pdu := ObjectPdu(f.objects[i], cfg, timestamp);
      assert pdu == FramePdus(f, cfg, t)[i + 1];
      datagrams := datagrams + [Marshal(pdu)];
    }
  }

  // ----- whole runs -----

  /** A PDU and the time it was emitted at. */
  datatype Emission = Emission(t: real, pdu: Pdu)

  datatype Instant = Instant(t: real, frame: Frame)

  /** Everything a run emits, in order. */
  function Emissions(run: seq<Instant>, cfg: EmitConfig): seq<Emission> {
    if run == [] then [] else
    var last := run[|run| - 1];
    var pdus := FramePdus(last.frame, cfg, last.t);
    Emissions(run[..|run| - 1], cfg) + seq(|pdus|, i requires 0 <= i < |pdus| => Emission(last.t, pdus[i]))
  }

  function LastTime(es: seq<Emission>, id: EntityId): Option<real> {
    if es == [] then None else
    var last := es[|es| - 1];
    if last.pdu.e.id == id then Some(last.t) else LastTime(es[..|es| - 1], id)
  }

  /** Consecutive PDUs of an entity are in order and at most 1800 seconds apart. */
  ghost predicate Steady(es: seq<Emission>) {
    forall i :: 0 <= i < |es| ==>
      var prev := LastTime(es[..i], es[i].pdu.e.id);
      prev.Some? ==> prev.value <= es[i].t <= prev.value + 1800.0
  }

  function Stamps(es: seq<Emission>): (stamps: seq<Stamp>)
    ensures |stamps| == |es|
    ensures forall i :: 0 <= i < |es| ==> stamps[i] == Stamp(Pack48(es[i].pdu.e.id), TrueTicks(es[i].t))
  {
    seq(|es|, i requires 0 <= i < |es| => Stamp(Pack48(es[i].pdu.e.id), TrueTicks(es[i].t)))
  }

  lemma {:induction false} LastTickOfLastTime(es: seq<Emission>, id: EntityId)
    ensures LastTick(Stamps(es), Pack48(id))
      == match LastTime(es, id) case None => None case Some(t) => Some(TrueTicks(t))
  {
    hide TrueTicks, Pack48;
    if es != [] {
      var n := |es| - 1;
      LastTickOfLastTime(es[..n], id);
      assert Stamps(es)[..n] == Stamps(es[..n]);
      UnpackPack(es[n].pdu.e.id);
      UnpackPack(id);
    }
  }

  lemma {:induction false} SteadyIsInOrder(es: seq<Emission>)
    requires Steady(es)
    ensures InOrder(Stamps(es))
  {
    hide TrueTicks, Pack48, LastTime, LastTick;
    forall i | 0 <= i < |es|
      ensures var prev := LastTick(Stamps(es)[..i], Stamps(es)[i].packed);
        prev.Some? ==> prev.value <= Stamps(es)[i].tick <= prev.value + HALF_RANGE
    {
      assert Stamps(es)[..i] == Stamps(es[..i]);
      LastTickOfLastTime(es[..i], es[i].pdu.e.id);
      var prev := LastTime(es[..i], es[i].pdu.e.id);
      if prev.Some? {
        HalfHourIsHalfRange(prev.value, es[i].t);
      }
    }
  }

  lemma {:induction false} TimestampsCarryTicks(run: seq<Instant>, cfg: EmitConfig, i: nat)
    requires i < |Emissions(run, cfg)|
    ensures var e := Emissions(run, cfg)[i]; e.pdu.timestamp / 2 == TrueTicks(e.t) % TICK_RANGE
  {
    hide TrueTicks, HourTicks;
    var last := run[|run| - 1];
    HourTicksWrap(last.t);
    if i < |Emissions(run[..|run| - 1], cfg)| {
      TimestampsCarryTicks(run[..|run| - 1], cfg, i);
    }
  }

  /** The receiver accepts every PDU of an emitted run, however many hours it spans. */
  lemma {:induction false} EmittedRunsSurvive(run: seq<Instant>, cfg: EmitConfig, i: nat)
    requires Steady(Emissions(run, cfg)) && i < |Emissions(run, cfg)|
    ensures var es := Emissions(run, cfg);
      !StaleTicks(TableAfter(Stamps(es[..i])), Pack48(es[i].pdu.e.id), es[i].pdu.timestamp / 2)
  {
    hide TrueTicks, Pack48, Emissions, StaleTicks, TableAfter, InOrder, Steady;
    var es := Emissions(run, cfg);
    SteadyIsInOrder(es);
    StreamsSurviveWrap(Stamps(es));
    TimestampsCarryTicks(run, cfg, i);
    assert Stamps(es)[..i] == Stamps(es[..i]);
  }

  // ----- the receiver's own run -----

  /** The datagrams of some emissions, for a receiver that listens to their exercise. */
  ghost predicate Sent(rcfg: Config, es: seq<Emission>, ds: seq<bytes>) {
    && |ds| == |es|
    && forall i :: 0 <= i < |es| ==>
         ds[i] == Marshal(es[i].pdu) && (rcfg.exercise.Some? ==> rcfg.exercise.value == es[i].pdu.exercise)
         && es[i].pdu.timestamp / 2 == TrueTicks(es[i].t) % TICK_RANGE
  }

  /** Only staleness can keep such a datagram from being accepted. */
  lemma {:induction false} JudgedByTicks(rcfg: Config, tr: Tracker, p: Pdu)
    requires rcfg.exercise.Some? ==> rcfg.exercise.value == p.exercise
    ensures Ticks(Marshal(p)) == p.timestamp / 2
    ensures Judge(rcfg, tr, Marshal(p)) ==
      if StaleTicks(tr.lastTs, Pack48(p.e.id), p.timestamp / 2) then Dropped(Store.Stale) else Accepted(p.e)
  {
    hide StaleTicks, Pack48, Be32, Unmarshal, HeaderBytes, EntityBytes, MotionBytes;
    UnmarshalMarshal(p);
  }

  /** The receiver's timestamp table is the one its timestamps alone give. */
  lemma {:induction false} AfterIsTable(rcfg: Config, es: seq<Emission>, ds: seq<bytes>)
    requires Sent(rcfg, es, ds)
    ensures After(rcfg, Fresh(), ds).lastTs == TableAfter(Stamps(es))
  {
    hide TrueTicks, Pack48, StaleTicks, Judge, Marshal, Fold, Ticks;
    if es != [] {
      var n := |es| - 1;
      assert Sent(rcfg, es[..n], ds[..n]);
      AfterIsTable(rcfg, es[..n], ds[..n]);
      assert Stamps(es)[..n] == Stamps(es[..n]);
      var tr := After(rcfg, Fresh(), ds[..n]);
      assert ds[n] == Marshal(es[n].pdu);
      JudgedByTicks(rcfg, tr, es[n].pdu);
    }
  }

  /** Sent in order, every PDU of an emitted run is accepted by the receiver, however many hours it spans. */
  lemma {:induction false} EmittedRunsAccepted(run: seq<Instant>, cfg: EmitConfig, rcfg: Config, ds: seq<bytes>,
                                               i: nat)
    requires Steady(Emissions(run, cfg)) && i < |Emissions(run, cfg)| == |ds|
    requires forall k :: 0 <= k < |ds| ==> ds[k] == Marshal(Emissions(run, cfg)[k].pdu)
    requires rcfg.exercise.Some? ==> rcfg.exercise.value == cfg.exercise
    ensures Judge(rcfg, After(rcfg, Fresh(), ds[..i]), ds[i]) == Accepted(Emissions(run, cfg)[i].pdu.e)
  {
    hide TrueTicks, Pack48, Emissions, StaleTicks, TableAfter, Steady, Marshal, Judge, After;
    var es := Emissions(run, cfg);
    forall k | 0 <= k < |es|
      ensures es[k].pdu.timestamp / 2 == TrueTicks(es[k].t) % TICK_RANGE && es[k].pdu.exercise == cfg.exercise
    {
      TimestampsCarryTicks(run, cfg, k);
      ExerciseSent(run, cfg, k);
    }
    assert Sent(rcfg, es[..i], ds[..i]);
    AfterIsTable(rcfg, es[..i], ds[..i]);
    EmittedRunsSurvive(run, cfg, i);
    JudgedByTicks(rcfg, After(rcfg, Fresh(), ds[..i]), es[i].pdu);
  }

  lemma {:induction false} ExerciseSent(run: seq<Instant>, cfg: EmitConfig, i: nat)
    requires i < |Emissions(run, cfg)|
    ensures Emissions(run, cfg)[i].pdu.exercise == cfg.exercise
  {
    hide TrueTicks, HourTicks, EntityKind;
    var last := run[|run| - 1];
    if i < |Emissions(run[..|run| - 1], cfg)| {
      ExerciseSent(run[..|run| - 1], cfg, i);
    }
  }
}
