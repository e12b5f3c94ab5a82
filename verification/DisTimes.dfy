/** Which PDUs a DIS receiver accepts, by the true tick counts of a delivery trace. */
module DisTimes {
  import opened Bytes
  import opened Records
  import opened DisIds
  import opened DisWire
  import opened DisSource
  import Store

  // ----- the law -----

  /** An Entity State PDU of an accepted version and of the configured exercise, all there. */
  predicate Valid(cfg: Config, d: bytes) {
    && |d| >= 12 && 5 <= d[0] <= 7 && (cfg.exercise.Some? ==> d[1] == cfg.exercise.value) && d[2] == 1
    && Unmarshal(d).Some?
  }

  /** A well formed header, but of another exercise or another kind of PDU. */
  predicate Foreign(cfg: Config, d: bytes) {
    && |d| >= 12 && 5 <= d[0] <= 7 && ((cfg.exercise.Some? && d[1] != cfg.exercise.value) || d[2] != 1)
  }

  /** Where a tick count falls in the hour of another. */
  function InHourOf(tick: nat, last: nat): int {
    last - last % TICK_RANGE + tick % TICK_RANGE
  }

  /** Seen in the hour of the last accepted one: behind it, by less than half an hour, and not at the full hour. */
  predicate Late(tick: nat, last: nat) {
    var seen := InHourOf(tick, last);
    tick % TICK_RANGE != 0 && seen < last && 2 * (last - seen) < TICK_RANGE
  }

  /** Every datagram carries its true tick count modulo the range, below a flag bit. */
  ghost predicate Timed(ds: seq<bytes>, ticks: seq<nat>) {
    |ds| == |ticks| && forall i :: 0 <= i < |ds| && |ds[i]| >= 12 ==> Be32(ds[i], 4) / 2 == ticks[i] % TICK_RANGE
  }

  /** The true tick count of the last PDU kept of an entity among the first `n` datagrams. */
  function LastKept(cfg: Config, ds: seq<bytes>, ticks: seq<nat>, n: nat, id: EntityId): Option<nat>
    requires n <= |ds| == |ticks|
  {
    if n == 0 then None else
    var last := LastKept(cfg, ds, ticks, n - 1, id);
    if !Valid(cfg, ds[n - 1]) || Unmarshal(ds[n - 1]).value.id != id then last
    else if last.Some? && Late(ticks[n - 1], last.value) then last
    else Some(ticks[n - 1])
  }

  /** The receiver's table holds what was kept, modulo the range. */
  ghost predicate TableHolds(lastTs: map<int, int>, cfg: Config, ds: seq<bytes>, ticks: seq<nat>, n: nat)
    requires n <= |ds| == |ticks|
  {
    forall id: EntityId :: var last := LastKept(cfg, ds, ticks, n, id);
      && (Pack48(id) in lastTs <==> last.Some?)
      && (last.Some? ==> lastTs[Pack48(id)] == last.value % TICK_RANGE)
  }

  lemma {:induction false} StaleIffLate(lastTs: map<int, int>, packed: int, tick: nat, last: nat)
    requires packed in lastTs && lastTs[packed] == last % TICK_RANGE
    ensures StaleTicks(lastTs, packed, tick % TICK_RANGE) <==> Late(tick, last)
  {
  }

  /** One datagram. */
  lemma {:induction false} JudgedByLaw(cfg: Config, tr: Tracker, d: bytes, tick: nat, last: Option<nat>)
    requires |d| >= 12 ==> Be32(d, 4) / 2 == tick % TICK_RANGE
    requires Unmarshal(d).Some? ==>
      var packed := Pack48(Unmarshal(d).value.id);
      (packed in tr.lastTs <==> last.Some?) && (last.Some? ==> tr.lastTs[packed] == last.value % TICK_RANGE)
    ensures Judge(cfg, tr, d).Accepted? <==> Valid(cfg, d) && !(last.Some? && Late(tick, last.value))
    ensures Judge(cfg, tr, d).Accepted? ==> Judge(cfg, tr, d).e == Unmarshal(d).value
    ensures Judge(cfg, tr, d) == Dropped(Store.Stale) <==> Valid(cfg, d) && last.Some? && Late(tick, last.value)
  {
    hide Unmarshal, Pack48, StaleTicks, Late, Be32;
    if Valid(cfg, d) && last.Some? {
      StaleIffLate(tr.lastTs, Pack48(Unmarshal(d).value.id), tick, last.value);
    }
    assert Valid(cfg, d) && last.None? ==> !StaleTicks(tr.lastTs, Pack48(Unmarshal(d).value.id), Ticks(d)) by {
      if Valid(cfg, d) && last.None? {
        NotHeardNotStale(tr.lastTs, Pack48(Unmarshal(d).value.id), Ticks(d));
      }
    }
  }

  lemma NotHeardNotStale(lastTs: map<int, int>, packed: int, ts: nat)
    requires packed !in lastTs
    ensures !StaleTicks(lastTs, packed, ts)
  {
  }

  lemma {:induction false} TableFollows(cfg: Config, ds: seq<bytes>, ticks: seq<nat>, n: nat)
    requires Timed(ds, ticks) && n <= |ds|
    ensures TableHolds(After(cfg, Fresh(), ds[..n]).lastTs, cfg, ds, ticks, n)
  {
    hide Unmarshal, Pack48, Judge, Late, Be32, Fold, Valid;
    if n > 0 {
      TableFollows(cfg, ds, ticks, n - 1);
      assert ds[..n][..n - 1] == ds[..n - 1];
      var tr, d := After(cfg, Fresh(), ds[..n - 1]), ds[n - 1];
      var next := After(cfg, Fresh(), ds[..n]);
      assert next == AfterDatagram(cfg, tr, d);
      if Unmarshal(d).Some? {
        var id := Unmarshal(d).value.id;
        var last := LastKept(cfg, ds, ticks, n - 1, id);
        JudgedByLaw(cfg, tr, d, ticks[n - 1], last);
        AcceptedTicks(cfg, tr, d, ticks[n - 1]);
        forall other: EntityId
          ensures Pack48(other) == Pack48(id) <==> other == id
        {
          UnpackPack(other);
          UnpackPack(id);
        }
      } else {
        JudgedByLaw(cfg, tr, d, ticks[n - 1], None);
        NotValid(cfg, d);
      }
    } else {
      NothingKept(cfg, ds, ticks);
    }
  }

  lemma NotValid(cfg: Config, d: bytes)
    requires Unmarshal(d).None?
    ensures !Valid(cfg, d)
  {
    hide Unmarshal;
  }

  lemma NothingKept(cfg: Config, ds: seq<bytes>, ticks: seq<nat>)
    requires |ds| == |ticks|
    ensures TableHolds(After(cfg, Fresh(), ds[..0]).lastTs, cfg, ds, ticks, 0)
  {
  }

  /** What accepting a datagram does to the table. */
  lemma {:induction false} AcceptedTicks(cfg: Config, tr: Tracker, d: bytes, tick: nat)
    requires |d| >= 12 ==> Be32(d, 4) / 2 == tick % TICK_RANGE
    ensures var v, next := Judge(cfg, tr, d), AfterDatagram(cfg, tr, d).lastTs;
      if v.Accepted? then next == tr.lastTs[Pack48(v.e.id) := tick % TICK_RANGE] else next == tr.lastTs
  {
    hide Unmarshal, Pack48, StaleTicks, Be32, Fold;
  }

  /** For any delivery trace, in any order: a PDU is accepted exactly when it is valid and not late against the last
      one kept of its entity, and dropped as stale exactly when it is valid and late. */
  lemma {:induction false} AcceptedIff(cfg: Config, ds: seq<bytes>, ticks: seq<nat>, i: nat)
    requires Timed(ds, ticks) && i < |ds|
    ensures var v := Judge(cfg, After(cfg, Fresh(), ds[..i]), ds[i]);
      if !Valid(cfg, ds[i]) then v == (if Foreign(cfg, ds[i]) then Ignored else Dropped(Store.Malformed)) else
      var last := LastKept(cfg, ds, ticks, i, Unmarshal(ds[i]).value.id);
      v == if last.Some? && Late(ticks[i], last.value) then Dropped(Store.Stale) else Accepted(Unmarshal(ds[i]).value)
  {
    hide Unmarshal, Pack48, Judge, Late, Be32, After, Valid, LastKept;
    TableFollows(cfg, ds, ticks, i);
    var tr := After(cfg, Fresh(), ds[..i]);
    if Unmarshal(ds[i]).Some? {
      JudgedByLaw(cfg, tr, ds[i], ticks[i], LastKept(cfg, ds, ticks, i, Unmarshal(ds[i]).value.id));
    } else {
      NotValid(cfg, ds[i]);
    }
    if !Valid(cfg, ds[i]) {
      InvalidPdu(cfg, tr, ds[i]);
    }
  }

  lemma InvalidPdu(cfg: Config, tr: Tracker, d: bytes)
    requires !Valid(cfg, d)
    ensures Judge(cfg, tr, d) == if Foreign(cfg, d) then Ignored else Dropped(Store.Malformed)
  {
    hide Unmarshal, Pack48, StaleTicks, Be32;
  }

  /** What is kept of an entity moves back within an hour only by half the range or more, or to the full hour. */
  lemma {:induction false} KeptMovesForward(cfg: Config, ds: seq<bytes>, ticks: seq<nat>, n: nat, id: EntityId)
    requires n < |ds| == |ticks|
    requires LastKept(cfg, ds, ticks, n, id).Some?
    ensures var last, next := LastKept(cfg, ds, ticks, n, id).value, LastKept(cfg, ds, ticks, n + 1, id);
      && next.Some?
      && (next.value / TICK_RANGE == last / TICK_RANGE && next.value % TICK_RANGE != 0 ==>
            next.value >= last || last - next.value >= HALF_RANGE)
  {
    hide Unmarshal, Valid, Late;
    var last := LastKept(cfg, ds, ticks, n, id).value;
    if ticks[n] / TICK_RANGE == last / TICK_RANGE {
      LateInHour(ticks[n], last);
    }
  }

  // ----- what the law means -----

  /** Within an hour: late exactly when behind, by less than half the range, and not at the full hour. */
  lemma LateInHour(tick: nat, last: nat)
    requires tick / TICK_RANGE == last / TICK_RANGE
    ensures Late(tick, last) <==> tick % TICK_RANGE != 0 && tick < last < tick + HALF_RANGE
  {
  }

  /** From the hour before: late only when more than an hour behind, so a PDU that is overtaken across the full hour
      is accepted. */
  lemma LateFromHourBefore(tick: nat, last: nat)
    requires tick / TICK_RANGE + 1 == last / TICK_RANGE
    ensures Late(tick, last) <==> tick % TICK_RANGE != 0 && tick + TICK_RANGE < last < tick + TICK_RANGE + HALF_RANGE
  {
  }

  /** In the next hour: late exactly when the entity was silent for more than half the range, and less than all of
      it: such PDUs are refused although they are new. */
  lemma LateInNextHour(tick: nat, last: nat)
    requires tick / TICK_RANGE == last / TICK_RANGE + 1
    ensures Late(tick, last) <==> tick % TICK_RANGE != 0 && last + HALF_RANGE < tick < last + TICK_RANGE
  {
  }
}
