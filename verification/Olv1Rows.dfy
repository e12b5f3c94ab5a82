/** What an OLV1 run shows: the rows and the satellite, from the decoded datagrams alone. */
module Olv1Rows {
  import opened Bytes
  import opened Records
  import opened Store
  import opened Pipeline
  import opened RunHistory
  import Olv1Codec
  import H = StoreHistory

  /** A packet accepted at a time of each clock. */
  datatype Heard = Heard(pkt: StatePacket, wall: int, mono: int)

  /** The number comes after another: less than half the numbers ahead of it. */
  predicate After(sequence: u32, last: u32) {
    0 < (sequence - last) % TWO32 < 0x8000_0000
  }

  /** The packets accepted in the first `n` steps: those that decode and are numbered after the last one. */
  ghost function Accepted(states: seq<System>, actions: seq<Action>, n: nat): seq<Heard>
    requires IsRun(states, actions) && n <= |actions|
  {
    if n == 0 then [] else
    var hs := Accepted(states, actions, n - 1);
    if !actions[n - 1].Settle? then hs else
    var r := Olv1Codec.Decode(states[n - 1].inflight.value);
    if r.Ok? && Follows(hs, r.value) then hs + [Heard(r.value, actions[n - 1].wall, actions[n - 1].mono)] else hs
  }

  predicate Follows(hs: seq<Heard>, p: StatePacket) {
    hs == [] || After(p.sequence, hs[|hs| - 1].pkt.sequence)
  }

  /** All their records, each with its receive time. */
  function RecordsOf(hs: seq<Heard>): seq<Stored> {
    if hs == [] then [] else
    var last := hs[|hs| - 1];
    RecordsOf(hs[..|hs| - 1]) + H.StampAll(last.pkt.objects, last.mono)
  }

  /** The store holds what the last accepted packet brought. */
  ghost predicate StoreShows(s: Store.State, hs: seq<Heard>) {
    if hs == [] then !s.haveSeq && s.satellite == None && s.lastDataTime == None && s.pending == [] else
    var h := hs[|hs| - 1];
    && s.haveSeq && s.lastSeq == h.pkt.sequence && s.lastDataTime == Some(h.wall) && s.pending == []
    && s.satellite == Some(Satellite(h.pkt.satId, h.pkt.sequence, h.pkt.satPos, h.pkt.satVel))
  }

  lemma RejectsIff(s: Store.State, hs: seq<Heard>, p: StatePacket)
    requires StoreShows(s, hs)
    ensures Rejects(s, p) <==> !Follows(hs, p)
  {
  }

  /** One step of an OLV1 run. */
  lemma {:induction false} StepShows(sys: System, a: Action, hs: seq<Heard>)
    requires Enabled(sys, a) && sys.receiver.Olv1? && StoreShows(sys.store, hs)
    ensures Next(sys, a).receiver.Olv1? && (a.Settle? ==> sys.inflight.Some?)
    ensures var es := EventOf(sys, a);
      var r := if a.Settle? then Olv1Codec.Decode(sys.inflight.value) else Err(Olv1Codec.BadCrc);
      var hs' := if r.Ok? && Follows(hs, r.value) then hs + [Heard(r.value, a.wall, a.mono)] else hs;
      && StoreShows(Next(sys, a).store, hs')
      && |es| == 1 && H.Recorded(sys.store, es[0]) == RecordsOf(hs')[|RecordsOf(hs)|..]
      && RecordsOf(hs) <= RecordsOf(hs')
  {
    hide Olv1Codec.Decode, Rejects, Follows, Upsert, DropExpired, DropOld, Rows;
    if a.Settle? && Olv1Codec.Decode(sys.inflight.value).Ok? {
      var p := Olv1Codec.Decode(sys.inflight.value).value;
      RejectsIff(sys.store, hs, p);
      assert (hs + [Heard(p, a.wall, a.mono)])[..|hs|] == hs;
    }
  }

  /** In every OLV1 run the records the store ever accepted are those of the accepted packets, in order, and it holds
      the satellite of the last. */
  lemma {:induction false} HistoryIsHeard(states: seq<System>, actions: seq<Action>, n: nat, expiry: int)
    requires IsRun(states, actions) && Starts(states[0]) && states[0].store == Initial(expiry)
    requires states[0].receiver.Olv1? && n <= |actions|
    ensures states[n].receiver.Olv1? && StoreShows(states[n].store, Accepted(states, actions, n))
    ensures H.Log(expiry, Events(states, actions, n)) == RecordsOf(Accepted(states, actions, n))
  {
    hide Next, Enabled, EventOf, StoreShows, Follows, Olv1Codec.Decode, Starts, RecordsOf, H.Recorded, H.Log, H.Run;
    if n == 0 {
      NothingHeard(expiry);
    } else {
      HistoryIsHeard(states, actions, n - 1, expiry);
      StoreIsRun(states, actions, n - 1, expiry);
      var sys, a := states[n - 1], actions[n - 1];
      StepShows(sys, a, Accepted(states, actions, n - 1));
      var e := EventOf(sys, a)[0];
      assert EventOf(sys, a) == [e];
      RunAppend(expiry, Events(states, actions, n - 1), e);
      var was, now := RecordsOf(Accepted(states, actions, n - 1)), RecordsOf(Accepted(states, actions, n));
      assert was + now[|was|..] == now;
    }
  }

  lemma NothingHeard(expiry: int)
    ensures StoreShows(Initial(expiry), []) && H.Log(expiry, []) == RecordsOf([])
  {
  }

  /** What a snapshot at `m` of any OLV1 run shows, whatever arrived: the satellite and wall time of the last accepted
      packet, and one row for each id whose last accepted record has not expired, with that record. */
  lemma {:induction false} RowsShowHeard(states: seq<System>, actions: seq<Action>, n: nat, expiry: int, m: int)
    requires IsRun(states, actions) && Starts(states[0]) && states[0].store == Initial(expiry)
    requires states[0].receiver.Olv1? && n <= |actions|
    requires H.ClocksAdvance(Events(states, actions, n) + [H.Snap(m)])
    ensures var hs, snap := Accepted(states, actions, n), SnapshotOf(states[n].store, m);
      var rows := snap.objects;
      && (if hs == [] then snap.satellite == None && snap.lastDataTime == None else
          var h := hs[|hs| - 1];
          && snap.lastDataTime == Some(h.wall)
          && snap.satellite == Some(Satellite(h.pkt.satId, h.pkt.sequence, h.pkt.satPos, h.pkt.satVel)))
      && (forall i, j :: 0 <= i < j < |rows| ==> rows[i].id < rows[j].id)
      && (forall i :: 0 <= i < |rows| ==> LastUnexpired(hs, rows[i].id, m, expiry) == Some(rows[i]))
      && (forall id :: LastUnexpired(hs, id, m, expiry).Some? ==> exists i :: 0 <= i < |rows| && rows[i].id == id)
  {
    hide Next, Enabled, Events, Accepted, Starts, H.Log, H.Latest, H.ClocksAdvance, RecordsOf, Rows, DropExpired;
    hide DropOld, H.Run;
    HistoryIsHeard(states, actions, n, expiry);
    RunShowsHistory(states, actions, n, expiry, m);
    var hs := Accepted(states, actions, n);
    forall id
      ensures H.Shown(expiry, Events(states, actions, n), m, id) == LastUnexpired(hs, id, m, expiry)
    {
    }
  }

  /** The last record accepted for an id, unless it has expired at `m`. */
  function LastUnexpired(hs: seq<Heard>, id: int, m: int, expiry: int): Option<ObjectRecord> {
    match H.Latest(RecordsOf(hs), id)
    case None => None
    case Some(st) => if m - st.lastUpdate <= expiry then Some(st.obj) else None
  }
}
