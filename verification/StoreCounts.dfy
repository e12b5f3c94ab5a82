/** What a run of the store adds up to: its counters, its last data time, and the satellite of packets. */
module StoreCounts {
  import opened Records
  import opened Store
  import opened StoreHistory

  /** The accepted operations of a run, in order. */
  function AcceptedEvents(expiry: int, evs: seq<Event>): seq<Event> {
    if evs == [] then [] else
    var n := |evs| - 1;
    AcceptedEvents(expiry, evs[..n]) + if Accepts(Run(expiry, evs[..n]), evs[n]) then [evs[n]] else []
  }

  function CountOf(evs: seq<Event>, p: Event -> bool): nat {
    if evs == [] then 0 else CountOf(evs[..|evs| - 1], p) + if p(evs[|evs| - 1]) then 1 else 0
  }

  function BytesOf(evs: seq<Event>): nat {
    if evs == [] then 0 else BytesOf(evs[..|evs| - 1]) + if evs[|evs| - 1].Received? then evs[|evs| - 1].n else 0
  }

  /** In every run the counters count what happened: datagrams and their bytes, accepted operations, datagrams
      dropped as malformed, and those dropped as stale together with packets the store refused. */
  lemma {:induction false} StatsCountHistory(expiry: int, evs: seq<Event>)
    ensures var t := Run(expiry, evs).stats;
      && t.received == CountOf(evs, (e: Event) => e.Received?) && t.bytes == BytesOf(evs)
      && t.accepted == |AcceptedEvents(expiry, evs)|
      && t.malformed == CountOf(evs, (e: Event) => e == Dropped(Malformed))
      && t.stale + t.accepted
         == CountOf(evs, (e: Event) => e == Dropped(Stale)) + CountOf(evs, (e: Event) => e.Packet? || e.Track?)
  {
    hide Rejects, Upsert, ReplacesSatellite, DropExpired, DropOld;
    if evs != [] {
      StatsCountHistory(expiry, evs[..|evs| - 1]);
    }
  }

  /** The last data time is the wall time of the last accepted operation, and a satellite sent in packets is that of
      the last accepted one. */
  lemma {:induction false} LastAcceptedShows(expiry: int, evs: seq<Event>)
    ensures var s, all := Run(expiry, evs), AcceptedEvents(expiry, evs);
      if all == [] then s.lastDataTime == None && s.satellite == None else
      var last := all[|all| - 1];
      && (last.Packet? || last.Track?) && s.lastDataTime == Some(last.wall)
      && (last.Packet? ==>
            s.satellite == Some(Satellite(last.pkt.satId, last.pkt.sequence, last.pkt.satPos, last.pkt.satVel)))
  {
    hide Rejects, Upsert, ReplacesSatellite, DropExpired, DropOld;
    if evs != [] {
      LastAcceptedShows(expiry, evs[..|evs| - 1]);
    }
  }
}
