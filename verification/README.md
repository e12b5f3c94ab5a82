# Orbital viewer: verified model of the telemetry pipeline

A Dafny model of the path a sample takes from the simulator to the browser, with proofs about every stage and about
the stages joined together:

- the OLV1 and OLV2 datagram codecs and their CRC-32 (clause 3.2.9 of IEEE 802.3, section 8 of RFC 1952);
- the simulator's frame grouping, OLV1 chunking, OLV2 batching and DIS emission;
- the three input sources and the shared state store, as a system of two threads whose steps are the store's locked
  operations;
- the broadcast side: the bounded outbox of each client, the message text, and what the viewer parses out of it
  (sections 2 to 7 of RFC 8259);
- the configuration parser;
- the viewer's trails and their vertex buffer.

Numbers are what the program stores. A `double` or `float` on the wire is its bit pattern (section 3.4 of
IEEE 754-2008), and `Floats` proves that comparing patterns compares the numbers. Unsigned fields are bounded integers
that wrap where the program wraps. Code that updates state is a class or a loop, proved equal to a function of the
old state; the properties are then proved about those functions, over whole runs.

## Files

| file | contents |
|---|---|
| `ByteNumbers`, `Bytes`, `Words`, `Floats`, `Records`, `Collections`, `SortedKeys`, `Decimal` | bytes and little-endian fields, machine words, IEEE 754 patterns, shared records, witnesses for sets and maps, sorted key lists, decimal digits |
| `Crc`, `CrcCheck`, `Olv1Codec`, `Olv2Codec`, `WireLayout` | CRC-32 and its check value, encoders and decoders, the documented layouts and verdicts |
| `Store`, `StoreHistory`, `StoreCounts`, `SequenceWrap` | the store, its runs against the unpruned history, its counters, sequence wrap-around |
| `Olv1Source`, `Olv2Source`, `DisIds`, `DisWire`, `DisSource`, `DisTimes` | the input sources, the wire form of a DIS PDU, and which PDUs of a delivery trace are accepted |
| `Pipeline`, `RunHistory`, `Olv1Rows`, `Olv2Rows`, `Olv2Queue`, `DisRows`, `DisShown` | the two-thread system, its runs as runs of the store, and what the snapshots of a run show of the datagrams heard |
| `Frames`, `FrameGrouping`, `FrameRows`, `PacketBuilder`, `PacketRuns`, `Batcher`, `DisBuilder`, `EndToEnd`, `TrackRows`, `DisEndToEnd` | the simulator's builders, and the simulator joined to the receiver |
| `Sessions`, `BroadcastServer`, `Delivery`, `TickStats`, `Shedding`, `SlowClient` | outboxes, the broadcaster between store and sessions, what each client reads of a whole run, what a tick's statistics say, where every tick went, and a run that loses one |
| `Json`, `Printf`, `StateMessage`, `ClientMessage`, `ClientAccepts`, `MessageRoundTrip`, `SnapshotFits`, `SpoiledFrames`, `Broadcasts`, `DisBroadcasts`, `SpoilingInputs`, `Viewer` | the broadcast text, the viewer's parser, which texts it takes, when the two agree, when a text is not JSON, inputs that make it so, and the whole path from samples to the viewer |
| `Toml`, `TomlScalars`, `TomlLines`, `TomlRoundTrip`, `TomlSample` | the configuration parser, the tokens and lines it accepts, documents that parse back, and a passage of the shipped configuration |
| `Trails`, `TrailRuns`, `OwnTrails`, `TrailBuffer`, `BufferSegments`, `ViewerTrails`, `Jitter` | trail rings, what server-fed and other trails hold after whole runs, the two-pass vertex buffer and the segments in it, the trails of a client, and a run in which jitter loses a point |

## Results worth knowing

- **Sample times are not bounded by validation.** `src/json_writer.cpp:15-16` says protocol validation bounds every
  printed value. The OLV2 decoder only asks of a sample time that it is finite, positive and later than the one
  before (`include/olv/protocol_olv2.hpp:229-245`), and the text buffer holds 47 characters. With the sign counted as
  a digit, a number of up to 45 or of exactly 47 digits before the point is read back: what is cut off are zeros,
  since a `double` of that size is an integer. From 48 digits on the value changes. With exactly 46 the buffer ends in
  a bare point and the whole frame stops being JSON: `SpoilingInputs.AcceptedTimeSpoilsFrame` gives a run with an
  accepted datagram that does so. `MessageRoundTrip.RecoversIffSurvives` and `SnapshotFits.RecoveredIffPrints` say
  exactly when the viewer does recover a snapshot, and `SpoiledFrames.UnreadableIff` exactly when it is not JSON.
- **A non-finite value spoils the frame.** Nothing checks the values of DIS mode, nor the velocity estimated from two
  close samples, and one infinity makes the message unreadable. `SpoilingInputs.NonFinitePduSpoilsFrame` says so for
  every accepted PDU of every DIS run, `SpoilingInputs.InfinitePduSpoilsFrame` gives the bytes of one for every entity;
  `SpoilingInputs.EstimateSpoilsFrame` does the same for every accepted OLV2 datagram whose velocity estimate is not
  finite, and `SpoilingInputs.CloseSamplesSpoilFrame` gives one. The exact conditions over whole runs are
  `DisBroadcasts.DisBroadcastsAreRecoveredIff` and `DisBroadcasts.DisBroadcastUnreadableIff`,
  `Broadcasts.Olv2BroadcastsAreRecoveredIff` and `Broadcasts.Olv2BroadcastUnreadableIff`.
- **A client whose outbox is full when a tick comes loses trail points for good.** Each drained point is sent once, and
  an outbox sheds frames beyond five. `Shedding.EveryTickAccounted` says where each tick went, client by client;
  `Shedding.ReadsAllIff` and `Shedding.SamplesReachClient` say exactly when a client has read everything, by the ticks
  that found its outbox full; `SlowClient.SlowClientLosesPoints` is a run that loses the points of any accepted
  datagram.
- **Jitter loses trail points.** The viewer maps a sample time by the clocks of its own message and drops what does not
  move the trail forward (`frontend/js/renderer.js:951-952`). A point whose message comes enough less late than the one
  before is dropped although sample times and clocks ascend: `Jitter.LessLateLosesPoint` is such a run.
  `ViewerTrails.EveryPointEntersIff` says exactly when every point a client reads enters its trail.
- **DIS timestamps around the full hour.** Staleness compares ticks of the hour (`src/dis_input_source.cpp:152-156`).
  Within an hour exactly the PDUs that are 1 to 2^30 - 1 ticks behind are refused. Across the full hour the test goes
  both ways wrong: a PDU overtaken by one of the next hour is accepted and moves the row back
  (`DisTimes.LateFromHourBefore`), and a new PDU is refused after a silence of more than half an hour and less than a
  whole one that spans the full hour (`DisTimes.LateInNextHour`). `DisTimes.AcceptedIff` is the exact verdict for every
  delivery trace.
- **Reserved header fields are not checked.** `docs/PROTOCOL_UDP.md:51` and `docs/PROTOCOL_OLV2.md:66` require
  `hdr_flags` to be zero; neither decoder looks at it (`Olv1Codec.ReservedIgnored`, `Olv2Codec.ReservedIgnored`), so a
  packet is taken with any value in it (`AnyFlagsAccepted` in both modules). The model follows the code.
- **Encoding an OLV2 packet without points** gives a datagram that its own decoder reports as too short, not as having
  a bad point count (`Olv2Codec.DecodeEncode`).
- **A star sent over DIS arrives as an unknown object** (`DisBuilder.TypeSurvivesIff`), as the emitter's comment says.

## Model

| member | source | states |
|---|---|---|
| `Crc.MakeCrcTable` | include/olv/protocol.hpp:159-169 | every table entry is eight division steps of its index |
| `Crc.StepsLinear` | include/olv/protocol.hpp:163-165 | any number of division steps is linear over exclusive or |
| `Crc.TableStep` | include/olv/protocol.hpp:239-241 | one lookup and a shift equals clocking the eight message bits of a byte through the reflected register |
| `Crc.ComputeCrc32` | include/olv/protocol.hpp:237-243 | the table-driven loop computes the bit-serial CRC of every byte string |
| `CrcCheck.CheckValue` | test/test_protocol.cpp:56-59 | the CRC of the ASCII digits 1 to 9 is 0xCBF43926 |
| `Crc.FramedIffResidue` | include/olv/protocol.hpp:321-322 | a datagram carries its own CRC exactly when the register over all of it ends in one constant residue |
| `Crc.BurstDetected` | include/olv/protocol.hpp:237-243 | damage within four consecutive bytes, trailer included, always breaks the CRC |
| `Bytes.LeValuePut` | include/olv/protocol.hpp:175-214 | reading a little-endian field gives back what was put, modulo its width |
| `Bytes.Put` | include/olv/protocol.hpp:175-199 | the put loops append exactly the little-endian bytes |
| `Bytes.Get` | include/olv/protocol.hpp:201-221 | the get loop reads exactly the field at an offset |
| `Floats.KeyOrdersValues` | include/olv/protocol_olv2.hpp:242-245 | for finite patterns, ordering by sign and magnitude bits is the order of the numbers |
| `Floats.RangeIsTenToThe13` | include/olv/protocol.hpp:230-233 | the range test on patterns is \|x\| <= 10^13 of the exact value |
| `Olv1Codec.EncodePacket` | include/olv/protocol.hpp:253-293 | the pushing loops produce exactly the documented layout with its CRC |
| `Olv1Codec.DecodePacket` | include/olv/protocol.hpp:304-369 | accepts and rejects exactly as the ordered rules say, with the first broken rule as the error, and never a partial packet |
| `Olv1Codec.DecodeEncode` | include/olv/protocol.hpp:253-369 | decoding an encoding gives exactly the truncated, clamped, normalised packet, or the first rule that form breaks |
| `Olv1Codec.SurvivesIff` | include/olv/protocol.hpp:313-364 | a packet survives the wire if and only if min(objects, 128) <= min(total, 5000) and its values are finite and in range |
| `Olv1Codec.DecodedIsNormal` | include/olv/protocol.hpp:304-369 | whatever is accepted is in normal form, passes every check and has the one possible length |
| `Olv1Codec.DecodeEncodeDecode` | include/olv/protocol.hpp:253-369 | re-encoding an accepted datagram and decoding again gives the same packet |
| `Olv1Codec.BurstRejected` | include/olv/protocol.hpp:321-322 | an encoded datagram damaged within four consecutive bytes never decodes |
| `Olv1Codec.ReservedIgnored` | include/olv/protocol.hpp:304-322 | two framed datagrams that differ only in the reserved field, bytes 6 and 7, and in the CRC decode alike |
| `Olv1Codec.AnyFlagsAccepted` | include/olv/protocol.hpp:304-322 | a packet sent with any value in the reserved field, which docs/PROTOCOL_UDP.md:51 requires to be zero, decodes like one sent with zero |
| `WireLayout.Olv1Layout` | docs/PROTOCOL_UDP.md:43-90 | an encoded packet has each field at its documented offset, whatever the packet: counts cut to 128 and 5000, confidence to 100, zeros in the reserved fields, the CRC last |
| `WireLayout.Olv1Judged` | include/olv/protocol.hpp:304-369 | for any bytes, the verdict by the documented numbers: sizes 60 to 6204, magic, version, type, counts, exact length, CRC, then satellite and first bad record |
| `WireLayout.Olv1Limits` | include/olv/protocol.hpp:323-369 | what is accepted has at most 128 objects and no more than its total, a total of at most 5000, known types and confidence at most 100 |
| `Olv2Codec.EncodePacket` | include/olv/protocol_olv2.hpp:132-172 | the point loop produces exactly the documented layout with its CRC |
| `Olv2Codec.DecodePacket` | include/olv/protocol_olv2.hpp:183-249 | the two loops accept and reject exactly as the ordered rules say: finiteness and range of all points before time order |
| `Olv2Codec.DecodeEncode` | include/olv/protocol_olv2.hpp:132-249 | decoding an encoding gives exactly the normal form or the first rule it breaks |
| `Olv2Codec.SurvivesIff` | include/olv/protocol_olv2.hpp:192-245 | a packet survives if and only if its first 25 points exist, are finite, in range and strictly ascending from a positive time |
| `Olv2Codec.DecodedIsNormal` | include/olv/protocol_olv2.hpp:183-249 | whatever is accepted is in normal form, within all limits and of the one possible length |
| `Olv2Codec.DecodeEncodeDecode` | include/olv/protocol_olv2.hpp:132-249 | re-encoding an accepted datagram and decoding again gives the same packet |
| `Olv2Codec.BurstRejected` | include/olv/protocol_olv2.hpp:170-198 | an encoded datagram damaged within four consecutive bytes never decodes |
| `Olv2Codec.ReservedIgnored` | include/olv/protocol_olv2.hpp:183-198 | two framed datagrams that differ only in the reserved field, bytes 6 and 7, and in the CRC decode alike |
| `Olv2Codec.AnyFlagsAccepted` | include/olv/protocol_olv2.hpp:183-198 | a packet sent with any value in the reserved field, which docs/PROTOCOL_OLV2.md:66 requires to be zero, decodes like one sent with zero |
| `WireLayout.Olv2Layout` | docs/PROTOCOL_OLV2.md:59-106 | an encoded packet has each field at its documented offset, whatever the packet: at most 25 points, confidence cut to 100, unknown flags cleared, zeros in the reserved fields, the CRC last |
| `WireLayout.Olv2Judged` | include/olv/protocol_olv2.hpp:183-249 | for any bytes, the verdict by the documented numbers: sizes 112 to 2128, magic, version, type, 1 to 25 points, exact length, CRC, then the first bad point, and the order of times only if none is bad |
| `WireLayout.Olv2Limits` | include/olv/protocol_olv2.hpp:183-249 | what is accepted has 1 to 25 points, a known type, no flag but highlight and confidence at most 100 |
| `Store.StateStore.CountReceived` | src/state_store.cpp:17-21 | one more datagram and its bytes, nothing else changes |
| `Store.StateStore.CountDropped` | src/state_store.cpp:23-30 | one more in the bucket of its kind, nothing else changes |
| `Store.StateStore.Apply` | src/state_store.cpp:32-60 | rejects exactly a sequence not after the last in serial arithmetic; otherwise upserts all records and replaces the satellite |
| `Store.StateStore.ApplyTrack` | src/state_store.cpp:62-86 | upserts the target, keeps the newer satellite, queues every trail point and drops the oldest beyond 125000 |
| `Store.StateStore.TakeSnapshot` | src/state_store.cpp:88-119 | prunes, returns the rows sorted with rate and statistics, and drains the trail queue |
| `Store.RowsListTable` | src/state_store.cpp:113-116 | the returned rows are strictly ascending by id and are exactly the table's records |
| `StoreHistory.SnapshotShowsHistory` | src/state_store.cpp:50-55 | a snapshot shows exactly the last record ever accepted of each id that is not expired at its time, ascending by id, although earlier snapshots have pruned the table |
| `StoreHistory.RateCountsHistory` | src/state_store.cpp:100-109 | five times the rate is the number of accepts in all history not older than five seconds |
| `StoreHistory.SatelliteIsNewest` | src/state_store.cpp:67-72 | in a run of track updates the satellite is that of the earliest update with the largest sample time |
| `StoreCounts.StatsCountHistory` | src/state_store.cpp:17-86 | in every run of store operations the counters are the numbers of datagrams, bytes, accepted operations, malformed drops, and stale drops together with rejected packets |
| `StoreCounts.LastAcceptedShows` | src/state_store.cpp:45-85 | in every run the last data time is that of the last accepted operation, and after a packet the satellite is the packet's |
| `SequenceWrap.WrapCompares` | src/state_store.cpp:37-41 | within half the sequence space the wrapping test compares the unbounded packet numbers |
| `SequenceWrap.WrapRefinesCounting` | src/state_store.cpp:37-44 | over any number of wraps the accepted packet numbers strictly increase |
| `SequenceWrap.AcceptedIffNewest` | src/state_store.cpp:37-44 | a packet is accepted if and only if its number exceeds every accepted one |
| `Olv1Source.Olv1InputSource.HandleDatagram` | src/olv1_input_source.cpp:53-76 | a datagram is counted and then has exactly one outcome |
| `Olv1Rows.RowsShowHeard` | src/olv1_input_source.cpp:53-76 | in every OLV1 run, whatever arrives: a snapshot shows the satellite and wall time of the last packet accepted, one row for each id whose last accepted record has not expired, equal to that record, and no other rows; accepted are those that decode and are numbered after the last accepted |
| `Olv2Source.Olv2InputSource.ProcessDatagram` | src/olv2_input_source.cpp:71-150 | counted, then malformed, stale for its track, or merged; what a merged one shows is stated by the three rows that follow |
| `Olv2Rows.RowsShowHeard` | src/olv2_input_source.cpp:98-115 | in every OLV2 run, whatever arrives: each row has the target position of the last point of the last datagram accepted for its id, that point's velocity or zero with the flag clear, and the datagram's type, highlight bit and confidence; every id heard of and not expired has a row. Accepted are exactly the datagrams that decode and start after everything accepted for their track |
| `Olv2Rows.LastOfIsNewest` | src/olv2_input_source.cpp:86-96 | that point is the newest ever accepted for the id |
| `Olv2Rows.SatelliteShowsHeard` | src/olv2_input_source.cpp:117-134 | in every OLV2 run a snapshot's satellite is that of the earliest accepted datagram with the newest last point: its id, sequence, satellite position, and velocity as sent, estimated from the last two points, or zero |
| `Olv2Queue.ReportsSince` | src/state_store.cpp:74-118 | in every OLV2 run, whatever arrives: a broadcast reports, with id, time and target position, every point of the datagrams accepted since the last broadcast, in order, or the last 125000 of them |
| `DisIds.UnpackPack` | src/dis_input_source.cpp:44-53 | unpacking a packed 48-bit entity id gives its three fields back |
| `DisIds.FoldEntityId` | src/dis_input_source.cpp:58-69 | the loop computes FNV-1a of the six big-endian id bytes |
| `DisIds.FoldOfFoobar` | src/dis_input_source.cpp:58-69 | the entity whose id bytes spell foobar folds to 0xBF9CF968, the published FNV-1a value |
| `DisIds.TwoRoundsInjective` | src/dis_input_source.cpp:64-67 | from one state, two rounds separate every two pairs of bytes |
| `DisIds.FoldInjective` | src/dis_input_source.cpp:55-69 | within one site and application no two entities share an object id |
| `DisWire.UnmarshalMarshal` | test/test_dis_input_source.cpp:45-80 | unmarshalling a marshalled PDU gives back its entity, type, position and velocity, and the header fields say what was sent |
| `DisWire.MarshalLayout` | test/test_dis_input_source.cpp:45-80 | an Entity State PDU without articulation is 144 bytes with each big-endian field at its offset |
| `DisSource.DisInputSource.IsStale` | src/dis_input_source.cpp:135-157 | answers and records by the ticks of the hour; which PDUs that refuses is `DisTimes.AcceptedIff` |
| `DisTimes.AcceptedIff` | src/dis_input_source.cpp:135-220 | for any delivery trace of true tick counts, in any order and with anything in between: a PDU is accepted if and only if it is a valid Entity State PDU of the exercise and is not late against the last one kept of its entity, where late means: placed in that one's hour it is nonzero and behind by less than half the range; the others are ignored, malformed or stale as stated |
| `DisTimes.LateInHour` | src/dis_input_source.cpp:140-156 | within an hour exactly a nonzero tick 1 to 2^30 - 1 behind the last kept is late |
| `DisTimes.KeptMovesForward` | src/dis_input_source.cpp:140-156 | what is kept of an entity moves back within an hour only by 2^30 ticks or more, or to the full hour |
| `DisTimes.LateFromHourBefore` | src/dis_input_source.cpp:150-156 | against a PDU of the next hour it is late only when more than an hour behind, so a PDU overtaken across the full hour is accepted |
| `DisTimes.LateInNextHour` | src/dis_input_source.cpp:150-156 | a PDU of the next hour is refused exactly when it is not at the full hour and the silence was of more than half the range and less than all of it |
| `DisSource.DisInputSource.ProcessDatagram` | src/dis_input_source.cpp:159-289 | one outcome per datagram; an accepted PDU carries the last satellite and the next synthesized sequence |
| `DisSource.StreamsSurviveWrap` | src/dis_input_source.cpp:135-157 | if true ticks never decrease and advance by at most 2^30, no PDU is ever stale, across any number of hours |
| `DisSource.NeverCollidesIff` | src/dis_input_source.cpp:240-251 | the collision branch is taken in a run if and only if two tracked entities share an object id; if none do, each keeps its own claim |
| `DisSource.OneSiteNeverCollides` | src/dis_input_source.cpp:240-251 | with one site and application every entity keeps its own claim on an object id and the collision branch is never taken |
| `DisRows.LogIsPdus` | src/dis_input_source.cpp:226-283 | the records a DIS run puts into the store are exactly those of its accepted PDUs, in order |
| `DisShown.RecordShows` | src/dis_input_source.cpp:73-81 | the row of an accepted PDU has its position and velocity, full confidence, and the category that the kind and domain table gives |
| `DisShown.SatelliteShowsHeard` | src/dis_input_source.cpp:222-281 | in every DIS run, whatever arrives: a snapshot shows the satellite of the last accepted PDU of the configured entity, carried through all packets since and all zero before the first, numbered by the PDUs accepted, with the time of the last |
| `DisRows.DistinctTable` | src/dis_input_source.cpp:240-283 | when no two tracked entities share an object id, in every state of every run: each row of the store's table belongs to one tracked entity and is its last accepted PDU's, and a tracked entity is missing only after a broadcast found it expired |
| `DisRows.DistinctRows` | src/state_store.cpp:88-119 | what a broadcast of such a run shows: one row for each tracked entity whose last PDU has not expired, made from that PDU, and no other rows |
| `DisRows.OneSiteTable` | src/dis_input_source.cpp:240-283 | with one site and application, the table matches what was heard in every state of every run |
| `DisRows.OneSiteRows` | src/state_store.cpp:88-119 | with one site and application, a broadcast shows one row for each tracked entity whose last PDU has not expired, made from that PDU, and no other rows |
| `RunHistory.RunShowsHistory` | src/state_store.cpp:88-119 | in every mode and every interleaving, a snapshot lists exactly the last accepted records that have not expired |
| `DisBuilder.BuildDisPdus` | tools/simulator/src/dis_builder.cpp:96-122 | the marshalled PDU of the satellite, then one for each object in order, all with the same timestamp |
| `DisEndToEnd.FramePdusShow` | tools/simulator/src/dis_builder.cpp:86-122 | the PDUs of a frame, each with the configured exercise and the frame's tick count: the satellite's position and velocity under its configured entity, then each object in order, whose row at the receiver has its position, velocity and category, a star's being unknown |
| `DisBuilder.HourTicksWrap` | tools/simulator/src/dis_builder.cpp:98-103 | the emitted tick count is the true count modulo 2^31 |
| `DisBuilder.HalfHourIsHalfRange` | tools/simulator/src/dis_builder.cpp:98-103 | half an hour of time is at most 2^30 ticks |
| `DisBuilder.EmittedRunsSurvive` | tools/simulator/src/dis_builder.cpp:96-122 | no timestamp of a run whose PDUs per entity are in order and at most 1800 s apart is stale |
| `DisBuilder.AfterIsTable` | src/dis_input_source.cpp:135-157 | the timestamp table of the receiver's own run is the one those timestamps give |
| `DisBuilder.EmittedRunsAccepted` | src/dis_input_source.cpp:159-220 | the receiver, in its own run, accepts every datagram of such a run and reads from its bytes what was emitted |
| `DisBuilder.TypeSurvivesIff` | tools/simulator/src/dis_builder.cpp:23-50 | every object type but star survives the mapping to DIS and back |
| `DisBuilder.ObjectEntityInjective` | tools/simulator/src/dis_builder.cpp:117-119 | different object ids are sent as different entities |
| `DisEndToEnd.HeardIsEmitted` | src/dis_input_source.cpp:159-289 | when accepted emissions are settled in order, whatever else happens in between, the object PDUs heard are those emitted, in order |
| `DisEndToEnd.EmittedRunRows` | tools/simulator/src/dis_builder.cpp:86-122 | DIS emitter to broadcast: when a run with times per entity in order and at most 1800 s apart, no two of whose objects share a folded id, is settled in order, a broadcast shows one row for each emitted entity whose last PDU has not expired, made from that PDU, and no other rows |
| `DisEndToEnd.OneApplicationDistinct` | tools/simulator/src/dis_builder.cpp:117-119 | objects whose ids have one upper half are sent as entities that never share a folded id |
| `Pipeline.AccountingHolds` | src/olv1_input_source.cpp:53-76 | in every state of every interleaving the counters balance, apart from the one datagram in progress and the ignored PDUs |
| `Pipeline.DisNeverRejected` | src/dis_input_source.cpp:226-283 | a synthesized sequence is never stale, across 2^32 as well |
| `Pipeline.TrailsMoveForward` | src/olv2_input_source.cpp:86-148 | whatever bytes arrive, all trail points ever reported for an id are strictly ascending in time, over all broadcasts and through queue overflow |
| `FrameGrouping.BuildFrames` | tools/simulator/src/frame_builder.cpp:22-64 | fails exactly when the earliest time has no satellite row; otherwise one frame per time with its object rows in order and the carried satellite |
| `FrameRows.FrameShows` | tools/simulator/src/frame_builder.cpp:30-61 | a frame holds the object rows of its time, each once and in row order, and the satellite of the last satellite row of the latest time up to its own that has one |
| `FrameRows.FailsIff` | tools/simulator/src/frame_builder.cpp:43-50 | grouping fails if and only if there are rows and every satellite row has a row of an earlier time |
| `FrameGrouping.FramesConserveRows` | tools/simulator/src/frame_builder.cpp:22-64 | frames are strictly ascending and hold every object row exactly once |
| `PacketBuilder.BuildPackets` | tools/simulator/src/frame_builder.cpp:66-96 | the do-while loop emits exactly the packets of the chunking and advances the shared sequence |
| `PacketBuilder.PacketCount` | tools/simulator/src/frame_builder.cpp:74-93 | max(1, ceil(n / chunk)) packets |
| `PacketBuilder.PacketNumbers` | tools/simulator/src/frame_builder.cpp:76-92 | sequence numbers are consecutive modulo 2^32, and every packet has the frame's satellite, its number of objects up to 5000 as the total, and at most a chunk of them |
| `PacketBuilder.PacketsJoin` | tools/simulator/src/frame_builder.cpp:88-92 | the packets' objects, joined, are the frame's |
| `PacketBuilder.ChunkingIsInvisible` | tools/simulator/src/frame_builder.cpp:66-96 | for every chunk size the receiver accepts every packet and ends with the frame's satellite and with the old table overridden by the frame's normalised objects |
| `PacketRuns.SendRun` | tools/simulator/src/main.cpp:187-204 | one buildPackets for each frame, all with one counter, sends exactly the packets of the run |
| `PacketRuns.RunIsInvisible` | tools/simulator/src/frame_builder.cpp:66-96 | over a whole run of frames, for every chunk size, the receiver accepts every packet and ends with the last frame's satellite and with the old table overridden by all normalised objects of all frames in order |
| `PacketRuns.ChunkSizeLeavesNoTrace` | tools/simulator/src/frame_builder.cpp:66-96 | any two chunk sizes and any receive times leave the receiver with the same records |
| `Batcher.Olv2Batcher.Flush` | tools/simulator/src/olv2_builder.cpp:40-92 | emits the encoded packets of the buffered frames, advances the sequence and empties the buffer |
| `Batcher.FlushIsTransposition` | tools/simulator/src/olv2_builder.cpp:44-88 | one packet for exactly the ids seen, ascending, each with all of its points in frame order |
| `Batcher.FlushHeaders` | tools/simulator/src/olv2_builder.cpp:71-85 | type, highlight bit, confidence and satellite id of each packet come from the newest buffered frame that contains its id |
| `TrackRows.PointsCarrySeen` | tools/simulator/src/olv2_builder.cpp:50-76 | the points of a track are its records in order, each with its sample's time, satellite position and velocity, the record's position, and its velocity exactly when it has one |
| `TrackRows.SentTracks` | tools/simulator/src/main.cpp:186-237 | over everything sent of a track: the points carry exactly its flushed records and samples, and the last packet shows the newest |
| `EndToEnd.Transmit` | tools/simulator/src/main.cpp:186-237 | the sending loop with its final flush sends exactly the datagrams of the sender model |
| `EndToEnd.ExactlyOnce` | tools/simulator/src/olv2_builder.cpp:28-92 | under in-order lossless delivery and any interleaving of snapshots, the drained trail points of each id are exactly the time and position of every flushed frame that contains it, in order |
| `TrackRows.LosslessRows` | src/olv2_input_source.cpp:98-115 | simulator to rows: under in-order lossless delivery and any interleaving of broadcasts, a snapshot has one row for each id flushed and not expired, with the position, velocity, velocity flag, type, highlight bit and confidence of the newest flushed record of that id, the last three as the receiver normalises them |
| `TrackRows.LosslessSatellite` | src/olv2_input_source.cpp:117-134 | simulator to satellite: in such a run a snapshot shows the satellite's id, position and velocity of the newest flushed sample that has an object, or none if there is no such sample |
| `Sessions.SessionObject.Send` | src/ws_server.cpp:46-51 | queues behind what is waiting, sheds the oldest frames not in flight, and starts a write when idle |
| `Sessions.SessionObject.EnforceQueueLimit` | src/ws_server.cpp:109-121 | the erase loop leaves at most five frames and spares the one in flight |
| `Sessions.SessionObject.OnWrite` | src/ws_server.cpp:95-107 | a completed write delivers the head and goes on with the next |
| `BroadcastServer.WsServer.BroadcastTick` | src/ws_server.cpp:205-214 | unless stopped, takes one snapshot and sends its text, with the next number, to every registered session |
| `BroadcastServer.WsServer.Stop` | src/ws_server.cpp:166-175 | closes every session once and forgets them |
| `Sessions.InFlightUntilWritten` | src/ws_server.cpp:109-114 | no step but its own completion removes the frame in flight |
| `Sessions.EveryClientMovesForward` | src/ws_server.cpp:46-121 | in every run: at most five queued, the waiting frames are the most recent run of those sent, and a client sees hello and then strictly increasing numbers |
| `Json.ReadsBack` | src/json_writer.cpp:37-150 | reading what was printed, before any text that ends a value, gives the value back, and fails exactly when a number in it is misspelled |
| `Json.TextReadsBack` | src/json_writer.cpp:37-150 | a printed value is a JSON text exactly when its numbers are spelled right, and then parses to itself |
| `Printf.ReadsBackIffFits` | src/json_writer.cpp:17-21 | the buffered text spells the decimal shown, digit for digit, if and only if all of the text fits |
| `Printf.CutNumber` | src/json_writer.cpp:17-21 | a text cut by the buffer is still a number unless it is cut right after the point, and has lost digits |
| `Printf.ValueSurvivesIff` | src/json_writer.cpp:17-21 | the buffered text is a number of the value shown if and only if the sign and the digits before the point are at most 45 or exactly 47 characters, and the digits that find no room are zeros |
| `Printf.IntegerFits` | src/json_writer.cpp:23-33 | no 64-bit integer is cut |
| `StateMessage.BuildStateMessage` | src/json_writer.cpp:37-150 | the appended pieces spell exactly the JSON value of the snapshot, the trail points left out when there are none |
| `StateMessage.WriteRow` | src/json_writer.cpp:78-108 | eleven columns, the velocity ones null when the record has no velocity |
| `MessageRoundTrip.RowParses` | frontend/js/net.js:131-168 | the viewer reads from a written row the record's fields, its category name, and a velocity exactly when the flag is set |
| `ClientMessage.CategoryOfType` | frontend/js/net.js:11-20 | each of the six types has its name, every other one is unknown, and folding types at the receiver does not change the name |
| `ClientAccepts.TakenIff` | frontend/js/net.js:48-191 | for any text: the viewer takes it for a message if and only if it is a JSON object whose members, the last of each name counting, are of the required form and say exactly what the message holds: eleven columns to a row with all or no velocities null, five finite numbers to a trail point, a missing or null satellite, protocol version 1 in hello |
| `MessageRoundTrip.TextParses` | frontend/js/net.js:48-191 | the viewer takes every broadcast as the snapshot's message, or rejects it as not JSON exactly when some number is misspelled |
| `MessageRoundTrip.RecoversIffSurvives` | frontend/js/net.js:48-191 | the viewer recovers satellite, rows, statistics and trail points at printed precision if and only if the value of every number survives its buffer |
| `SnapshotFits.CoordinateFits` | src/json_writer.cpp:15-21 | every coordinate within the decoders' range fits |
| `SnapshotFits.SpeedFits` | src/json_writer.cpp:15-21 | every finite binary32 fits |
| `SnapshotFits.RoundsToNearest` | src/json_writer.cpp:17-21 | the decimal shown is a nearest one |
| `SnapshotFits.Shown64IsNearest` | src/json_writer.cpp:15-21 | a finite binary64 is printed with its sign and as a nearest decimal of the given places to its exact value |
| `SnapshotFits.Shown32IsNearest` | src/json_writer.cpp:15-21 | so is a finite binary32 |
| `SnapshotFits.TimesPrintInOrder` | src/json_writer.cpp:121 | sample times in order are printed in order |
| `SnapshotFits.Survives64Iff` | src/json_writer.cpp:15-21 | a binary64 with one to three places is read back if and only if it is finite and its sign and digits before the point are at most 45 or exactly 47 characters |
| `SpoiledFrames.TimeSpoilsIff` | src/json_writer.cpp:121 | a positive time leaves no number exactly when it prints with 46 digits before the point, from 10^45 up to 10^46 |
| `SnapshotFits.SpeedFitsIff` | src/json_writer.cpp:15-21 | a binary32 fits if and only if it is finite |
| `SnapshotFits.RecoveredIffPrints` | src/json_writer.cpp:37-150 | any snapshot is recovered if and only if its velocities and intensities are finite and its positions and times have, with their sign, at most 45 or exactly 47 digits before the point |
| `SnapshotFits.DecodedRecoveredIff` | src/json_writer.cpp:15-21 | for values the decoders let through: if and only if the satellite velocity is finite and every trail time prints with at most 45 or exactly 47 digits before the point |
| `SnapshotFits.OnlyTimesCanBeLost` | src/json_writer.cpp:15-21 | for decoded values with a finite satellite velocity the viewer recovers the snapshot if and only if every trail time prints with at most 45 or exactly 47 digits before the point |
| `SpoiledFrames.NonFiniteSpoilsFrame` | src/json_writer.cpp:37-150 | one value that is no number makes the whole message unreadable |
| `SpoiledFrames.UnreadableIff` | src/json_writer.cpp:37-150 | a message is not JSON if and only if one of its values is no number or has exactly 46 characters before the point; any other message is taken |
| `SpoiledFrames.DecodedUnreadableIff` | src/json_writer.cpp:15-21 | for values the decoders let through: if and only if the satellite velocity is not finite or a trail time has 46 digits before the point |
| `Broadcasts.Olv1BroadcastsAreRecovered` | src/ws_server.cpp:205-214 | in an OLV1 run, whatever arrives, the viewer recovers every broadcast |
| `Broadcasts.Olv2BroadcastsAreRecoveredIff` | src/olv2_input_source.cpp:117-133 | in an OLV2 run, whatever arrives and however velocities are estimated, the viewer recovers a broadcast if and only if the stored satellite velocity is finite and its sample times have at most 45 or exactly 47 digits before the point; with any other velocity the frame is not JSON |
| `Broadcasts.Olv2BroadcastUnreadableIff` | src/olv2_input_source.cpp:117-141 | in an OLV2 run a broadcast is not JSON if and only if the stored satellite velocity is not finite or a waiting sample time has 46 digits before the point |
| `DisBroadcasts.DisBroadcastsAreRecoveredIff` | src/dis_input_source.cpp:222-283 | in a DIS run the viewer recovers a broadcast if and only if the satellite and every unexpired record have finite velocities and positions with, sign included, at most 45 or exactly 47 digits before the point |
| `DisBroadcasts.DisBroadcastUnreadableIff` | src/dis_input_source.cpp:222-283 | in a DIS run a broadcast is not JSON if and only if a value of the satellite or of an unexpired record is no number or has exactly 46 characters before the point |
| `SpoilingInputs.NonFinitePduSpoilsFrame` | src/dis_input_source.cpp:222-283 | in any state of any DIS run, accepting a PDU with an infinite or undefined coordinate or velocity makes the broadcasts that show it something that is not JSON |
| `SpoilingInputs.InfinitePduSpoilsFrame` | src/dis_input_source.cpp:188-283 | the 144 bytes of a PDU with an infinite coordinate are accepted, for any entity, and the broadcast that shows it is not JSON |
| `SpoilingInputs.EstimateSpoilsFrame` | src/olv2_input_source.cpp:126-132 | a datagram without satellite velocities whose estimate is not finite is accepted, and the broadcast that shows it is not JSON, as a run |
| `SpoilingInputs.CloseSamplesSpoilFrame` | src/olv2_input_source.cpp:126-132 | if a difference quotient of 2^129 or more is not finite, two samples a meter and 2^-1074 s apart are accepted and the next broadcast is not JSON |
| `SpoilingInputs.AcceptedTimeSpoilsFrame` | src/json_writer.cpp:116-121 | a datagram with the time 2^150 s is accepted, and the next broadcast is not JSON, as a run |
| `Viewer.SeenIsReported` | src/ws_server.cpp:205-214 | over an OLV2 run in which the stored satellite velocity is finite at every broadcast and the reported times have at most 45 or exactly 47 digits before the point, a viewer that is sent every broadcast reads exactly the trail points the store reported, each at printed precision |
| `Viewer.VelocityStaysFinite` | tools/simulator/src/olv2_builder.cpp:53-61 | the simulator always sends the satellite velocity, so in a lossless run none is estimated and the stored one stays finite |
| `Viewer.SamplesReachViewer` | tools/simulator/src/main.cpp:186-237 | simulator to viewer: with in-order lossless delivery, any interleaving of broadcasts, no overflow and sample times of at most 45 or exactly 47 digits, a viewer that is sent every broadcast reads for each id exactly the time and position of every flushed frame that contains it, in order |
| `Delivery.Projects` | src/ws_server.cpp:205-214 | the receiving process inside a run of process and server together makes a run of its own |
| `Delivery.LogHolds` | src/ws_server.cpp:205-214 | every frame a session was ever sent is the text of the tick whose number it carries, and the points drained by all ticks, in order, are the points reported |
| `TickStats.TickSays` | src/ws_server.cpp:205-214 | in any run of process and server, a broadcast that can be read carries the server's time, the next broadcast number, the number of registered clients, the number of its rows, and the number of datagrams that have arrived |
| `Delivery.ClientReads` | src/ws_server.cpp:46-121 | for every client of every OLV2 run whose reported times have at most 45 or exactly 47 digits: per id it reads the reported points with some taken out, never back in time, and it reads all of them if and only if every tick that carried points was delivered to it with a finite satellite velocity |
| `Shedding.EveryTickAccounted` | src/ws_server.cpp:46-121 | in every state of every run, for every client: each tick sent to it since it was accepted is delivered, queued or shed, and in exactly one of these; an open client has been sent every tick since |
| `Shedding.ReadsAllIff` | src/ws_server.cpp:109-121 | an open client has read all reported points if and only if none of their frames was sent before it came, is still queued or was shed, and each showed a finite satellite velocity |
| `Shedding.ShedIsLost` | src/ws_server.cpp:109-121 | a tick that a client's outbox has shed never reaches it, however the run goes on |
| `Shedding.SamplesReachClient` | src/ws_server.cpp:46-121 | simulator to one client through its outbox: a client accepted before the first tick with points, open and with nothing left to write, has read everything reported if and only if no tick that found its outbox full shed a frame with points; and then it has read exactly every flushed sample of each id, in order |
| `SlowClient.SlowClientLosesPoints` | src/ws_server.cpp:109-121 | for every accepted OLV2 datagram, five ticks without a completed write are a run in which the client loses its points: however that run goes on, the client's session is there and the frame that carried them is never delivered to it |
| `Toml.DoParse` | include/olv/toml.hpp:203-276 | the line loop stops at the first error with its line number, or returns every value |
| `TomlLines.LineIff` | include/olv/toml.hpp:217-273 | a line is accepted if and only if it is blank or a comment and changes nothing, or a header and sets the table, or assigns a key not there yet to the value its text stands for; with any spaces and tabs around the parts and any trailing comment |
| `Toml.DoQuoted` | include/olv/toml.hpp:88-132 | the escape loop reads a string to its closing quote or reports why not |
| `Toml.DoScalar` | include/olv/toml.hpp:135-199 | the scanning loop gives the value or the first error of the token |
| `TomlScalars.ScalarAcceptsExactly` | include/olv/toml.hpp:135-199 | a token is accepted if and only if it is true or false, signed digits within 64 bits, or signed digits with one point among them whose conversion stays in range; and it is taken for what it is |
| `TomlScalars.IntegerIff` | include/olv/toml.hpp:186-196 | a token is the integer n if and only if it is digits, or plus or minus and digits, that spell n, and n is within 64 bits |
| `TomlRoundTrip.QuotedReadsEscaped` | include/olv/toml.hpp:88-132 | for strings of any characters, reading the escaped form gives the string back |
| `TomlRoundTrip.ScalarReadsInteger` | include/olv/toml.hpp:135-199 | every 64-bit integer reads back from its decimal form |
| `TomlRoundTrip.FullKeyInjective` | include/olv/toml.hpp:271 | flattened keys of bare names tell their table and key apart |
| `TomlRoundTrip.RoundTrip` | include/olv/toml.hpp:203-276 | a document of headers and assignments in any layout, with blank and comment lines, leading and trailing spaces and tabs and trailing comments anywhere, either end on each line and the last line open or closed, parses to exactly its flattened map; if a table repeats a key, to the duplicate-key error of the line that first does |
| `TomlSample.DocumentParses` | include/olv/toml.hpp:217-240 | a comment line under a header does not end its table: the key below it becomes `table.key` |
| `TomlSample.PassageParses` | config/backend.toml:16-18 | the shipped address under its comment is the key udp_bind of the network table |
| `TomlSample.NameCharacters` | include/olv/toml.hpp:67-69 | names consist of ASCII letters, digits, low lines and hyphens |
| `Trails.SnapshotKeepsOk` | frontend/js/renderer.js:928-991 | a snapshot not older than the last keeps every trail in time order and within its cap, and leaves none expired |
| `Trails.TrailsStayOk` | frontend/js/renderer.js:928-991 | in every run of nondecreasing snapshot times, at most 64 samples in a trail the viewer built and 512 in a server-fed one, all in time order |
| `Trails.FedPerTrack` | frontend/js/renderer.js:944-960 | trails do not interfere: each is fed by the trail points of its own id |
| `Trails.PositionsSkipServerTrails` | frontend/js/renderer.js:962-976 | once a snapshot's trail points have fed a trail, nothing else in that snapshot changes it |
| `Trails.ServerTrailTakesOnlyPoints` | frontend/js/renderer.js:944-968 | a server-fed trail holds the last 512 of its samples and the mapped trail points that moved it forward, never a snapshot position |
| `TrailRuns.ServerTrailOverRun` | frontend/js/renderer.js:928-991 | over any run of snapshots, whatever the two clocks show: a server-fed trail lives exactly as long as no snapshot finds its last sample older than 65 s, and holds the last 512 of its samples and of all points since that moved it forward, each mapped by the clocks of its own snapshot |
| `OwnTrails.OwnTrailOverRun` | frontend/js/renderer.js:962-990 | over any run of snapshots: an object's trail that no trail point feeds, and a satellite's trail, lives exactly as long as no snapshot finds its last sample older than 65 s, and holds the last 64 of its samples and of all positions since, of rows with a drawn category or of the satellite, each at its snapshot's time |
| `OwnTrails.OwnCategory` | frontend/js/renderer.js:962-985 | such a trail takes the category of the last row with a drawn one; a satellite's keeps its own |
| `OwnTrails.FedCategory` | frontend/js/renderer.js:946-956 | a server-fed trail takes the category of its row when a point moves it forward, and keeps it otherwise |
| `OwnTrails.CategoryIsLastRow` | frontend/js/renderer.js:932-934 | a trail point goes by the category of the last row of its id in the snapshot, if there is one |
| `ViewerTrails.SamplesAreRead` | frontend/js/main.js:118-123 | what the snapshots of a client's messages feed to the trail of an id is the points it has read for it, each mapped by the clocks of its own message |
| `ViewerTrails.TrailHoldsWhatWasRead` | frontend/js/renderer.js:944-960 | for any messages delivered to a client at any times of its advancing clock: its server-fed trail of an id lives exactly as long as no message finds its last sample too old, and holds the last 512 of what it held and of the points of that id it has read since that moved the trail forward |
| `ViewerTrails.EveryPointEntersIff` | frontend/js/renderer.js:951-952 | every point a client reads for an id enters its trail if and only if each message with points of it has a server time and the times `now - (server - t * 1000)`, each by its own message's clocks, strictly ascend from the trail's last sample on, over all messages |
| `ViewerTrails.TrailFromFirstPoint` | frontend/js/renderer.js:944-960 | from the first point of an id on, its trail lives as long, and is the last 512 of the points read for it that moved it forward |
| `ViewerTrails.TrailIsLastPointsRead` | frontend/js/renderer.js:944-960 | from the first point of an id on, while the trail is not pruned, if each message with points has a server time and the mapped times strictly ascend, the trail is the last 512 points read for it, mapped onto the viewer's clock |
| `Jitter.LessLateLosesPoint` | frontend/js/renderer.js:951-952 | two messages the server writes, one a second later on its way than the other: sample times and both clocks ascend, the client reads both points, and its trail holds only the first |
| `TrailBuffer.TrailView.AppendTrails` | frontend/js/renderer.js:928-991 | the loops change the trails in place exactly as the three feeds and the pruning say |
| `TrailBuffer.PassesAgree` | frontend/js/renderer.js:1009-1057 | the filling pass writes fourteen floats for each segment the counting pass counted |
| `BufferSegments.BufferShows` | frontend/js/renderer.js:1030-1057 | the floats are, one after another, the drawn segments: both ends with the color of their trail and an opacity of one when new, none at the trail's age, and in proportion between |
| `BufferSegments.MapListIs` | frontend/js/renderer.js:1009-1049 | drawn are exactly the segments of shown trails, satellites only when not hidden, that are young enough and not of near-zero length, each once, in the order of trails and samples |
| `TrailBuffer.TrailView.RebuildTrailBuffer` | frontend/js/renderer.js:999-1061 | exactly the qualifying segments' floats are written, in order, and nothing beyond them, within an array that grows by doubling to less than twice what is needed |
| `TrailBuffer.FadeFollowsTime` | frontend/js/renderer.js:1049-1051 | opacity stays between 0 and 1 and never falls along a trail in time order |

## Left out

- Sockets, threads, timers, signals and logging: only the events they deliver are steps of the model.
- The mutex of the store: each locked operation is one step, and the two threads' steps interleave freely.
- Statistics counters are unbounded in the store; they wrap at 2^64 where they are printed.
- Keys of the store's tables are integers rather than `unordered_map` buckets; iteration order is that of no particular hash.
- The buffer for one datagram: a received datagram is a byte string of any length.
- open-dis itself: it is not part of this repository. `DisWire` writes and reads the layout that `test/test_dis_input_source.cpp:45-80` gives, with 16 bytes for each articulation parameter announced in byte 19 (IEEE 1278.1-1995) and zeros in the fields nobody sets.
- Finiteness in DIS mode: the source has no such check, so nothing is required of its values; `DisBroadcastsAreRecoveredIff` says what follows from them.
- HourTicksWrap: exact arithmetic, where the emitter multiplies and truncates in binary64; the binary64 product is not modelled.
- HalfHourIsHalfRange: exact arithmetic, for the same reason.
- EmittedRunsSurvive: exact arithmetic, for the same reason; so are AfterIsTable and EmittedRunsAccepted, which rest on it.
- CloseSamplesSpoilFrame: that a quotient of such a size overflows is required of the estimator, since binary64 division is not modelled.
- EmittedRunRows: rests on EmittedRunsAccepted, so in exact arithmetic too; nothing is said of runs in which two folded ids collide.
- The finite-difference velocity estimate: an arbitrary function of the two newest samples, of which only CloseSamplesSpoilFrame requires anything.
- strtod: a float of the configuration keeps its text, and a parameter says which texts convert without a range error.
- ISO 8601 formatting: an arbitrary function from clock times to strings that need no escape.
- udpRateHz: the quotient by five is exact, where the program divides in binary64 before printing two decimals.
- JSON.parse beyond what is written: a lone surrogate escape is refused, and a number is its exact decimal rather than the nearest binary64.
- buildHelloMessage: its text is not modelled; hello is parsed but not written.
- The handshake and the hello frame's text: a session begins when it is registered, with hello queued.
- worldFromMeters, category visibility and colours are parameters; the vertex buffer holds reals rather than binary32.
- Aliasing of a trail object with other references: the map holds trails as values, since nothing else refers to them.
- createConnection, the settings panel, WebGL, cameras, the sky and the simulator's orbit generator.
