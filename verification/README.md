# zperf measurement engine

A Dafny model of the measurement engine of zperf on FreeRTOS and lwIP: the receivers' session
tables and counters, the uploaders' pacing and stream accounting, the statistics record that
travels between them, and the three places where tasks meet (the work queue, the start/stop
handshake of a receiver thread, the descriptor table of the TCP server).

`dafny verify dfyconfig.toml` checks the whole project.

## How it is built

Code that changes state is written as it is in C: arrays and fields updated in place by methods
with loops. Each such method is tied by its `ensures` to a function of the old state, and the
results about single calls, whole runs and both ends together are proved about those functions.

| file | what it holds |
|---|---|
| `words.dfy`, `kernel.dfy` | C integer widths, byte order, tick conversions |
| `wire.dfy` | datagram header and statistics record, writer and reader |
| `session.dfy` | the session tables and `get_session` |
| `receive.dfy`, `receivers.dfy` | `udp_received` and `tcp_received`: the step function, and the code in place |
| `demux.dfy` | interleaved runs of many peers, seen by one peer |
| `sequence.dfy`, `jitter.dfy`, `clock.dfy`, `report.dfy`, `tcp_figures.dfy` | what the reported figures mean |
| `records.dfy` | the saved record and repeated end datagrams |
| `pacing.dfy`, `udp_uploader.dfy`, `upload_pacing.dfy` | the sending loop of `udp_upload` and its timing |
| `end_to_end.dfy`, `tcp_end_to_end.dfy` | uploader and receiver together |
| `tcp_uploader.dfy` | `sendall` and `tcp_upload` |
| `tcp_server.dfy`, `tcp_safety.dfy`, `tcp_stale.dfy`, `tcp_run.dfy`, `tcp_outcomes.dfy` | the TCP server: code, invariants, the limit of its guarantee, its callbacks, what single events and a stop lead to |
| `work_queue.dfy`, `handshake.dfy` | interleaved steps of two tasks |

Clock readings, and the results of `send`, `recv`, `poll`, `accept` and `socket`, are parameters.
The tick rate is a parameter too, because `FreeRTOSConfig.h` is not part of this model; the tick
counter has 32 bits. Unsigned arithmetic wraps as in C. Signed overflow, which C leaves undefined,
is taken as two's complement wrap. A division by zero is an explicit outcome
(`DivisionFault`, `DivisionByZero`), not a precondition. The repository does not hold FreeRTOS itself,
so `pdMS_TO_TICKS` is modelled with a product in the 32-bit tick type and with one in 64 bits.

## Where the code does less than it seems to

Each of these is proved, with the condition under which the code does what one would expect.

* An end datagram from a peer without a session is answered with the record of whoever used the
  slot last (`ForeignRecord`). It tells of the peer's own datagrams if and only if the last session
  closed in that slot was its own (`OwnRecordIff`). A retry within the handshake is answered as it
  should be as long as no peer without a slot is heard in between (`RetryAnswered`).
* The reported length is exact if and only if it is below 2^32 - 1, because the record keeps it
  modulo 2^32 - 1 (`RecordRoundTrip`).
* A UDP session that counted no datagram divides by zero when it ends; so does one whose 32-bit
  counter wrapped to zero, and no other (`UdpReportMeaning`). An upload of a single packet is enough,
  because the packet that opens a session is not counted (`UploadIsReported`).
* A rate that is a multiple of 2^22 kbps divides by zero at the uploader (`DurationExists`). Any other
  rate is taken modulo 2^22 kbps, which gives the right packet duration if and only if the rate is
  below 2^22 kbps or the duration is below one microsecond (`DurationIsTime`).
* "lost" counts every gap ever seen, also those filled later. Only "lost" minus "out of order" can
  be the number of missing ids, and it is if and only if no id was zero or repeated (`LossBracket`).
* The second branch of `time_delta` is one short (`TimeDeltaExact`). A jitter sample is therefore
  exact if and only if that branch is taken for both of its datagrams or for neither, and off by one
  otherwise (`OffsetIndependence`; `OffByOne` is such a sample).
* Pacing bounds the packets that leave in a later tick than the one before, but after one late
  wake-up any number of packets can leave in one tick (`Burst`). The average rate is
  bounded if and only if every wake-up is late by less than a period (`BudgetIffPunctual`).
* `K_TICKS` reads its argument as milliseconds, so pacing sleeps the ticks it means, for every delay
  it can ask for (`DelaysAreSleepable`), if and only if the tick rate is 1000 Hz (`SleepIsExact`).
  The conversions named `_ceil` round down.
* The packet duration is computed before the packet size is clamped (zperf/zperf_udp_uploader.c:142 and
  151), so the rate bound (`UploadRate`) is about the bits asked for. They are the bits sent if and only
  if the size is between 12 and 1024 (`Clamp`).
* An empty datagram received in the second round of the handshake makes the upload succeed without
  any statistics (`UploadFin`).
* Stopping the TCP server closes its connections but leaves their sessions running. From start-up,
  one connection that has sent a byte is enough (`StopLeavesSession`). The server never
  refuses a chunk of a live connection, in any run, if and only if no session was left running when
  it started (`NeverRefusesIff`, `NextRun`).
* The documentation says that only one asynchronous upload can be performed at a time
  (zperf/zperf.h:100). The pending flag is cleared before the handler runs, so a second submission is
  admitted during an upload and overwrites its parameters (`ParamsOverwritten`,
  `SettledIffPendingAgain`).

## Model

| member | source | states |
|---|---|---|
| `Kernel.SleepIsExact` | zperf/zephyr/kernel.h:68 | the sleep asked for by the pacing loop equals its delay in ticks, for every delay pacing can ask for, exactly when the tick rate is 1000 Hz, whether `pdMS_TO_TICKS` multiplies in 32 or in 64 bits |
| `Kernel.MillisecondSleep` | zperf/zephyr/kernel.h:68 | at 1000 Hz a sleep is exact unless a 32-bit product overflows |
| `Kernel.ConversionsRoundDown` | zperf/zephyr/kernel.c:13-58 | each conversion gives the whole number of units that fit into the time, the 32-bit ones modulo 2^32 |
| `Kernel.TicksBetweenCounts` | zperf/zperf_udp_receiver.c:156-157 | the ticks between two readings are counted right across a wrap of the counter |
| `Words.WordRoundTrip` | zperf/zperf_internal.h:48-52 | reading a word in network order undoes writing it |
| `Words.NetworkOrder` | zperf/zperf_internal.h:63-74 | words compare as their bytes on the wire do, first byte first |
| `Wire.HeaderRoundTrip` | zperf/zperf_udp_uploader.c:205-210 | the receiver reads the header the uploader wrote, whatever payload follows |
| `Wire.ReplyRoundTrip` | zperf/zperf_udp_uploader.c:25-48 | the decoder finds each field of the record the receiver built, for every record |
| `Wire.ReplyLayout` | zperf/zperf_internal.h:63-74 | the reply echoes the 12-byte header and holds each field of the record at its own offset |
| `Wire.HeaderLayout` | zperf/zperf_internal.h:48-52 | id, seconds and microseconds at offsets 0, 4 and 8 |
| `Wire.BuildReply` | zperf/zperf_udp_receiver.c:55-77 | the buffer written in place is the peer's header followed by the ten fields in order |
| `SessionTables.SessionTable.GetSession` | zperf/zperf_session.c:24-91 | the scan returns the matching slot, else the first one not running, and changes at most that slot's key |
| `SessionTables.RefusedIff` | zperf/zperf_session.c:63-90 | a lookup fails exactly when no slot holds the key and every session is running |
| `SessionTables.ClaimRefinesMap` | zperf/zperf_session.c:35-90 | the array is a bounded map from peers to sessions: a known peer changes nothing, a new one replaces one session that is not running |
| `SessionTables.ClaimKeepsRunning` | zperf/zperf_session.c:63-88 | no caller changes a running session by looking one up |
| `SessionTables.OtherFamily` | zperf/zperf_session.c:73-88 | an address of another family gets the first idle slot and no key |
| `SessionTables.SessionTable.ResetStats` | zperf/zperf_session.c:93-107 | clears the counters of one session and nothing else |
| `SessionTables.SessionTable.Init` | zperf/zperf_session.c:109-119 | both tables end with idle sessions and cleared counters, keys and saved records untouched |
| `Receivers.Receiver.UdpReceived` | zperf/zperf_udp_receiver.c:103-232 | the in-place code computes the step function: new table, replies and callbacks |
| `Receivers.Receiver.UpdateJitter` | zperf/zperf_udp_receiver.c:202-214 | the update changes jitter and last transit time of one session as the estimator says |
| `Receivers.Receiver.CheckId` | zperf/zperf_udp_receiver.c:216-226 | the three-way id check changes one session as the accounting says |
| `Receivers.Receiver.TcpReceived` | zperf/zperf_tcp_receiver.c:52-100 | the in-place code computes the step function on the TCP table |
| `Receive.ElapsedCounts` | zperf/zperf_udp_receiver.c:156-157 | when d ticks have passed since the session started, across a wrap of the counter or not, the duration is d ticks in microseconds |
| `Demux.StepSeenBy` | zperf/zperf_udp_receiver.c:120-231 | one input of another peer leaves a peer's session as it is; the peer's own input acts as if the peer were alone |
| `Demux.TableStays` | zperf/zperf_session.c:24-91 | in every run keys stay unique and the slot of a running session is never given to another peer |
| `Demux.OwnFold` | zperf/zperf_udp_receiver.c:128-227 | in every interleaved run a peer's session is the fold over its own inputs since its start |
| `Demux.Demultiplexed` | zperf/zperf_udp_receiver.c:151-192 | what is reported when a session closes is the fold over that peer's inputs from start to end, whatever else arrived |
| `Demux.OthersDoNotMatter` | zperf/zperf_udp_receiver.c:120-192 | noninterference: two servers with different tables and other traffic make the same callbacks to a peer with the same own inputs |
| `Demux.CallbacksAlternate` | zperf/zperf_tcp_receiver.c:65-96 | a peer's callbacks alternate between STARTED and a closing one, and the session runs exactly after a STARTED |
| `Sequence.Conservation` | zperf/zperf_udp_receiver.c:192-226 | counter + error = outorder + next_id - 1, and next_id is one more than the largest id |
| `Sequence.ExactLoss` | zperf/zperf_udp_receiver.c:216-226 | error + useless datagrams = outorder + ids never counted |
| `Sequence.LossBracket` | zperf/zperf_udp_receiver.c:216-226 | the missing ids number between error - outorder and error, and error - outorder exactly when no id was zero or repeated |
| `Sequence.PermutationInvariant` | zperf/zperf_udp_receiver.c:216-226 | the order of arrival does not change next_id, counter, or error - outorder |
| `Jitter.TracksRfc3550` | zperf/zperf_udp_receiver.c:210-211 | in runs of any length the integer estimate stays within 15 of the recursion of section 6.4.1 of RFC 3550 |
| `Jitter.EstimateRange` | zperf/zperf_udp_receiver.c:210-211 | the estimate lies between zero and any bound on the samples |
| `Jitter.GapShrinks` | zperf/zperf_udp_receiver.c:210-211 | against a constant sample the gap never grows, and shrinks exactly while it is above 15 |
| `Jitter.Settles` | zperf/zperf_udp_receiver.c:210-211 | a constant sample is reached to within 15 after at most as many updates as the first gap was wide, and never left |
| `Jitter.SessionJitter` | zperf/zperf_udp_receiver.c:198-214 | the wrapped 32-bit fields of a session hold that estimate, as long as no sample overflows |
| `Clock.StampSplits` | zperf/zperf_udp_uploader.c:201-210 | the header shows whole seconds and the microseconds left over |
| `Clock.ClockRecombines` | zperf/zperf_udp_uploader.c:201-210 | splitting the clock into seconds and microseconds and adding them up in 32 bits gives the clock modulo 2^32 |
| `Clock.TimeDeltaExact` | zperf/zperf_internal.h:88-91 | time_delta is the modular difference exactly when its first branch is taken, else one less |
| `Clock.OffsetIndependence` | zperf/zperf_udp_receiver.c:198-208 | for any constant offset between the clocks a sample is the change of spacing exactly when time_delta falls short for both datagrams or for neither, and is off by one otherwise |
| `Clock.OffByOne` | zperf/zperf_internal.h:88-91 | two stamped datagrams whose sample is off by one |
| `UdpFigures.FoldMeaning` | zperf/zperf_udp_receiver.c:193-226 | after any data datagrams the counters are the tally modulo 2^32, the length is the bytes, the jitter is that of the transit times |
| `UdpFigures.UdpReportMeaning` | zperf/zperf_udp_receiver.c:151-191 | in every interleaved run the closing callback tells a peer the number, bytes, losses, reorderings and jitter of its own datagrams and the microseconds since its first one, or is a division by zero |
| `UdpFigures.ToldLosses` | zperf/zperf_udp_receiver.c:180-182 | the reported numbers bracket the ids that never arrived |
| `UdpFigures.SessionConservation` | zperf/zperf_udp_receiver.c:192-226 | in every reachable session the 32-bit counters balance modulo 2^32, and exactly below 2^32 datagrams |
| `Records.RecordRoundTrip` | zperf/zperf_udp_receiver.c:162-173 | the uploader decodes the receiver's counters, jitter and exact duration; the length exactly when below 2^32 - 1 |
| `Records.RecordFields` | zperf/zperf_udp_receiver.c:162-173 | the flag, the high half of the length, and the duration split into seconds and microseconds |
| `Records.RepliesToEnds` | zperf/zperf_udp_receiver.c:128-178 | a reply goes to end datagrams alone, one to each that gets a slot, with its own header echoed |
| `Records.SlotRecord` | zperf/zperf_udp_receiver.c:162-173 | in every run a slot's record is that of the last session closed in it |
| `Records.IdleEndAnswer` | zperf/zperf_udp_receiver.c:129-138 | an end datagram without a running session gets the record of the last session closed in the slot it is given |
| `Records.OwnRecordIff` | zperf/zperf_session.c:63-88 | that record is the fold over the datagrams of the peer that closed it, so over the asking peer's own exactly when the last close was its own |
| `Records.RetryAnswered` | zperf/zperf_udp_uploader.c:69-114 | a repeated end datagram gets the first one's record while only peers that hold a slot are heard |
| `Records.ResendIdempotent` | zperf/zperf_udp_receiver.c:129-138 | repeated end datagrams get the same record and no second FINISHED, until the slot is taken over or the peer starts again |
| `Records.ForeignRecord` | zperf/zperf_session.c:73-88 | a concrete run in which a peer that never had a session is sent another peer's figures |
| `TcpFigures.TcpReportMeaning` | zperf/zperf_tcp_receiver.c:78-95 | in every interleaved run the reported total is the peer's bytes modulo 2^32, however they were cut into chunks, and the time is the microseconds since its first chunk |
| `Pacing.DurationExists` | zperf/zperf_common.c:217-220 | the packet duration divides by zero exactly for multiples of 2^22 kbps |
| `Pacing.DurationIsTime` | zperf/zperf_common.c:217-220 | otherwise it is the time the packet takes at the rate modulo 2^22 kbps, which is the time at the rate exactly below 2^22 kbps or below one microsecond |
| `Pacing.CodeIsWalk` | zperf/zperf_udp_uploader.c:183-199 | the 32-bit delay is a walk reflected at zero |
| `Pacing.ClosedForm` | zperf/zperf_udp_uploader.c:142-199 | the delay is the largest suffix sum of period - elapsed over the iterations in which the clock advanced, the first period included |
| `Pacing.NeverEarly` | zperf/zperf_udp_uploader.c:183-199 | time plus delay never falls behind one period for each advance, whoever sleeps |
| `Pacing.RateBound` | zperf/zperf_udp_uploader.c:172-249 | if sleeps last at least the delay, the packet at the m-th advance leaves no earlier than m periods after the start |
| `Pacing.DelayBound` | zperf/zperf_udp_uploader.c:193-247 | the delay is at most two periods, and at most one from the second iteration on |
| `Pacing.SleepingCodeIsWalk` | zperf/zperf_udp_uploader.c:183-199 | with such sleeps no step of the 32-bit code overflows |
| `Pacing.NoDrift` | zperf/zperf_udp_uploader.c:172-249 | if each wake-up is late by less than a period, packet k leaves k periods after the start plus its own lateness |
| `Pacing.Burst` | zperf/zperf_udp_uploader.c:183-247 | a run with any number of packets in three periods |
| `Pacing.BudgetIffPunctual` | zperf/zperf_udp_uploader.c:172-249 | the average rate is bounded in all runs whose wake-ups are late by at most some bound, if and only if the bound is below one period |
| `Pacing.PacketBound` | zperf/zperf_udp_uploader.c:183-247 | if every iteration sees a later tick, the number of packets is bounded by the time they took |
| `UdpUploader.Clamp` | zperf/zperf_udp_uploader.c:151-159 | of the sizes that hold a header and fit the buffer, the one nearest to what was asked for |
| `UdpUploader.PeriodIsTime` | zperf/zperf_udp_uploader.c:142-143 | the period in ticks is the time of one packet at the rate |
| `UdpUploader.OneLoopEnd` | zperf/zperf_udp_uploader.c:172-249 | the conditions under which the loop ends leave one end and one packet count for every recording |
| `UdpUploader.Uploader.SendLoop` | zperf/zperf_udp_uploader.c:136-251 | the loop sends packets numbered from zero, stamped with the time of their round, with the delays of the walk whose period is the packet's time at the rate, and sleeps those delays; it ends at the first round at or after start plus duration, or at the first failed send with its negated errno, and at nothing else |
| `UdpUploader.Uploader.UploadFin` | zperf/zperf_udp_uploader.c:50-134 | one or two end datagrams with the negated count and the time of the stop; statistics exactly when a round received something; when success comes without them |
| `UdpUploader.Uploader.UdpUpload` | zperf/zperf_udp_uploader.c:136-266 | the upload succeeds exactly when the loop sent its packets and the last round of the handshake did not fail, with the packet count, the microseconds the loop took, the size and the server's figures; otherwise the code is that of the failed send or round |
| `UploadPacing.PeriodInBits` | zperf/zperf_udp_uploader.c:142-143 | on a millisecond tick the period is the time of the packet's bits at the rate, rounded down to a millisecond |
| `UploadPacing.UploadRate` | zperf/zperf_udp_uploader.c:136-249 | by the m-th advance of the clock as much time has passed as the bits of m packets take at the rate, less one millisecond each, and no delay is longer than the bits of a packet take, if sleeps last as long as the code asks |
| `UploadPacing.DelaysAreSleepable` | zperf/zperf_udp_uploader.c:245-247 | no recorded delay exceeds two periods, and each is slept exactly on a millisecond tick |
| `EndToEnd.UploadProgress` | zperf/zperf_udp_receiver.c:139-226 | after any part of an upload the server holds the fold over all its packets but the first |
| `EndToEnd.UploadIsReported` | zperf/zperf_udp_uploader.c:253-263 | for an upload of n packets over a channel without loss or reordering, beside any other traffic, the reply decodes to n-1 received, 0 lost, 0 out of order, and all bytes below 2^32 - 1; the callback says the same, or divides by zero for n = 1 |
| `EndToEnd.RetryIsReported` | zperf/zperf_udp_uploader.c:69-114 | a second end datagram of the upload gets a reply that decodes to the same |
| `EndToEnd.HandshakeReports` | zperf/zperf_udp_uploader.c:50-134 | whether the first round is answered, the first end datagram is lost, or the first reply is, the uploader ends with the figures of the whole upload |
| `TcpUploader.SendAll` | zperf/zperf_tcp_uploader.c:24-40 | each send is given what the sends before it left; the bytes sent are what the sends took; it succeeds exactly when that is all, and else returns the failing send's result |
| `TcpUploader.RoundsAccount` | zperf/zperf_tcp_uploader.c:70-101 | what all sends took is the whole packets and one proper prefix for each other round |
| `TcpUploader.OneErrorAtMost` | zperf/zperf_tcp_uploader.c:73-90 | as errno is never -ENOMEM, only the last round can have failed |
| `TcpUploader.Upload` | zperf/zperf_tcp_uploader.c:42-126 | the rounds of sendall up to the first expired timer or the first error other than -ENOMEM, the code returned for each, and results that count whole packets and errors modulo 2^32 |
| `TcpUploader.StreamIsWholePackets` | zperf/zperf_tcp_uploader.c:70-101 | the byte count determines the packet count and the prefix |
| `TcpServer.Server.OnAccept` | zperf/zperf_tcp_receiver.c:275-306 | the accepted descriptor takes the first empty connection entry or is closed at once |
| `TcpServer.Server.OnReadable` | zperf/zperf_tcp_receiver.c:307-326 | a read feeds the session table, and an error or end closes the entry |
| `TcpServer.Server.ServePass` | zperf/zperf_tcp_receiver.c:262-330 | the loop over the entries, stopping at the first error |
| `TcpServer.Server.Open` | zperf/zperf_tcp_receiver.c:148-243 | every way the setup can end |
| `TcpServer.LoopRunsIff` | zperf/zperf_tcp_receiver.c:247-331 | the loop still runs if and only if the setup succeeded and no return from poll was a stop, an error, or a pass with a fatal event |
| `TcpServer.Server.Serve` | zperf/zperf_tcp_receiver.c:141-343 | setup, poll loop and exit path compute the run function; the server ends exactly when the setup failed or a return from poll does not let it go on |
| `TcpOutcomes.StartOutcome` | zperf/zperf_tcp_receiver.c:148-243 | which descriptors the setup opens, and that it reports an error exactly when it fails |
| `TcpOutcomes.AcceptOutcome` | zperf/zperf_tcp_receiver.c:275-306 | a connection is dropped exactly when every entry is taken, else it gets the first free one and its peer's address |
| `TcpOutcomes.ReadOutcome` | zperf/zperf_tcp_receiver.c:307-326 | a read closes its connection exactly when it failed or met the end; then the session is over and was reported |
| `TcpOutcomes.StopEnds` | zperf/zperf_tcp_receiver.c:254-256 | a stop ends the server: nothing later is served, nothing is called back for it, every descriptor is closed once |
| `TcpOutcomes.ErrorsOfRun` | zperf/zperf_tcp_receiver.c:262-334 | the error callback is made once for each failed read, and once when the server ends other than by a stop |
| `TcpServer.Server.Close` | zperf/zperf_tcp_receiver.c:336-342 | the exit path closes every descriptor of the table once |
| `TcpSafety.RoomForConnection` | zperf/zperf_tcp_receiver.c:36 | pigeonhole over the two tables: a live connection always finds a session slot |
| `TcpSafety.EntryKeeps` | zperf/zperf_tcp_receiver.c:262-330 | each handled entry keeps the invariant and refuses no chunk |
| `TcpSafety.RunKeeps` | zperf/zperf_tcp_receiver.c:247-331 | so does every run of accepts, reads, errors and ends |
| `TcpSafety.DescriptorsConserved` | zperf/zperf_tcp_receiver.c:148-342 | at any time every descriptor obtained is in exactly one entry or closed; on every exit path all were closed exactly once |
| `TcpSafety.CleanStartIsSafe` | zperf/zperf_tcp_receiver.c:59-63 | from a table without running sessions no run refuses a chunk |
| `TcpStale.NeverRefusesIff` | zperf/zperf_tcp_receiver.c:59-63 | no run refuses a chunk if and only if no session was left running |
| `TcpStale.NextRun` | zperf/zperf_tcp_receiver.c:336-342 | a run leaves the next one safe exactly when no session was running at its end; no open connection is enough |
| `TcpStale.StopLeavesSession` | zperf/zperf_tcp_receiver.c:254-256 | from start-up some run that ends with a stop leaves a running session, and so a server that can refuse |
| `TcpRun.RunIsChunks` | zperf/zperf_tcp_receiver.c:247-331 | a run of the server is the session table fed with the run's chunks: same table, same callbacks |
| `TcpRun.ServerRun` | zperf/zperf_tcp_receiver.c:65-96 | in a server run no chunk is refused, each peer's callbacks alternate, and a peer left STARTED has a live connection |
| `TcpEndToEnd.StreamIsReported` | zperf/zperf_tcp_receiver.c:78-95 | the total reported at the end of a connection is the whole packets and prefixes of the upload that it carried, modulo 2^32, however the stream was cut |
| `TcpEndToEnd.ServerReports` | zperf/zperf_tcp_receiver.c:141-343 | so it is in every run of the server that starts with no running session |
| `WorkQueue.FlagProtocol` | zperf/zephyr/work.c:18-34 | under every interleaving an item is queued at most once, sending never blocks, the two read-modify-writes of one flag never overlap, the XOR clears a set bit |
| `WorkQueue.StepKeeps` | zperf/zephyr/work.c:74-93 | every step keeps: the pending bit is set exactly while the item is about to be queued, is queued or is being handed over |
| `WorkQueue.NothingLost` | zperf/zephyr/work.c:80-83 | accepted submissions are, in order, the handlers begun, the item in hand and the queue |
| `WorkQueue.BusyIff` | zperf/zperf_udp_uploader.c:333-335 | a submission is turned away exactly while its item is queued or being handed over |
| `WorkQueue.ParamsOverwritten` | zperf/zephyr/work.c:30-31 | a run in which a second submission overwrites the parameters of a running upload |
| `WorkQueue.SettledIffPendingAgain` | zperf/zperf_udp_uploader.c:333-341 | the parameters of a running handler can no longer change exactly when the item is pending again |
| `WorkQueue.WorkQ.UploadAsync` | zperf/zperf_tcp_uploader.c:180-198 | an undisturbed submission is five steps of the machine, or changes nothing when busy |
| `WorkQueue.WorkQ.WorkOnce` | zperf/zephyr/work.c:23-33 | an undisturbed round of the worker is five steps of the machine, on the oldest item |
| `Handshake.StartProtocol` | zperf/zperf_udp_receiver.c:402-455 | in every interleaving `running` holds exactly while one start is issued, waits or is served; the give meets an empty semaphore; each accepted start is one server session |
| `Handshake.StopProtocol` | zperf/zperf_udp_receiver.c:354-356 | a stop stays in force until its session is over, and a session obeys only its own stop |
| `Handshake.StopAndStartAgain` | zperf/zperf_udp_receiver.c:410-416 | from every reachable state a session that is stopped or fails ends, and the next start is accepted, taken and polls |
| `Handshake.ServerControl.Download` | zperf/zperf_tcp_receiver.c:377-398 | the error codes, and an accepted start as four steps of the machine |
| `Handshake.ServerControl.DownloadStop` | zperf/zperf_tcp_receiver.c:400-410 | the error code, and an accepted stop as two steps of the machine |

## Left out

- Socket creation, options, binding and choice of the local address (zperf/zperf_common.c:121-215 and the setup of both servers): only whether each call succeeded is an input.
- The poll loop of the UDP server (zperf/zperf_udp_receiver.c:346-393): a run is the sequence of datagrams it hands to `udp_received`. Its 16-byte `struct sockaddr` for an IPv6 source is read past its end by `get_session`; the model gives each datagram a whole address.
- A source of another family than IPv4 and IPv6: `GetSession` handles it, the results about runs assume there is none. The branch for an unsupported protocol and the unused state STATE_LAST_PACKET_RECEIVED.
- A callback that a stop sets to NULL: the callback is fixed during a session.
- `RateBound`: assumes that a sleep lasts at least the delay in ticks; by `SleepIsExact` that takes a 1000 Hz tick rate. The POSIX busy-wait variant is not modelled.
- `SendLoop`: tick readings fit in 32 bits and do not wrap during an upload; the 24-byte client header after the datagram header and the debug print are not modelled, payload bytes are free. No receiver reads that header.
- `UploadFin`: the loop that drains further replies, which changes no result.
- `WorkOnce`: the upload inside a handler, and which socket it opens.
- The handshake starts when the receiver thread has created its semaphore, and has one controlling task; the work queue has one submitting task.
- Whether a task is ever scheduled: these are safety results, except that every loop over finite input terminates.
- Shell, text to address conversion, hooks, logging, configuration, priorities and type of service.
