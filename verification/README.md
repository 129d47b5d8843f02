# netflow-analyzer: a verified model

A Dafny model of the flow engine of the analyzer, its packet parsers, its two
concurrency and framing labs, and its label-reuse audit, with proofs of what the
program is for. `dafny verify dfyconfig.toml` checks everything.

**The flow engine.** `FlowTable` is the C table as a class: an array of slots
under linear probing with tombstones, updated in place, over an arbitrary hash
function. It is proved to act on a map from flow keys to records
(`OpenAddressing` holds the theory of which slot arrays represent a map).
`FlowRecord` shows that the record kept for a flow is an independent summary of
its packets, whatever their order; `TcpFlowState` characterises the TCP observer
by what the segment sequence contains; `Expiration` is the event-time schedule.
`Engine` says what a capture means without any table: it partitions the accepted
packets into lifetimes. `App` is the packet loop; `CaptureLedger` and
`CaptureRun` carry its books from packet to packet. The result is
`App.RunCaptureAnalysis`: over any packet list, any hash, any idle timeout and both
full-table policies, the records written out and the records still resident at the end are
the summaries of the lifetimes, each exactly once; packets and bytes are
conserved; every export is counted by the way it left the table (`Departures`);
and the loop stops early exactly on three conditions a caller could check
beforehand. With a feature CSV attached there is a fourth, which `FeatureRun`
settles: the run completes if and only if every lifetime has features, which it
lacks exactly if one direction was captured longer than it was on the wire or the
packets span more than 2^64 - 1 microseconds. `Segmentation` and
`SegmentationIsTight` say exactly how scans and evictions cut a flow, for any packet
times, and what that means for the idle timeout when times never go back
(`CaptureRun.RecordsAreSegments` puts it in terms of the records left behind);
`GroupBy` says what remains when both are off, feature CSV included; `Determinism`
shows that the hash function cannot be seen, under eviction exactly if no packet
meets a tie between oldest records; `Mirroring`, `MirroredFrames` and
`MirroredCaptures` that exchanging source and destination in the bytes of every
frame mirrors every record and changes nothing else. `SamplePackets` holds two small
frames for the captures that serve as witnesses.

What these results rest on is stated a second time in plain terms, so that no
definition is left to speak for itself: `RawFrames` reads status, errno, addresses,
ports and TCP flags off a frame's bytes, `TcpTraces` says what the observer concludes
from lists of directions and flag bits, `Counters` says which packets each counter
counts, and `Reports` gives the two main outcomes over the arguments of a run: a
table of 256 flows, a scan every five seconds, a timeout in seconds.

**The parsers.** `ByteReader` and `Parsers` are the cursor and the six parsers as
imperative code over a shared result object; `FrameFormat` is the meaning of a
frame; `WireFormat` writes the header layouts of RFC 791, RFC 9293, RFC 768 and
RFC 792 as encoders and proves parsing to be their inverse; `FrameTheorems`
compares parses of different captures of one frame.

**The thread pipeline lab.** `BoundedFifo` is the queue without its ring, and
`PointerQueue` the ring buffer with wait loops, signal failures and roll-back,
proved against it; `Pipeline` is the producer, any number of workers, the output
thread and `main` as a transition system with spurious wake-ups, whose steps
`PipelineQueues` shows to be operations of that queue; `PipelineProgress` shows
that it never gets stuck and terminates; `OutOfMemory` that failing allocations
can block it for good if and only if there are more tasks than workers and queue
places together.

**The framing lab.** `Framing` sends and receives length-prefixed messages over a
socket whose two ends follow arbitrary scripts of partial transfers,
interruptions and failures.

**The audit.** `LabelIndex` and `LabelAudit` match flows with label intervals and
find, in two passes, the matches no other flow shares.

C integers are subset types of `int` (`Machine`), so every operation that could
leave its type is a proof obligation. Optional layers of a packet result, whose
`has_x` flag guards their fields, are `Option`s. NULL arguments are excluded by
types. An `errno` value that a function returns is its `Errno`.

## Notes

- The gap that always separates two packets of a flow is one microsecond shorter
  than idle timeout plus scan interval, because times are whole microseconds.
  `Segmentation.LifetimeSegmentation` states that bound. Between it and the idle
  timeout the gap alone does not decide: `SegmentationIsTight.EitherWay` gives, for
  every such gap, a capture of parseable frames that keeps the two packets together
  and one that separates them. What decides is the time of the last scan, which is a
  function of the packet times (`Segmentation.LastScan`).
- `input_value` is 32 bits wide while `task_id` has 64, so a result is the square of
  its id exactly up to id 2^32 - 1 (`Pipeline.OutputIsIdSquared`). The program
  accepts at most a million tasks (labs/thread_pipeline/pipeline_demo.c:28).
- The `exported` list is what the feature CSV is offered, row by row. The plain flow
  CSV receives the same records: it exists only for offline captures
  (src/app/app.c:3612-3620), where nothing is evicted (src/app/app.c:3545-3560). Its
  own checks (src/output/flow_export.c:60-87) hold of every record of a run.
- The predicates `CaptureRun.Accounted` and `CaptureRun.Departed`, from which the
  whole-run lemmas start, are what `App.RunCaptureAnalysis` establishes for every
  capture that completes.
- A run that stops at a record without features never learns how the capture would
  have gone on. `App.RunCaptureAnalysis` then names a run over the whole capture, one
  that begins like it (`FeatureRun.StopsForGood`), in which the record's lifetime is
  over and has no features.
  It is the only run of the capture exactly if it meets no tie
  (`Determinism.OnlyRunIffNoTies`); then the feature CSV completes if and only if
  some run leaves only lifetimes with features (`Determinism.RunTwice`). Under reject
  without expiration the capture alone says which (`GroupBy.GroupsFit`).
- `PipelineProgress.NoDeadlock` needs every allocation to succeed. Without that the
  exact condition is the one of `OutOfMemory.BlocksIffTooManyTasks`, on the number
  of tasks and workers a pipeline is started with.

## Model

| member | source | states |
|---|---|---|
| OpenAddressing.ContentsRepresent | src/flow/flow_table.c:164-310 | the map a slot array stands for holds exactly the stored records, when keys are distinct |
| OpenAddressing.EmptyEndsSearch | src/flow/flow_table.c:206-223 | meeting an EMPTY slot before the key proves the key is nowhere in the table |
| OpenAddressing.Write | src/flow/flow_table.c:428-549 | writing a record on its own probe path removes what the slot held and inserts the record; every probe chain survives, for creation, update and in-place replacement alike |
| OpenAddressing.Bury | src/flow/flow_table.c:657-668 | a tombstone removes one entry and breaks no probe chain |
| OpenAddressing.Vacant | src/flow/flow_table.c:670-680 | an array without occupied slots is the empty map whatever tombstones it holds |
| OpenAddressing.ReducedIsModulo | src/flow/flow_table.c:185-195 | the home slot is the hash modulo the capacity |
| FlowTable.FlowTable.constructor | src/flow/flow_table.c:312-358 | the initialised table is the empty map with zero statistics |
| FlowTable.FlowTable.RecordProbe | src/flow/flow_table.c:53-101 | after any probes the counters are the true totals cut off at 2^64 - 1, the flag is set iff a counter is at the limit, and the maximum never falls below a probe |
| FlowTable.StatisticsMeaning | src/flow/flow_table.c:53-101 | the true totals spelled out: the largest probe, the number of probes and of inspected slots, each up to 18446744073709551615 |
| FlowTable.FlowTable.Scan | src/flow/flow_table.c:164-310 | on any array with a right count, the loop reports the first stop, the first free slot before it - a tombstone if one comes first, else the EMPTY slot - and the oldest record of all when nothing is free |
| FlowTable.FlowTable.Probe | src/flow/flow_table.c:164-310 | on a reachable table a probe finds the key iff the map has it, reports ENOSPC iff the key is absent and the table full, and never its corruption errors |
| FlowTable.ProbeMeaning | src/flow/flow_table.c:164-310 | what the loop saw determines presence, absence and fullness in the map |
| FlowTable.FlowTable.UpdateAt | src/flow/flow_table.c:484-512 | the packet is absorbed into its record only; on overflow nothing changes |
| FlowTable.FlowTable.CreateAt | src/flow/flow_table.c:513-549 | a new key is added with the summary of one packet |
| FlowTable.FlowTable.ReplaceAt | src/flow/flow_table.c:428-483 | in-place replacement equals removing a globally oldest record, returned unchanged, and then inserting the new one |
| FlowTable.FlowTable.EvictThenProcess | src/flow/flow_table.c:428-483 | evicting and then processing the packet on a full table ends as the one-pass replacement prescribes |
| FlowTable.ReplaceIsEvictThenInsert | src/flow/flow_table.c:428-483 | the one-pass replacement is possible iff evicting that oldest record and then inserting is, with the same result |
| FlowTable.FlowTable.ProcessPacket | src/flow/flow_table.c:360-585 | one packet acts on the map as specified for hit, miss, full-reject and full-evict, and the slot returned holds its record; totals are conserved and the recorded probe length is the true one |
| FlowTable.FlowTable.FindOldest | src/flow/flow_table.c:587-657 | the first pass finds a record nobody was seen before; ENOENT iff the table is empty |
| FlowTable.FlowTable.EvictOldest | src/flow/flow_table.c:587-688 | removes exactly one oldest record and returns it; ENOENT iff the table is empty; errors change nothing |
| FlowTable.FlowTable.CountDue | src/flow/flow_table.c:690-757 | the validation pass succeeds on every reachable table and counts the due records |
| FlowTable.FlowTable.ExpireBefore | src/flow/flow_table.c:690-805 | keeps exactly the records last seen after the cutoff, lists each other record once, conserves totals; ENOSPC iff they do not fit, changing nothing |
| FlowTable.DueCountIsRemoved | src/flow/flow_table.c:711-790 | what the first pass counts is what the second removes |
| FlowTable.FlowTable.Find | src/flow/flow_table.c:807-845 | returns the map's record, or ENOENT iff the key is absent, full table included |
| FlowTable.FlowTable.Get | src/flow/flow_table.c:847-895 | returns the i-th resident record in slot order, ERANGE iff the index is not below count |
| FlowKey.FromPacket | src/flow/flow_key.c:53-173 | a packet has a key iff it is complete and carries exactly the layer of its protocol 6, 17 or 1; the key holds its two (address, port) pairs, lower address first and then lower port, ports being 0 for ICMP; the direction says whether the first pair is the source; ENOTSUP iff only the protocol is another one |
| FlowKey.KeyIsUnorderedPair | src/flow/flow_key.c:53-173 | equal keys mean equal protocol and equal unordered endpoint pair; directions then agree iff the sources do |
| TcpFlowState.EventOfBits | src/flow/tcp_flow_state.c:121-167 | which event each flags word is, bit by bit: RST before FIN before SYN and ACK |
| TcpFlowState.Observe | src/flow/tcp_flow_state.c:169-338 | one call applies the transition of the classified event, with its error cases; bit 2 resets, bit 0 without it starts or continues closing |
| TcpFlowState.PhaseCharacterised | src/flow/tcp_flow_state.c:193-335 | for each of the nine phases the exact condition on the segments seen so far |
| TcpFlowState.DirectionsCharacterised | src/flow/tcp_flow_state.c:193-335 | the initiator is the sender of the first segment iff that is a SYN, and the first closer the sender of the first FIN unless an RST came before |
| TcpTraces.ObserverMeaning | src/flow/tcp_flow_state.c:121-335 | over any list of directions and flags: CLOSED, RESET and the handshake flag in terms of flag bits |
| TcpFlowState.ClosedCharacterised | src/flow/tcp_flow_state.c:193-335 | CLOSED iff a first FIN, a later FIN of the other side and a later pure ACK of the first occur before any RST |
| TcpFlowState.ResetCharacterised | src/flow/tcp_flow_state.c:193-335 | RESET iff an RST occurs before such a closure |
| TcpFlowState.TerminalPhasesAbsorb | src/flow/tcp_flow_state.c:193-215 | nothing leaves CLOSED or RESET |
| TcpFlowState.HandshakeCharacterised | src/flow/tcp_flow_state.c:193-335 | the handshake flag is set iff some prefix is SYNs of one side, SYN-ACKs of the other, then an ACK of the first |
| TcpFlowState.MirrorSymmetry | src/flow/tcp_flow_state.c:193-335 | reversing every direction keeps phase and handshake flag and reverses the recorded directions |
| FlowRecord.CountersFit | src/flow/flow_record.c:41-71 | one more packet fits iff the packet, captured and wire counters each stay within 2^64 - 1 |
| FlowRecord.AddPacket | src/flow/flow_record.c:41-71 | all three counters grow together, or EOVERFLOW and none does |
| FlowRecord.InitRecord | src/flow/flow_record.c:96-208 | the first record of a keyed packet is the summary of that packet; the error is the key's |
| FlowRecord.UpdateRecord | src/flow/flow_record.c:210-325 | absorbs a packet of the same flow; ENOENT for another flow; EOVERFLOW iff a counter would leave 64 bits; failures change nothing |
| FlowRecord.SummaryOfOne | src/flow/flow_record.c:96-208 | initialisation is the summary of a one-packet list |
| FlowRecord.SummaryExtends | src/flow/flow_record.c:210-325 | absorbing packets one by one computes the summary of the list: totals per direction, time range, observer state |
| FlowRecord.SummaryMeaning | src/flow/flow_record.c:96-325 | the record counts the packets of each direction apart, its times are those of the earliest and the latest packet, and its TCP state is the observer's after all segments in order |
| FlowRecord.SummaryCounts | src/flow/flow_record.c:256-322 | one more packet adds its captured and wire bytes to the counters of its own direction and leaves the other alone |
| FlowRecord.SummaryIgnoresOrder | src/flow/flow_record.c:256-322 | permuting a flow's packets changes nothing but what the TCP observer makes of the order |
| FlowRecord.MirrorPacketReverses | src/flow/flow_key.c:132-164 | exchanging source and destination keeps the key and, unless they are equal, reverses the direction |
| FlowRecord.SummaryMirrors | src/flow/flow_record.c:256-322 | reversing every packet of a flow with two ends swaps the two directions' counters and keeps times, phase and handshake flag |
| Timestamps.MicrosCounts | include/analyzer/flow_record.h:10-30 | the microsecond number counts the valid time stamps in order without gaps |
| Timestamps.Compare | src/flow/flow_record.c:13-34 | field-wise comparison is comparison of the time in microseconds |
| Expiration.Schedule.IntervalElapsed | src/flow/flow_expiration.c:43-67 | true iff the interval has passed, also where the sum would leave int64 |
| Expiration.Schedule.Observe | src/flow/flow_expiration.c:128-196 | one observation advances the clock and yields latest - idle as cutoff iff a scan is due; ERANGE iff that cutoff is not representable, changing nothing |
| Expiration.ScheduleOverAnyTimes | src/flow/flow_expiration.c:128-196 | over any time sequence the mark is its maximum, less than one interval past the last scan, and cutoffs climb by at least one interval |
| Engine.LastSeenOfRecord | src/flow/flow_record.c:307-317 | a lifetime's age is its record's last_seen |
| Engine.StepKeepsSound | src/app/app.c:2187-2490 | one packet keeps the accepted packets partitioned into lifetimes of one flow each |
| Engine.RunIsSound | src/app/app.c:1995-2490 | at every point of every run the accepted packets are so partitioned and at most capacity lifetimes are live |
| Segmentation.RunIsGood | src/app/app.c:2211-2390 | joint invariant of loop, schedule and table: a flow is resident iff its last accepted packet is younger than the last cutoff |
| Segmentation.DecisionsAreFinal | src/app/app.c:2187-2490 | later packets never rejoin, separate, reject or unreject earlier ones |
| Segmentation.SegmentsExactly | src/app/app.c:2187-2490 | over any packet times and under either policy, neighbouring accepted packets of a flow share a lifetime iff between them no packet displaced the flow and no scan, at times that follow from the packet times alone, found it idle for the timeout |
| Segmentation.SeenCarries | src/flow/flow_record.c:305-318 | the moment a flow counts as last seen follows from the same decisions: the later of two times when a packet joins, its own time when it starts anew |
| Segmentation.SeenStarts | src/flow/flow_record.c:96-208 | and its own time for the flow's first accepted packet |
| Segmentation.LifetimeSegmentation | src/app/app.c:2211-2390 | if times never go back, neighbouring packets of a flow share a record iff the last scan up to the second comes before the first one's idle timeout; so they do if the gap is below the timeout, and never if it reaches timeout + interval - 1 microsecond |
| SegmentationIsTight.CaptureRuns | src/app/app.c:2211-2390 | a family of captures of four parseable or empty frames over which the analysis completes, with the exact outcome of every run |
| SegmentationIsTight.EitherWay | src/flow/flow_expiration.c:128-196 | for every gap between the bounds one capture keeps the packets together in every run and one separates them in every run |
| RuntimeMetrics.Metrics.AddPacket | src/metrics/runtime_metrics.c:120-154 | all three totals grow, or EOVERFLOW and none does |
| RuntimeMetrics.Metrics.AddPacketResult | src/metrics/runtime_metrics.c:156-209 | exactly the counter named after the class grows by one, or EOVERFLOW |
| RuntimeMetrics.Metrics.AddExpiredFlows | src/metrics/runtime_metrics.c:211-227 | checked addition |
| RuntimeMetrics.Metrics.AddEvictedFlows | src/metrics/runtime_metrics.c:229-249 | checked addition |
| CaptureLedger.CompletePacketsArrive | src/app/app.c:1305-1383 | a packet reaches the flow table iff its parse is complete |
| CaptureLedger.AdmitMirrors | src/app/app.c:1313-1383 | what the table does with a packet is a step of the engine with a legal victim |
| CaptureLedger.ExpireMirrors | src/app/app.c:2241-2265 | a scan of the table is the engine's scan |
| CaptureLedger.RemovalSettles | src/app/app.c:2267-2370 | records that leave the table close their lifetimes, each exported once |
| CaptureLedger.AdmitSettles | src/app/app.c:2407-2490 | a packet exports at most the record it displaced |
| CaptureLedger.ProcessedFits | src/flow/flow_record.c:41-71 | no record counter can overflow before the grand totals do |
| CaptureLedger.ClassesPartition | src/metrics/runtime_metrics.c:156-209 | every packet is in exactly one of the five result classes |
| CaptureLedger.StepKeepsLog | src/app/app.c:2187-2490 | one pass of the loop takes right books to right books |
| CaptureRun.StepStops | src/app/app.c:2187-2490 | the loop goes on iff totals fit, the time is valid and the cutoff is representable |
| CaptureRun.SweepSettles | src/app/app.c:2598-2641 | the final sweep closes every remaining lifetime, each once |
| CaptureRun.RecordsAreSegments | src/app/app.c:2211-2641 | the records a completed run leaves cut each flow exactly at those scans and evictions; if times never go back, exactly where the last scan came too late |
| CaptureRun.FiveClassesAddUp | src/metrics/runtime_metrics.c:156-209 | the five counters sum to the packet count and the records count exactly the complete packets |
| Counters.ClassMeaning | src/app/app.c:1186-1303 | a packet is of a class iff its final parse status, and for complete ones the table's answer, say so |
| Counters.CountersMeaning | src/app/app.c:1004-1392 | each counter of a completed run is the number of packets with that status, rejected ones counted apart, and the byte totals are the sums over all packets |
| CaptureRun.ExportsContinue | src/app/app.c:2187-2490 | one pass of the loop counts each record it takes out once, as expired before the packet or displaced by it |
| CaptureRun.PolicyCounts | src/app/app.c:2241-2460 | nothing is evicted under the reject policy and nothing expires without an idle timeout; the two counters sum to the exports |
| Departures.StepDepartures | src/app/app.c:2241-2460 | a scan lists exactly the flows it takes out of the engine's state, and a packet displaces a record iff its flow is new, the table full and the policy eviction |
| App.ParsePacket | src/app/app.c:1052-1300 | the chain ends in the parse of the frame with the errno of its status, never EINVAL for a valid time |
| App.ProcessPacket | src/app/app.c:1004-1392 | a packet is counted as truncated, malformed or unsupported iff its parse ends so, as rejected iff it is complete and a full table under reject turned it away; that is a result, not an error |
| App.Analysis.Scan | src/app/app.c:2217-2370 | schedule, expiration and export before the packet, with the exact error condition |
| App.Analysis.Step | src/app/app.c:2187-2490 | one pass of the loop, its exact error, the first export without features included, and its effect on table, exports, schedule and every counter |
| App.Sweep | src/app/app.c:2598-2641 | indices 0..count-1 visit every resident record once, in slot order |
| App.AnalyzePackets | src/app/app.c:1995-2490 | the loop keeps the books, the counters and the departures over every packet list; it stops early only for the listed reasons or for a record without features, which then has none in the whole capture |
| Counters.StopsMeaning | src/app/app.c:2187-2490 | the packet a run stops at is the first that overflows a total (EOVERFLOW), else carries microseconds outside 0..999999 (EINVAL), else makes a scan whose cutoff lies below every int64 second (ERANGE) |
| App.RunCaptureAnalysis | src/app/app.c:1569-2641 | completes iff the capture fits and, with a feature CSV, every lifetime has features; then exported and resident records are the summaries of all lifetimes, each once, packets and bytes are conserved, every counter is the number of packets or flows it names, and each record has its row of features; nothing is evicted under reject, nothing rejected under eviction, nothing expired without a timeout; a run without a feature CSV that does not complete ends with the error of the first packet it cannot take |
| Reports.ReportSegments | src/app/app.c:1569-2641 | under reject, with packet times that never go back, consecutive counted packets of a flow share a record iff the last five-second scan came before the idle timeout in seconds ran out; so they do below the timeout and do not from timeout + 4.999999 seconds on |
| Reports.ReportGroups | src/app/app.c:1569-2641 | under reject without a timeout there is one record for each of the first 256 flows, the summary of all its packets, and nothing was exported on the way |
| GroupBy.RunIsGroupBy | src/flow/flow_table.c:360-549 | under reject without expiration the first capacity flows have one lifetime with all their packets and exactly the others' packets are rejected |
| GroupBy.TableIsGroupBy | src/app/app.c:1313-1383 | so the table maps each of those flows to the summary of all its packets |
| GroupBy.ResidentsAreGroupBy | src/app/app.c:2598-2641 | and a completed run has exported nothing and leaves one record for each of those flows, the summary of all its packets |
| GroupBy.GroupsFit | src/app/app.c:2623-2640 | it completes its feature CSV iff the packets of each of those flows, taken together, have features, a condition on the capture alone |
| Determinism.TieChooses | src/flow/flow_table.c:428-483 | at a tie between oldest records both evictions are legal and lead to different states |
| Determinism.RunIsDetermined | src/flow/flow_table.c:587-657 | a run that meets no tie has the same states as any other run of the capture |
| Determinism.OnlyRunIffNoTies | src/flow/flow_table.c:587-657 | a run is the only one of its capture iff it meets no tie |
| Determinism.DistinctTimesLeaveNoChoice | src/flow/flow_table.c:619-648 | there is no tie if no two packets of different flows carry one time |
| Determinism.FewFlowsLeaveNoChoice | src/flow/flow_table.c:428-483 | nor if the capture has no more flows than the table has slots |
| Determinism.HashIsUnobservable | src/flow/flow_key.c:287-331 | if a complete run meets no tie, any other, with any hash function, classifies every packet alike, exports and keeps the same records and agrees in every counter |
| Determinism.RunTwice | src/app/app.c:1569-2641 | the same of two calls of the program's analysis, which also complete or stop together, and complete iff nothing stops them early and, with a feature CSV, some run leaves only lifetimes with features |
| Mirroring.RunIsSame | src/app/app.c:2187-2490 | reversing the direction of every packet leaves each run as it is, state by state |
| Mirroring.RecordMirrors | src/flow/flow_record.c:256-322 | and each lifetime's record becomes its mirror image |
| MirroredFrames.FrameMirrors | src/protocol/ipv4_dispatch.c:10-104 | exchanging addresses and ports in the bytes of any frame exchanges source and destination in what it parses to, and nothing else |
| MirroredCaptures.AccountedMirrors | src/app/app.c:1569-2641 | what the books of a completed run say of a capture they say of the reversed capture with every record mirrored |
| MirroredCaptures.ReversalMirrors | src/app/app.c:1569-2641 | without ties, a run over the reversed capture exports and keeps the mirrored records and agrees in every class and counter |
| MirroredCaptures.RunReversed | src/app/app.c:1569-2641 | the same of two calls of the program's analysis, which also complete or stop together |
| ByteReader.ByteCursor.ReadU8 | src/common/byte_reader.c:123-154 | all-or-nothing one-byte read |
| ByteReader.ByteCursor.ReadBe16 | src/common/byte_reader.c:156-204 | all-or-nothing big-endian read |
| ByteReader.ByteCursor.ReadBe32 | src/common/byte_reader.c:206-249 | all-or-nothing big-endian read |
| ByteReader.ByteCursor.ReadBytes | src/common/byte_reader.c:251-301 | all-or-nothing copy |
| ByteReader.ByteCursor.Skip | src/common/byte_reader.c:303-325 | moves within the data or not at all |
| ByteReader.ByteCursor.ReadSlice | src/common/byte_reader.c:327-386 | a child cursor over exactly the bytes passed |
| PacketInfo.PacketResult.Init | src/protocol/packet_info.c:25-123 | blank result, or EINVAL and no change for invalid microseconds |
| PacketInfo.PacketResult.RecordError | src/protocol/packet_info.c:125-157 | records a failure iff its arguments are those of one and its offset lies in the capture; else EINVAL and no change |
| PacketInfo.PacketResult.MarkComplete | src/protocol/packet_info.c:159-171 | completes an initialised result |
| Parsers.PayloadView | src/protocol/ipv4.c:391-450 | succeeds iff the layer is present and its window lies in the frame, and views exactly that window |
| Parsers.EthernetParse | src/protocol/ethernet.c:33-168 | publishes the header or records truncation; EINVAL and no change out of order |
| Parsers.Ipv4Parse | src/protocol/ipv4.c:59-389 | publishes the header or records the failure the bytes mean; EINVAL and no change out of order or if the Ethernet payload is not in the frame |
| Parsers.TcpParse | src/protocol/tcp.c:52-402 | the same for TCP, where fragments and short payloads are recorded even if the payload is not in the frame |
| Parsers.UdpParse | src/protocol/udp.c:35-250 | the same for UDP |
| Parsers.IcmpParse | src/protocol/icmp.c:45-257 | the same for ICMP |
| Parsers.DispatchPayload | src/protocol/ipv4_dispatch.c:10-104 | the protocol's parser decides, then the result is complete; an unknown protocol is recorded, an inconsistent IPv4 result is not |
| FrameTheorems.ParseIsTotal | src/protocol/packet_info.c:125-157 | any bytes end in one of four classes with the matching errno, offsets and views inside the capture, and a flow key iff complete |
| RawFrames.StatusOfBytes | src/protocol/ipv4_dispatch.c:10-104 | for any frame, in terms of its bytes: exactly which end complete, truncated, malformed, unsupported or not IPv4, and with which errno |
| RawFrames.FaultOfBytes | include/analyzer/packet_info.h:480-575 | a frame that fails names the layer whose bytes are at fault and the byte offset: the wrong field, or the end of what was captured |
| RawFrames.HeadersOfBytes | include/analyzer/packet_info.h:107-470 | every field of the Ethernet, IPv4 and TCP, UDP or ICMP header of a complete frame is at the byte its standard gives, and exactly one layer is found behind IPv4 |
| RawFrames.EndpointsOfBytes | src/flow/flow_key.c:53-142 | source and destination of a complete frame are the addresses at bytes 26 and 30 and the ports behind the IPv4 header; the TCP flags are its nine flag bits |
| RawFrames.SameFlowInBytes | src/flow/flow_key.c:142-166 | two complete frames have one key iff they carry the same protocol between the same two addresses and ports, in either direction |
| FrameTheorems.ShorterCapture | src/protocol/ipv4.c:106-380 | a prefix of a frame has the frame's class or is truncated, and if complete has the same headers, key and direction |
| FrameTheorems.PaddingIsInvisible | src/protocol/ipv4.c:300-375 | bytes after a fully captured datagram change nothing above Ethernet |
| WireFormat.Ipv4Encode | src/protocol/ipv4.c:139-375 | parsing the layout of a consistent IPv4 header returns it |
| WireFormat.Ipv4Decode | src/protocol/ipv4.c:139-375 | an accepted IPv4 header is the layout of what was parsed |
| WireFormat.TcpEncode | src/protocol/tcp.c:150-395 | parsing the layout of a consistent TCP header returns it |
| WireFormat.TcpDecode | src/protocol/tcp.c:150-395 | an accepted TCP header is the layout of what was parsed |
| WireFormat.UdpEncode | src/protocol/udp.c:113-244 | parsing the layout of a UDP header returns it |
| WireFormat.UdpDecode | src/protocol/udp.c:113-244 | an accepted UDP header is the layout of what was parsed |
| WireFormat.IcmpEncode | src/protocol/icmp.c:120-251 | parsing the layout of an ICMP header returns it, echo fields included |
| WireFormat.IcmpDecode | src/protocol/icmp.c:120-251 | an accepted ICMP header is the layout of what was parsed |
| WireFormat.ParseOfFrameBytes | src/protocol/ipv4_dispatch.c:10-104 | parsing undoes encoding for whole frames with options, payload and padding, complete or cut short |
| WireFormat.HeadersOfParsedFrame | src/protocol/ethernet.c:33-168 | the first bytes of an IPv4 frame are the encodings of its parsed headers |
| WireFormat.UpperOfParsedFrame | src/protocol/ipv4_dispatch.c:10-104 | and so is the upper layer |
| PointerQueue.PointerQueue.constructor | labs/thread_pipeline/pointer_queue.c:5-62 | an empty open queue with all slots NULL |
| PointerQueue.Create | labs/thread_pipeline/pointer_queue.c:5-62 | the mutex and both condition variables are held iff all could be initialised; else none, and the first error is returned |
| PointerQueue.PointerQueue.InsertItem | labs/thread_pipeline/pointer_queue.c:100-134 | appends, or undoes everything when the signal fails |
| PointerQueue.PointerQueue.RemoveItem | labs/thread_pipeline/pointer_queue.c:185-225 | takes the first item, or puts it back when the signal fails |
| PointerQueue.PointerQueue.Push | labs/thread_pipeline/pointer_queue.c:64-143 | acts on the queue as it is when the waiting ends; an error or a closed queue inserts nothing |
| PointerQueue.PointerQueue.Pop | labs/thread_pipeline/pointer_queue.c:145-237 | the dual; ECANCELED iff closed and empty |
| PointerQueue.PointerQueue.CloseQueue | labs/thread_pipeline/pointer_queue.c:239-291 | closes and keeps the items; returns the first error of the two broadcasts |
| PointerQueue.PointerQueue.Destroy | labs/thread_pipeline/pointer_queue.c:293-358 | EBUSY iff open or not empty; else the first error of the three destructions |
| PointerQueue.PointerQueue.CleanUp | labs/thread_pipeline/pipeline_demo.c:125-181 | frees the remaining items in order, all of them or up to the first failing pop, and returns the first error of closing, draining and destroying |
| PointerQueue.WindowInsert | labs/thread_pipeline/pointer_queue.c:100-134 | the live window grows at the tail across wrap-around |
| PointerQueue.WindowRemove | labs/thread_pipeline/pointer_queue.c:185-225 | and shrinks at the head |
| BoundedFifo.PushMeaning | labs/thread_pipeline/pointer_queue.c:64-143 | a push goes through waits only while the queue holds four items and is open, then appends its item if the signal succeeds, is cancelled if the queue is closed, ends with a failing wait's error, or is still asleep |
| BoundedFifo.PopMeaning | labs/thread_pipeline/pointer_queue.c:145-237 | a pop goes through waits only while the queue is empty and open, then takes the first item if the signal succeeds, is cancelled if the queue is closed and empty, ends with a failing wait's error, or is still asleep |
| BoundedFifo.FirstInFirstOut | labs/thread_pipeline/pointer_queue.c:92-236 | under any interleaving items leave in the order they came, none lost, none twice |
| PipelineQueues.ProducerMoveIsPush | labs/thread_pipeline/pipeline_threads.c:28-85 | a step of a producer with tasks left is one evaluation of push on the task queue |
| PipelineQueues.WorkerMoveIsPop | labs/thread_pipeline/pipeline_threads.c:102-185 | a step of a worker without a result is one evaluation of pop, and it works on what it got |
| PipelineQueues.WorkerMoveIsPush | labs/thread_pipeline/pipeline_threads.c:102-185 | a step of a worker with a result is one evaluation of push on the result queue |
| PipelineQueues.OutputMoveIsPop | labs/thread_pipeline/pipeline_threads.c:259-327 | a step of the output thread is one evaluation of pop on the result queue |
| PipelineQueues.PushGoesOn | labs/thread_pipeline/pointer_queue.c:92-98 | a call that fell asleep and was woken goes on as a call made then |
| PipelineQueues.TasksLeaveInOrder | labs/thread_pipeline/pipeline_threads.c:28-185 | in every run the tasks taken so far and those still queued are together the created ones in the order of their ids |
| Pipeline.MoveKeepsInv | labs/thread_pipeline/pipeline_threads.c:28-327 | every step, spurious wake-ups included, keeps the invariants on threads, shutdown, wake-ups, places and values |
| Pipeline.RunsKeepInv | labs/thread_pipeline/pipeline_threads.c:28-327 | so every reachable state satisfies them |
| Pipeline.ProducerMoveWakes | labs/thread_pipeline/pipeline_threads.c:28-85 | no producer step loses a wake-up: sleepers on not_empty imply items no more than the woken poppers, or a closed queue has none |
| Pipeline.WorkerMoveWakes | labs/thread_pipeline/pipeline_threads.c:102-185 | nor does a worker step, on either queue |
| Pipeline.OutputMoveWakes | labs/thread_pipeline/pipeline_threads.c:259-327 | nor a step of the output thread |
| Pipeline.MainMoveWakes | labs/thread_pipeline/pipeline_demo.c:347-478 | nor starting, joining and closing |
| Pipeline.ProducerMovePlaces | labs/thread_pipeline/pipeline_threads.c:28-85 | every created task stays in exactly one place |
| Pipeline.WorkerMovePlaces | labs/thread_pipeline/pipeline_threads.c:102-185 | also while a worker turns it into a result |
| Pipeline.PushesMeetOpenQueues | labs/thread_pipeline/pipeline_demo.c:427-466 | no push meets a closed queue |
| PipelineProgress.NoDeadlock | labs/thread_pipeline/pipeline_demo.c:347-478 | before the end some thread can move without a spurious wake-up |
| PipelineProgress.OnlyBlockedDeadlocks | labs/thread_pipeline/pipeline_threads.c:102-185 | even with failing allocations nobody can move before the end iff every worker is gone while the producer waits for room |
| OutOfMemory.FaultKeepsProtocol | labs/thread_pipeline/pipeline_threads.c:28-40 | a producer or worker that ends for want of memory keeps shutdown order and wake-ups intact |
| OutOfMemory.FaultyRunsDeadlock | labs/thread_pipeline/pipeline_threads.c:28-185 | over all runs with failing allocations that state is the only deadlock |
| OutOfMemory.FewTasksNeverBlock | labs/thread_pipeline/pipeline_threads.c:139-146 | with no more tasks than workers and queue places together, some thread can move in every state before the end, whatever allocations fail |
| OutOfMemory.OutOfMemoryBlocks | labs/thread_pipeline/pipeline_threads.c:139-146 | for every larger number of tasks there is a run in which each worker runs out of memory and the producer waits for good |
| OutOfMemory.BlocksIffTooManyTasks | labs/thread_pipeline/pipeline_threads.c:28-185 | so failing allocations can stop a pipeline short of its end iff tasks exceed workers plus the four queue places |
| OutOfMemory.FaultyRunsAreFinite | labs/thread_pipeline/pipeline_threads.c:28-327 | and runs with failing allocations are finite if their spurious wake-ups are |
| PipelineProgress.StepsBurnFuel | labs/thread_pipeline/pipeline_threads.c:28-327 | a measure drops with every step and rises by one with a spurious wake-up |
| Pipeline.EndedDelivers | labs/thread_pipeline/pipeline_demo.c:427-529 | at the end both queues are closed and empty and each id 1..n was received exactly once, with the square of its input, which is the id if that fits 32 bits |
| PipelineProgress.PipelineTerminates | labs/thread_pipeline/pipeline_demo.c:347-529 | runs with finitely many spurious wake-ups are finite, and one in which nobody can move has delivered everything |
| Pipeline.OutputIsIdSquared | labs/thread_pipeline/pipeline_threads.c:48-60 | the result of id is id squared iff id fits 32 bits |
| Framing.EncodeHeader | labs/tcp_framing/message.c:64-162 | writes 4E 46 41 4E, version 1, type 1 or 2, two zeros and the length in base 256, with the checks in order; errors write nothing |
| Framing.HeaderLayout | labs/tcp_framing/message.h:35-60 | and these are the only twelve bytes of a header with that type and length |
| Framing.DecodeHeader | labs/tcp_framing/message.c:164-259 | for any bytes the exact error, or the header that they hold |
| Framing.DecodeAcceptsEncodings | labs/tcp_framing/message.c:164-259 | twelve bytes are accepted iff they are the encoding of the header returned |
| Framing.Connection.SendAll | labs/tcp_framing/stream_io.c:25-115 | puts a prefix on the wire, the whole iff it succeeds; interruptions are retried, a failure is the error of the first call that neither moves bytes nor is interrupted (EPIPE if it moves none), and enough transfers make it succeed |
| Framing.Connection.ReceiveExact | labs/tcp_framing/stream_io.c:117-176 | takes a prefix off the wire into the buffer, of the full length iff it succeeds; a failure is that of the first call that neither moves bytes nor is interrupted (ECONNRESET at the end of the stream), and enough transfers and bytes make it succeed |
| Framing.SendMessage | labs/tcp_framing/message_io.c:8-90 | sends one frame; an invalid message sends nothing, and any other failure is the one the socket script ends with |
| Framing.FrameLayout | labs/tcp_framing/message_io.c:8-90 | a frame is those twelve bytes and then the payload of at most 4096 bytes |
| Framing.ReceiveMessage | labs/tcp_framing/message_io.c:92-176 | takes exactly one frame; only the socket can make a waiting frame fail; a failed call leaves the caller's header alone |
| Framing.FramesAreSelfDelimiting | labs/tcp_framing/message.c:64-259 | no frame is the beginning of another message's frame |
| Framing.StreamIsUnambiguous | labs/tcp_framing/message_io.c:8-176 | a byte stream is the stream of at most one list of messages |
| Framing.ReceiveMessages | labs/tcp_framing/message_io.c:92-176 | n receives return the n messages sent and use the stream up |
| Framing.Converse | labs/tcp_framing/message_io.c:8-176 | however sends and receives take turns and transfers are cut up, what was received is the beginning of what was sent and the stream holds exactly the rest; if no receive comes before its send and the scripts only interrupt, all succeed |
| LabelIndex.AppendLabel | scripts/iot23_label_index.py:120-144 | adds one supervisable label under its key; an unknown group is an error |
| LabelIndex.BuildLabelIndex | scripts/iot23_label_index.py:147-157 | the index groups all supervisable labels by key in file order |
| LabelIndex.LabelsForMeaning | scripts/iot23_label_index.py:120-157 | the labels under a key are the intervals of exactly the malicious and benign records with that key |
| LabelIndex.BuiltIndexIsValid | scripts/iot23_label_index.py:120-157 | an index of normalised identities has valid intervals |
| LabelIndex.Classify | scripts/iot23_label_index.py:180-264 | a unique match names the only overlapping label |
| LabelIndex.ClassifyMeaning | scripts/iot23_label_index.py:180-264 | each status holds iff no, exactly one, or disagreeing labels overlap the flow; the count is the number of overlapping labels and the group the one they all share |
| LabelIndex.ClassifyAccepts | scripts/iot23_label_index.py:180-264 | on any index a flow is an error iff its interval is not one of int64 or an overlapping label is neither malicious nor benign |
| LabelIndex.BoundaryMeaning | scripts/iot23_label_index.py:47-104 | the relation says how the intervals relate as sets of moments; not disjoint iff they overlap |
| LabelAudit.Audit | scripts/audit_iot23_flow_matches.py:49-146 | fails iff there are no rows or one cannot be classified; the dictionary lists each record's rows |
| LabelAudit.AuditMeaning | scripts/audit_iot23_flow_matches.py:110-146 | a row is unreused iff no other row matches its label record, and the twelve counters fit together |
| LabelAudit.CountersMeaning | scripts/audit_iot23_flow_matches.py:73-146 | each counter is the number of rows, or of label records, that its name says |
| LabelAudit.ReviewMeaning | scripts/audit_iot23_flow_matches.py:148-184 | with the set of the same file the review never fails and sorts rows into unreused, reused and not unique |
| LabelAudit.AuditBoundaries | scripts/audit_iot23_flow_matches.py:328-426 | on unchanged input the second pass fails only where the first does; each count is the number of unreused rows with that relation, they sum to the unreused rows, none disjoint, and the exact rows are right |
| FlowFeatures.CalculateDuration | src/flow/flow_features.c:135-209 | the exact microsecond difference, EOVERFLOW iff it exceeds 2^64 - 1 |
| FlowFeatures.FromRecord | src/flow/flow_features.c:240-391 | integer features are the record's totals; which error each rejected record gets, in the order of the checks |
| FlowFeatures.WriteRows | src/app/app.c:865-930 | rows for all records, or the first record's error |
| FeatureRun.OverForGood | src/app/app.c:2267-2460 | a lifetime whose record has left the table is never touched again |
| FeatureRun.StopsForGood | src/app/app.c:2325-2460 | a run stopped by a record without features begins a run over the whole capture in which that lifetime has none |
| FeatureRun.FitMeaning | src/flow/flow_features.c:35-62 | in a capture that fits the counters, a lifetime has features iff in neither direction it was captured longer than on the wire and its packets span at most 2^64 - 1 microseconds |
| FeatureRun.PlainCapturesFit | src/flow/flow_features.c:135-209 | so every run completes its feature CSV if no packet was captured longer than on the wire and no two lie further apart |
| FeatureRun.OverlongPacketNeverFits | src/app/app.c:2623-2640 | and none does over a single complete packet captured longer than on the wire |
| SamplePackets.SomeCaptureNeverFits | src/flow/flow_features.c:46-59 | there is such a packet: over a UDP frame with wire length zero the analysis completes under every timeout and policy, but in no run with a feature CSV |
| FlowFeatures.RunRecordsHaveFeatures | src/flow/flow_features.c:35-62 | if no packet was captured longer than on the wire, no record of a completed run is rejected, and only a time span beyond 2^64 - 1 microseconds overflows |

## Left out

- libpcap, BPF, signals, polling, clocks and files: a capture is a packet list, and a stop request ends the list early.
- Terminal output, CSV text, help and option parsing: an export is the record it writes, and writing to a file succeeds; extracting the features of a record need not.
- The periodic metrics report and its schedule: it only reads the totals.
- FNV-1a: every theorem holds for an arbitrary function from keys to uint64.
- Floating-point means, ratios and rates of the features.
- MAC and IPv4 address formatting and the DNS header parser.
- Failing lock, unlock, signal, join and thread creation in the pipeline: its theorems assume they succeed. Exactly-once delivery also assumes that allocations succeed.
- Memory ordering below the mutex: a critical section is one step.
- The blocking queue lab, a weaker variant of the pointer queue.
- Reading CSV rows and label files, exact decimal parsing and hashing of files: rows and labels are given as numbers. `write_iot23_review_csv` is represented by the review status of a row.
- The machine-learning scripts.
- Parsers.PayloadView: stands for the five payload views, which differ only in the layer whose window they check.
- Parsers.ReadTcpFields: the error returns after each field read are omitted, since the slice holds the whole header.
- PointerQueue.PointerQueue.Push: a wait whose thread is never woken in the script ends the call asleep, so the contract says nothing about when a wait ends; the pipeline theorems do.
- Framing.Connection.SendAll: a script that runs out leaves the call blocked; that a peer makes progress is a condition on the scripts, not a claim.
