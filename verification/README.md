# A verified model of rustnet's connection tracking

rustnet watches the packets of a machine and shows its network connections. This project models
the part that decides what is shown, and proves what that part guarantees:

- **The tracker.** A packet is routed to a key (QUIC packets by connection ID), admitted or turned
  away at the table limit, and folded into the connection under that key. A periodic sweep takes
  expired connections out and archives them; the user can clear everything.
- **The per-packet rules.** The TCP state machine, the sequence-number and ACK analytics, the
  collection of QUIC CRYPTO fragments, the QUIC state and server-name merge, and the field merges
  of the other application protocols.
- **The threads around it.** Several processors sharing one table with the process-enrichment
  thread, the sweep and the clear command; the capture thread that batches packets into a bounded
  channel; the resolver threads of the reverse-DNS cache.
- **Two caches** (reverse DNS, GeoIP), the walk over **IPv6 extension headers**, and the script that
  matches captured packets to recorded connections **by address and time**.

Code that changes state in place is imperative here too: `Tracker.ConnectionTracker` owns mutable
`Connection` objects, each of which owns its mutable `TcpAnalytics`; `DnsResolver` and
`GeoIpResolver` update their caches; the loops are loops. Each method is proved to do what a
function or relation on values says, and the theorems are about those. Threads are interleavings of
atomic steps, and the theorems about them hold in every state of every run.

| file | models |
|---|---|
| `TcpStateMachine.dfy`, `TcpAnalytics.dfy` | TCP states; retransmission, reordering and duplicate-ACK counters |
| `Tls.dfy`, `CryptoReassembler.dfy`, `QuicMerge.dfy` | QUIC: fragment buffer, state, server name |
| `DpiMerge.dfy` | merging HTTP, HTTPS, DNS, SSH, BitTorrent, MQTT and FTP facts |
| `Connection.dfy`, `Totals.dfy` | one connection in place and over its life; sums over tables |
| `TrackerModel.dfy`, `Tracker.dfy` | the tracker as a state machine with a log, and in place |
| `Eviction.dfy`, `HistoricKey.dfy` | oldest-first eviction; the archive key |
| `ConcurrentTracker.dfy`, `CapturePipeline.dfy` | the threads around the tracker |
| `DnsResolver.dfy`, `DnsProtocol.dfy`, `GeoIp.dfy`, `Addresses.dfy` | the two caches |
| `Ipv6Extensions.dfy`, `PcapEnrich.dfy` | extension headers; packet-to-connection matching |

## What the proofs found

Where a promise does not hold of the code, the code is modelled as it is and the exact condition
under which the promise does hold is proved.

- The packet that creates a connection is never analysed (`crates/rustnet-core/src/network/merge.rs:337-436`). A connection reports
  every retransmission, except that it reports one too few exactly if its first packet is outbound
  data (a SYN counts) and the next data segment is already a copy of it (`ConnectionRetransmitLaw`).
  A fast retransmit is missed exactly if the first packet is the first ACK of a run of exactly four,
  and lateness goes unnoticed exactly if it is against the first packet alone
  (`ConnectionFastRetransmitLaw`, `ConnectionOutOfOrderLaw`).
- A gap in the outbound data freezes the expected sequence number exactly as long as everything sent
  lies beyond it (`GapFreezesExpectation`). If the gap is never filled, segments beyond it are never
  counted when they are sent again: `GappyRetransmitCount`, and `MixedRetransmitCount` for gaps
  filled later.
- A passive open leaves SynReceived exactly when *we* send a plain ACK (`PassiveOpenWaitsForOurAck`).
- Whether an ACK acknowledges our FIN is never looked at: any ACK of the peer's ends FinWait1, LastAck
  and Closing (`LeftExactlyWhen`, `StateIgnoresNumbers`), and a FIN of the peer's that carries the
  ACK of ours leads to Closing, not to TIME-WAIT as section 3.9 of RFC 793 has it (`SimultaneousClose`).
- A later CONNECTION_CLOSE can move QUIC from Closed back to Draining, exactly an error-free transport
  close (`ClosedCanReturnToDraining`, `NeverFallsExactlyWhen`).
- "First write wins" is a latent exception of the public `add_fragment`: it fails exactly for an empty
  fragment at the offset of a non-empty one, which erases it (`FirstWriteWins`). The parser adds no
  empty fragment (`crates/rustnet-core/src/network/dpi/quic.rs:867`), so in the program the first write
  wins without exception (`BuiltBuffersAreProper`, `HandshakeBytesAreKept`).
- A partial server name can be lost again (`PartialSniCanBeLost`); the exact condition is
  `PartialSniIsLostExactlyWhen`.
- In the SSH merge the arm for "both established" is reached only with an empty list: a packet with
  negotiated algorithms always replaces the list (`AlgorithmsRestart`).
- A QUIC mapping may lead to a key that was never inserted, because it is made before the table
  limit is checked: exactly when a new connection ID and a new key meet a full table
  (`MappingCanDangle`, `LiveThroughoutExactlyWhen`).
- `MAX_PACKET_QUEUE` is described as a number of packets (`src/app.rs:143-145`) but bounds batches: a
  million packets can wait (`CapacityIsAMillionPackets`).
- The drop statistic is overwritten once a second by the capture library's own count, so drops on a
  full channel are forgotten unless the two happen to agree. The user's clear zeroes it and the
  processed statistic while batches may be half done or a drop about to be counted
  (`StatisticsLaw`, `ClearedStatisticsRightExactlyWhen`, `ClearedMidBatch`).
- With two or more processors, packets of one connection can be handled out of order
  (`TwoProcessorsReorder`); with one they cannot (`OneProcessorKeepsOrder`).
- Clearing races with processors that have counted an anomaly but not yet published it. Agreement
  between connections and statistics returns exactly under the condition of
  `ClearRestoresAgreementExactlyWhen`; `ClearCanSkew` shows it failing. The clear itself also
  contradicts `USAGE.md:638`, which says the totals only increase.
- With two or more resolver threads a fresh DNS answer can be overwritten by "pending"
  (`FreshAnswerCanVanish`); with one it lasts for its time to live (`AnswerLasts`).

## Model

| member | source | states |
|---|---|---|
| TcpStateMachine.EveryChangeRaisesRank | crates/rustnet-core/src/network/merge.rs:34-67 | no packet moves the TCP state backward: each change strictly raises the progress rank |
| TcpStateMachine.ChangesAreBounded | crates/rustnet-core/src/network/merge.rs:34-67 | over any trace the number of state changes is at most the progress made, hence at most six |
| TcpStateMachine.SixChangesHappen | crates/rustnet-core/src/network/merge.rs:34-67 | some trace from Unknown does change the state six times |
| TcpStateMachine.StateExplainsHistory | crates/rustnet-core/src/network/merge.rs:34-67 | for any trace: after a reset the state is Closed; without one the state tells which FINs passed and in which order |
| TcpStateMachine.ActiveOpen | crates/rustnet-core/src/network/merge.rs:44-46 | our SYN, the peer's SYN+ACK and any traffic around it end in Established, through SynSent |
| TcpStateMachine.PassiveOpen | crates/rustnet-core/src/network/merge.rs:44-46 | the peer's SYN, our SYN+ACK, any traffic of the peer's and our first plain ACK pass SynReceived and end in Established |
| TcpStateMachine.JoinedLate | crates/rustnet-core/src/network/merge.rs:48-49 | a trace that starts with an acknowledging packet, its handshake unseen, is Established after it and after any traffic |
| TcpStateMachine.UnknownExactlyWhen | crates/rustnet-core/src/network/merge.rs:34-67 | over all traces the state is Unknown if and only if no packet has RST, ACK without SYN, or SYN without ACK and FIN |
| TcpStateMachine.OurFin | crates/rustnet-core/src/network/merge.rs:52-54 | after our FIN and any traffic the state is FinWait2 if and only if the peer has sent some ACK, else FinWait1 |
| TcpStateMachine.ActiveClose | crates/rustnet-core/src/network/merge.rs:52-58 | our FIN, any traffic with an ACK of the peer's in it and the peer's FIN pass FinWait2 and end in TimeWait |
| TcpStateMachine.PassiveClose | crates/rustnet-core/src/network/merge.rs:52-58 | the peer's FIN, ours and any traffic pass CloseWait and end in Closed if and only if the peer has sent some ACK since, else in LastAck |
| TcpStateMachine.SimultaneousClose | crates/rustnet-core/src/network/merge.rs:52-59 | a FIN of the peer's before any ACK of its leads to Closing, and from there to TimeWait if and only if one more ACK comes |
| TcpStateMachine.StaysExactlyWhen | crates/rustnet-core/src/network/merge.rs:34-67 | a state survives a trace if and only if every single packet keeps it: no state is ever returned to |
| TcpStateMachine.LeftExactlyWhen | crates/rustnet-core/src/network/merge.rs:34-67 | over any trace each of the eleven states is left if and only if a packet listed for it occurs; no list mentions an acknowledgement number, and only a reset ends TimeWait |
| TcpStateMachine.TrafficKeepsState | crates/rustnet-core/src/network/merge.rs:34-67 | data and plain ACKs, however many and from whichever side, move no opening, open, half-closed or finished connection |
| TcpStateMachine.ClosedIsAbsorbing | crates/rustnet-core/src/network/merge.rs:34-67 | nothing after Closed leaves it, a new SYN included |
| TcpStateMachine.PassiveOpenWaitsForOurAck | crates/rustnet-core/src/network/merge.rs:45 | without resets SynReceived is left if and only if we send a plain ACK |
| Analytics.TcpAnalytics.AnalyzeSegment | crates/rustnet-core/src/network/merge.rs:71-171 | the in-place update and the reported deltas are those of the step function the laws below are about |
| Analytics.RunsAreMaximal | crates/rustnet-core/src/network/merge.rs:145-167 | the run-length encoding used to state the ACK law loses nothing and its runs are maximal |
| Analytics.DuplicateAckLaw | crates/rustnet-core/src/network/merge.rs:145-167 | for any trace the duplicate counter is the length of the trailing run of equal ACKs less one (32-bit), and fast retransmits are one per run and lap of that counter |
| Analytics.FastRetransmitLaw | crates/rustnet-core/src/network/merge.rs:145-167 | fast retransmits are exactly the maximal runs of at least four equal ACKs until the 32-bit counter can come round, and never more than a quarter of the ACKs |
| Analytics.DirectionsAreIndependent | crates/rustnet-core/src/network/merge.rs:87-143 | however directions interleave, each is judged by its own data segments only |
| Analytics.ExactRetransmitCount | crates/rustnet-core/src/network/merge.rs:87-118 | a contiguous outbound stream mixed with copies, under any inbound traffic: the count is exactly the number of copies |
| Analytics.FirstSegmentUnanalysed | crates/rustnet-core/src/network/merge.rs:87-118 | leaving out the first segment loses one retransmission exactly if the second segment is a copy |
| Analytics.GapFreezesExpectation | crates/rustnet-core/src/network/merge.rs:103-112 | the expected number and the count stay as they are if and only if everything sent lies beyond the expected number |
| Analytics.GappyRetransmitCount | crates/rustnet-core/src/network/merge.rs:87-118 | an outbound stream with gaps never filled: counted are exactly the copies of segments before the first gap, so the count is right if and only if no segment beyond it is sent again |
| Analytics.MixedRetransmitCount | crates/rustnet-core/src/network/merge.rs:87-118 | gaps filled later in any order: no new segment is taken for a copy, and the copies not counted are exactly those sent while something before them was missing |
| Analytics.OutOfOrderLaw | crates/rustnet-core/src/network/merge.rs:119-143 | inbound data counts as in order throughout if and only if it only moves forward, gaps allowed |
| Analytics.ExactOutOfOrderCount | crates/rustnet-core/src/network/merge.rs:119-143 | the count is exactly the number of inbound segments that start before the end of the furthest one in order before them |
| CryptoReassembler.AddFragmentInto | crates/rustnet-core/src/network/types.rs:1022-1056 | the loop over stored fragments decides storing, ignoring and rejecting as the specification function does, and fails exactly when the limit would be exceeded |
| CryptoReassembler.AddFragmentKeepsValid | crates/rustnet-core/src/network/types.rs:1022-1056 | stored fragments never overlap, and the bytes stored never exceed the counter, nor the counter the limit |
| CryptoReassembler.BuiltBuffersAreProper | crates/rustnet-core/src/network/dpi/quic.rs:864-875 | a buffer built from the non-empty fragments the parser adds holds no empty fragment, no overlap and at most 64 KiB |
| CryptoReassembler.FirstWriteWins | crates/rustnet-core/src/network/types.rs:1032-1045 | no later fragment changes or loses a byte already held, if and only if it is not an empty fragment at the offset of a non-empty one |
| CryptoReassembler.AddedBytesArrive | crates/rustnet-core/src/network/types.rs:1022-1056 | a fragment that fits and overlaps nothing is held byte for byte at its offset, and counted |
| CryptoReassembler.ArrivalOrderIsIrrelevant | crates/rustnet-core/src/network/types.rs:1022-1056 | any number of fragments that fit and do not collide give the same buffer in every order of arrival |
| QuicMerge.MergeQuicInfo | crates/rustnet-core/src/network/merge.rs:567-780 | the statement-by-statement merge computes the stage-by-stage specification, for any TLS extractor |
| QuicMerge.MergeFragmentsInto | crates/rustnet-core/src/network/merge.rs:609-624 | the loop adds every fragment, in ascending order of offsets; what then is held is MergeKeepsBytes and PacketBytesArrive |
| QuicMerge.MergeKeepsBytes | crates/rustnet-core/src/network/merge.rs:609-624 | merging a packet's fragments keeps the buffer free of overlaps, the bytes stored within its limit, and every handshake byte already held |
| QuicMerge.PacketBytesArrive | crates/rustnet-core/src/network/merge.rs:597-624 | after a packet every byte of each of its fragments that overlaps nothing held before is held at its place, as long as the fragments fit; all of them if nothing was held |
| QuicMerge.HandshakeBytesAreKept | crates/rustnet-core/src/network/merge.rs:597-624 | over a whole connection: whatever packets the parser builds arrive, no handshake byte once received changes or is lost, and the bytes stored keep their limit |
| QuicMerge.ProgressNeverFalls | crates/rustnet-core/src/network/merge.rs:567-582 | over any packets the state never moves backward below Draining, and {Draining, Closed} is never left |
| QuicMerge.ClosedCanReturnToDraining | crates/rustnet-core/src/network/merge.rs:733-774 | one merge lowers the full priority if and only if an error-free transport close meets a Closed connection |
| QuicMerge.NeverFallsExactlyWhen | crates/rustnet-core/src/network/merge.rs:567-774 | over a run the full priority never falls if and only if that never happens |
| QuicMerge.EndsAfterLastClose | crates/rustnet-core/src/network/merge.rs:567-774 | a run with closes ends in the furthest of the last close's state and the states seen after it |
| QuicMerge.EndsInFurthestState | crates/rustnet-core/src/network/merge.rs:21-30 | without CONNECTION_CLOSE the final state is the furthest any packet showed |
| QuicMerge.StateIgnoresPacketOrder | crates/rustnet-core/src/network/merge.rs:567-582 | and therefore the same for every arrival order |
| QuicMerge.StagesInOrder | crates/rustnet-core/src/network/merge.rs:21-30 | the six stages in order: without a close one merge ends in the later of the two |
| QuicMerge.CompleteSniIsKept | crates/rustnet-core/src/network/merge.rs:597-725 | a complete server name never changes again, whatever the extractor and later packets |
| QuicMerge.PartialSniIsLostExactlyWhen | crates/rustnet-core/src/network/merge.rs:597-725 | one merge loses ground on the server name if and only if a partial name is re-extracted into nothing and no other source has one |
| QuicMerge.PartialSniCanBeLost | crates/rustnet-core/src/network/merge.rs:626-650 | a run that ends without a server name although a partial one was known: a packet brings the beginning of the handshake and re-extraction finds protocol names there only |
| QuicMerge.ServerNameLaw | crates/rustnet-core/src/network/merge.rs:626-725 | where the server name after a merge comes from: re-extraction if the known one is not complete, then the best of it, the packet's remembered name and the packet's own |
| QuicMerge.TlsSourceLaw | crates/rustnet-core/src/network/merge.rs:626-725 | the other TLS fields after a merge: an answer from the merged fragments replaces all of it, then what the packet's buffer remembers if its name is better or none is known, and the packet's own fields fill in only what is missing |
| DpiMerge.MergeDnsInfo | crates/rustnet-core/src/network/merge.rs:783-813 | the capped, duplicate-free loop over response addresses computes the merge the DNS laws are about |
| DpiMerge.ResponseIpsLaw | crates/rustnet-core/src/network/merge.rs:801-808 | over any packets the addresses are the first 64 distinct ones in arrival order, if and only if the first packet's own list was distinct and within the cap |
| DpiMerge.DnsFieldLaw | crates/rustnet-core/src/network/merge.rs:783-813 | query name and type are the first seen, and the response flag tells whether any packet was a response |
| DpiMerge.MergeSshInfo | crates/rustnet-core/src/network/merge.rs:816-878 | the field-by-field merge, its loop included, computes the merge the SSH laws are about |
| DpiMerge.SshEndsFurthest | crates/rustnet-core/src/network/merge.rs:834-848 | the SSH session ends in the furthest stage any packet showed |
| DpiMerge.SshStagesInOrder | crates/rustnet-core/src/network/merge.rs:834-848 | the four stages in order: one merge ends in the later of the two |
| DpiMerge.AlgorithmsRestart | crates/rustnet-core/src/network/merge.rs:850-872 | the algorithm list is that of the last packet with negotiated algorithms plus what came after it |
| DpiMerge.AlgorithmsAccumulate | crates/rustnet-core/src/network/merge.rs:850-872 | without such a packet the list holds exactly the names seen: the first packet's list first, then each new name once |
| DpiMerge.SshFieldLaw | crates/rustnet-core/src/network/merge.rs:816-878 | version, software and authentication are the first seen |
| DpiMerge.FirstWinsLaw | crates/rustnet-core/src/network/merge.rs:517-564 | a field merged by "keep what is there" holds, after any packets, the first value present |
| DpiMerge.LatestWinsLaw | crates/rustnet-core/src/network/merge.rs:900-913 | a field merged by "take what is new" holds the latest value present |
| DpiMerge.HttpFieldLaw | crates/rustnet-core/src/network/merge.rs:517-542 | all HTTP fields are the first seen on the connection, the version the first packet's |
| DpiMerge.HttpsFieldLaw | crates/rustnet-core/src/network/merge.rs:545-564 | TLS fields are the first seen, a partial server name included |
| DpiMerge.BitTorrentFieldLaw | crates/rustnet-core/src/network/merge.rs:485-495 | info hash and client are the first seen |
| DpiMerge.MqttFieldLaw | crates/rustnet-core/src/network/merge.rs:917-932 | identity fields are the first seen, the packet type the latest |
| DpiMerge.FtpFieldLaw | crates/rustnet-core/src/network/merge.rs:887-914 | who and what is the first seen, the dialog the latest |
| DpiMerge.QuicFieldLaw | crates/rustnet-core/src/network/merge.rs:583-596 | version and connection ID, with its printed form, are the first seen; close frame, idle timeout and packet type the latest; CRYPTO frames were seen if any packet had one |
| DpiMerge.QuicTlsLaw | crates/rustnet-core/src/network/merge.rs:677-725 | over packets without fragments TLS version, protocol names, cipher suite and the complete server name are the first seen |
| DpiMerge.MergeApplicationInto | crates/rustnet-core/src/network/merge.rs:439-514 | dispatch by protocol; a packet of another protocol changes nothing |
| Connections.Connection.FromPacket | crates/rustnet-core/src/network/merge.rs:337-436 | the new record's whole value; its objects are its own |
| Connections.Connection.MergePacket | crates/rustnet-core/src/network/merge.rs:175-334 | the record's whole new value and the anomalies reported, as functions of its old value |
| Connections.Connection.MergeTransport | crates/rustnet-core/src/network/merge.rs:194-245 | state and analytics follow the TCP header; without one a TCP state stays |
| Connections.Connection.SetProcess | crates/rustnet-core/src/network/merge.rs:252-326 | process name and id are filled in where missing and never replaced |
| Connections.FirstKnowledgeStays | crates/rustnet-core/src/network/merge.rs:252-326 | over a connection's life, process, initial round-trip time and application protocol (each of the sixteen told apart) are the first ones learnt |
| Connections.UnmergedRecordStays | crates/rustnet-core/src/network/merge.rs:508-511 | the record of a protocol that is never merged does not change once it is recognised |
| Connections.FirstPacketDecides | crates/rustnet-core/src/network/merge.rs:337-436 | identity, creation time and direction are decided by the first packet for good; direction exactly by an opening SYN or the SYN+ACK answering it |
| Connections.LifeTraffic | crates/rustnet-core/src/network/merge.rs:182-191 | packet and byte counters are those of all packets, the first included, each in its direction |
| Connections.ProtocolStateLaw | crates/rustnet-core/src/network/merge.rs:194-245 | for any mixture of packets: from the first TCP header on the state is that of the headers' trace; before, it is what the last packet said |
| Connections.TcpLife | crates/rustnet-core/src/network/merge.rs:194-233 | a connection's TCP state is that of its whole trace, its counters those of the trace without the first packet |
| Connections.HeadersAreAnalysed | crates/rustnet-core/src/network/merge.rs:221-233 | the data and ACK numbers analysed are those of the headers: sequence number, payload plus one for SYN and for FIN, acknowledgement where the ACK flag is set |
| Connections.StateIgnoresNumbers | crates/rustnet-core/src/network/merge.rs:194-213 | packets that agree in flags and direction lead to the same TCP state whatever their sequence and acknowledgement numbers |
| Connections.ConnectionRetransmitLaw | crates/rustnet-core/src/network/merge.rs:194-233 | over a whole connection, in terms of the header fields: every copy is reported, less one exactly in the case named under "What the proofs found" |
| Connections.ConnectionFastRetransmitLaw | crates/rustnet-core/src/network/merge.rs:194-233 | over a whole connection, in terms of the header fields: every run of four or more equal ACKs is reported, less one exactly if the first packet is the first ACK of a run of exactly four |
| Connections.ConnectionOutOfOrderLaw | crates/rustnet-core/src/network/merge.rs:194-233 | over a whole connection, in terms of the header fields: exactly the late segments after the first packet are reported; nothing if and only if the inbound data only moves forward, or the one step backward is that from a first packet carrying data |
| Connections.ConnectionWindowLaw | crates/rustnet-core/src/network/merge.rs:84-85 | the window shown is that of the last header |
| Connections.HttpLife | crates/rustnet-core/src/network/merge.rs:439-542 | over a connection first recognised as HTTP, whatever other packets come between: every field is the first seen among its HTTP records, the version the first record's |
| Connections.HttpsLife | crates/rustnet-core/src/network/merge.rs:439-564 | likewise for HTTPS: the TLS fields are the first seen among its HTTPS records |
| Connections.DnsLife | crates/rustnet-core/src/network/merge.rs:439-813 | likewise for DNS: name and type first seen, response flag if any record is one, and the first 64 distinct addresses |
| Connections.SshLife | crates/rustnet-core/src/network/merge.rs:439-878 | likewise for SSH: version, software and authentication first seen, the furthest stage any record showed |
| Connections.QuicLife | crates/rustnet-core/src/network/merge.rs:439-596 | likewise for QUIC: the record is the run over its QUIC records that the QUIC laws are about |
| Connections.BitTorrentLife | crates/rustnet-core/src/network/merge.rs:439-495 | likewise for BitTorrent: info hash and client first seen |
| Connections.MqttLife | crates/rustnet-core/src/network/merge.rs:439-932 | likewise for MQTT: identity fields first seen, the packet type the last record's |
| Connections.FtpLife | crates/rustnet-core/src/network/merge.rs:439-914 | likewise for FTP: who and what first seen, the dialog the latest |
| TrafficTotals.MergeCountsItsPacket | crates/rustnet-core/src/network/merge.rs:182-233 | each counter grows by the packet's own contribution; reported anomalies are exactly the growth of the counters |
| TrafficTotals.CreateCountsItsPacket | crates/rustnet-core/src/network/merge.rs:382-393 | a new connection carries its first packet's contribution and no anomalies |
| TrafficTotals.SumTakenOut | crates/rustnet-core/src/network/tracker.rs:249-272 | removing entries takes exactly their counters out of the table's totals |
| TrackerModel.EveryRunKeepsInv | crates/rustnet-core/src/network/tracker.rs:149-305 | in every state of every run: the live table is the batch fold of the packet log, live and removed counters add up to everything accepted, mappings lead to live or dropped keys, all limits hold, archived entries are closed |
| TrackerModel.StepKeepsInv | crates/rustnet-core/src/network/tracker.rs:149-349 | each ingest, sweep and clear keeps that invariant |
| TrackerModel.OutcomeLaw | crates/rustnet-core/src/network/tracker.rs:189-240 | `created` and `dropped` hold exactly when the log has nothing for the key and the table has, or has not, room |
| TrackerModel.StoredUnder | crates/rustnet-core/src/network/tracker.rs:150-187 | under which key a packet goes: its own, unless it shows a mapped QUIC connection ID, then that ID's; without such an ID the mappings stay, a new ID is mapped to the packet's own key |
| TrackerModel.RoundTripLaw | crates/rustnet-core/src/network/tracker.rs:156-171 | a round-trip time is reported for a TCP packet with SYN and ACK only |
| TrackerModel.OthersUntouched | crates/rustnet-core/src/network/tracker.rs:189-240 | a packet changes no connection but the one under its outcome's key, and none when dropped |
| TrackerModel.MappingSurvives | crates/rustnet-core/src/network/tracker.rs:172-187 | a step keeps a connection-ID mapping if and only if it neither overflows the map, sweeps the target away nor clears, and never redirects it |
| TrackerModel.MigrationIsFollowed | crates/rustnet-core/src/network/tracker.rs:170-187 | over a run: until such a step, every packet with that connection ID lands in the same connection, whatever its addresses |
| TrackerModel.MappingCanDangle | crates/rustnet-core/src/network/tracker.rs:172-203 | while all mappings lead to live connections, a packet leaves one that does not if and only if it brings a new connection ID and a new key to a full table |
| TrackerModel.LiveThroughoutExactlyWhen | crates/rustnet-core/src/network/tracker.rs:149-349 | over a run, sweeps and clears included, all mappings are live in every state if and only if no such packet comes |
| TrackerModel.SweepLaw | crates/rustnet-core/src/network/tracker.rs:244-295 | a sweep removes exactly the expired connections and changes no other; while the archive has room each removed one is in it under its key and creation time, unchanged but for being marked historic and closed now |
| TrackerModel.SweepLeavesBehind | crates/rustnet-core/src/network/tracker.rs:244-305 | a sweep drops exactly the QUIC mappings that lead to what it removes; the archive holds nothing but what it held and copies of the connections removed, and is untouched if none is kept |
| TrackerModel.OldestClosedGoFirst | crates/rustnet-core/src/network/tracker.rs:279-294 | an archive that is trimmed stays full, and no connection it gives up was closed later than one it keeps |
| TrackerModel.ArchiveGivesUpOldest | crates/rustnet-core/src/network/tracker.rs:274-295 | over a run whose clock does not run backward: a connection gone from the archive closed no later than any that is there, however many sweeps came in between |
| TrackerModel.ClearForgets | crates/rustnet-core/src/network/tracker.rs:339-348 | over a run: after a clear live table, archive and mappings are empty, and whatever the archive holds later was closed by a sweep since |
| HistoricKey.ArchiveKeyLaw | crates/rustnet-core/src/network/tracker.rs:260-267 | the printed archive key is injective in live key and creation time, all times before the epoch being one |
| HistoricKey.ArchiveKeyFormat | crates/rustnet-core/src/network/tracker.rs:260-267 | the printed key is the live key, a colon and the creation time since the epoch (zero before it), which reads back from its decimal digits |
| Eviction.RemoveOldest | crates/rustnet-core/src/network/tracker.rs:280-294 | exactly `count` entries go, none younger than one that stays, and the others are unchanged |
| Tracker.ConnectionTracker.RouteKey | crates/rustnet-core/src/network/tracker.rs:150-187 | the key is the packet's own without a QUIC connection ID or with a new one, and the mapped one otherwise; afterwards a shown ID is mapped to the key; nothing else changes |
| Tracker.ConnectionTracker.AdmitArrival | crates/rustnet-core/src/network/tracker.rs:189-240 | table, log and outcome after the limit check and entry update are those of the admission function |
| Tracker.ConnectionTracker.IngestAt | crates/rustnet-core/src/network/tracker.rs:149-240 | on mutable, unshared records: the new abstract state and outcome are those of the state machine, and the invariant holds again |
| Tracker.ConnectionTracker.Cleanup | crates/rustnet-core/src/network/tracker.rs:244-305 | the new abstract state is a sweep of the old one; the removed connections are returned unmodified |
| Tracker.ConnectionTracker.ArchiveRemoved | crates/rustnet-core/src/network/tracker.rs:274-295 | the archive becomes the old one plus the removed connections, trimmed oldest-closed first |
| Tracker.ConnectionTracker.Clear | crates/rustnet-core/src/network/tracker.rs:339-348 | live table, archive and mappings are empty afterwards |
| ConcurrentTracker.CapOverRuns | crates/rustnet-core/src/network/tracker.rs:189-224 | with n processors interleaving check and insert, the live keys plus those past the check never exceed the limit by more than n - 1 |
| ConcurrentTracker.CapIsTight | crates/rustnet-core/src/network/tracker.rs:189-224 | that bound is reached for every n, by packets each routed to its own key |
| ConcurrentTracker.AttributionIsWriteOnce | src/app.rs:1246-1281 | in every interleaving of packet merges and enrichment, process name, pid and initial RTT never change once set while the entry lives |
| ConcurrentTracker.StatisticsBalance | src/app.rs:2007-2024 | in every interleaving, anomalies counted on connections equal those published plus those still to be published, up to a skew only clears create |
| ConcurrentTracker.ClearRestoresAgreementExactlyWhen | src/app.rs:1936-1965 | after a clear, connections and a statistic agree again if and only if what was published in between equals what was unpublished when the tables were emptied |
| ConcurrentTracker.ClearCanSkew | src/app.rs:1936-1965 | a concrete run after which a retransmission total of one has no connection behind it |
| CapturePipeline.EveryPacketAccounted | src/app.rs:802-892 | in every interleaving, by any additive measure, the packets processed, in hand, queued, dropped, in the current batch and lost at exit are exactly those captured |
| CapturePipeline.EachPacketInOnePlace | src/app.rs:802-892 | each captured packet is in exactly one of these places, once |
| CapturePipeline.NoPacketTwice | src/app.rs:1010-1060 | nothing is processed twice or after being dropped, sizes add up, and at most 100 packets per channel place are queued |
| CapturePipeline.StatisticsLaw | src/app.rs:855-908 | in every interleaving, clears included: the processed statistic is right up to unfinished batches if and only if no batch was partly processed at the last clear; the drop statistic if and only if its last overwrite wrote the counted drops it overwrote |
| CapturePipeline.ClearedStatisticsRightExactlyWhen | src/app.rs:1955-1956 | the processed statistic counts what came since its clear if and only if no processor had then processed part of a batch not yet reported; the drop statistic, while nothing else overwrites it, counts what came since its own clear if and only if the capture thread was not then about to count a drop |
| CapturePipeline.ClearedMidBatch | src/app.rs:1062-1065 | a run in which the cleared processed statistic counts a packet from before the clear |
| CapturePipeline.OneProcessorKeepsOrder | src/app.rs:1018-1050 | with one processor packets are processed in capture order |
| CapturePipeline.TwoProcessorsReorder | src/app.rs:690-697 | with any larger number they need not be |
| CapturePipeline.CapacityIsAMillionPackets | src/app.rs:143-147 | one million packets can be queued; and the drop statistic can read zero after a dropped batch |
| DnsCache.DnsResolver.RequestResolution | crates/rustnet-core/src/network/dns.rs:237-256 | an address is queued exactly if it is neither loopback nor link-local and no entry settles it |
| DnsCache.DnsResolver.GetHostname | crates/rustnet-core/src/network/dns.rs:259-271 | answers exactly from resolved entries |
| DnsCache.DnsResolver.ServeRequest | crates/rustnet-core/src/network/dns.rs:144-178 | an undisturbed turn leaves a settled entry alone and otherwise ends in the lookup's answer |
| DnsCache.DnsResolver.CleanUp | crates/rustnet-core/src/network/dns.rs:205-226 | exactly the unexpired entries are kept, less the exact surplus over the limit, and no entry that goes was stored later than one that stays |
| DnsCache.AnswerLaw | crates/rustnet-core/src/network/dns.rs:146-161 | an answer stored at a time names its address, and until its time to live (a negative answer's own) is over nobody asks again and the cleanup keeps it, from then on neither; no other address notices |
| DnsCache.PendingLaw | crates/rustnet-core/src/network/dns.rs:205-256 | an unknown address is wanted unless local; a pending one has no name, is asked for by nobody else, and is given up after thirty seconds |
| DnsProtocol.UndisturbedTurn | crates/rustnet-core/src/network/dns.rs:144-178 | the interleaved steps of one thread, when no other intervenes, do what ServeRequest does |
| DnsProtocol.UndisturbedRequest | crates/rustnet-core/src/network/dns.rs:237-256 | and those of a requester what RequestResolution does |
| DnsProtocol.NoOrphanedPending | crates/rustnet-core/src/network/dns.rs:144-178 | for any number of threads: pending implies a lookup in flight, resolved exactly if named, every name came from a lookup of that address, local addresses never appear |
| DnsProtocol.AnswerLasts | crates/rustnet-core/src/network/dns.rs:146-161 | with one resolver thread, an answer not evicted for space is held unchanged for its whole time to live |
| DnsProtocol.FreshAnswerCanVanish | crates/rustnet-core/src/network/dns.rs:146-161 | with two or more, a reachable step replaces a fresh answer by pending |
| GeoIp.GeoIpResolver.Lookup | crates/rustnet-core/src/network/geoip.rs:256-287 | private addresses and entries younger than the time to live leave the cache alone; otherwise the answer is stored with the current time, and if the cache then exceeds its limit its younger part stays, as much as fits three quarters of the limit |
| GeoIp.GeoIpResolver.DoLookup | crates/rustnet-core/src/network/geoip.rs:290-327 | each field comes from its database; the city database supplies code and name of the country exactly if no country code was found |
| GeoIp.GeoIpResolver.EvictOldestEntries | crates/rustnet-core/src/network/geoip.rs:330-349 | exactly three quarters of the limit stay, none older than what goes |
| GeoIp.CacheIsTransparent | crates/rustnet-core/src/network/geoip.rs:256-287 | over any run and any clock every lookup answers what it would without a cache, and the cache keeps its limit |
| GeoIp.EvictionsAreSpaced | crates/rustnet-core/src/network/geoip.rs:280-349 | between two evictions lie more misses than a quarter of the limit |
| GeoIp.NewestSurvives | crates/rustnet-core/src/network/geoip.rs:271-284 | the entry just added survives the eviction it triggers, if its stamp is the newest |
| Addresses.PrivateBlocks | crates/rustnet-core/src/network/geoip.rs:352-363 | over all IPv4 addresses: the addresses never looked up are eleven blocks in prefix notation |
| Addresses.PrivateBlocksV6 | crates/rustnet-core/src/network/geoip.rs:364-372 | for IPv6: ::, ::1, fe80::/10 and fc00::/7 |
| Addresses.LocalBlocks | crates/rustnet-core/src/network/dns.rs:285-295 | loopback is 127.0.0.0/8 and link-local 169.254.0.0/16 |
| Ipv6Extensions.ParseExtensionHeaders | crates/rustnet-core/src/network/parser.rs:618-665 | the loop, with every read in bounds, returns what the recursive walk does |
| Ipv6Extensions.Dispatch | crates/rustnet-core/src/network/parser.rs:598-614 | end to end: behind any chain of headers exactly the payload reaches the parser of its protocol, other protocols reach none, and on arbitrary bytes a parser that sees any data sees what follows a chain leading to its protocol |
| Ipv6Extensions.EncodedChainIsWalked | crates/rustnet-core/src/network/parser.rs:618-665 | any chain of hop-by-hop, routing, destination, fragment and authentication headers before any upper-layer protocol is stepped over exactly, leaving the payload |
| Ipv6Extensions.WalkIsExact | crates/rustnet-core/src/network/parser.rs:618-665 | on arbitrary bytes a protocol is reported at an offset within the data if and only if the data begin with such a chain of that length |
| Ipv6Extensions.WalkIsBounded | crates/rustnet-core/src/network/parser.rs:396-399 | on arbitrary bytes each step advances by at least eight, the offset overshoots by at most 2046, and a remaining extension header means it was cut off |
| Ipv6Extensions.OvershootIsMet | crates/rustnet-core/src/network/parser.rs:396-399 | two bytes suffice to overshoot by 2046 |
| Ipv6Extensions.TwoBytesDecide | crates/rustnet-core/src/network/parser.rs:618-665 | the first two bytes of a header decide protocol and length, eight bytes per unit or four for authentication; only a fragment header must be there whole |
| PcapEnrich.LoadConnections | scripts/pcap_enrich.py:66-100 | every usable line is filed, in order, under both directions |
| PcapEnrich.FiledExactlyWhen | scripts/pcap_enrich.py:73-97 | a connection is found under a key if and only if some usable line names it with these two ends, either way round |
| PcapEnrich.FiledInOrder | scripts/pcap_enrich.py:66-97 | what a file puts under a key is what its parts put there, in the order of its lines |
| PcapEnrich.LineIsFiled | scripts/pcap_enrich.py:73-97 | one line is filed once under each direction, twice if both ends are the same, and not at all if protocol or an end is missing |
| PcapEnrich.DistanceLaw | scripts/pcap_enrich.py:132-146 | the score is the distance from the lifetime as an interval, and being in slack is being at most that far away |
| PcapEnrich.FindMatchingConnection | scripts/pcap_enrich.py:105-149 | the first of the nearest timestamped candidates in slack, else the first without timestamps, else nothing |
| PcapEnrich.AnswerIsUnique | scripts/pcap_enrich.py:105-149 | that description leaves one answer only |
| PcapEnrich.DirectionDoesNotMatter | scripts/pcap_enrich.py:92-97 | swapping source and destination never changes the answer |

## Left out

- ExactRetransmitCount: assumes that sequence numbers do not wrap within the trace, because the code compares them with plain `<` and `>`; the same holds of the other laws about streams and of OutOfOrderLaw.
- IngestAt: the answer of the SYN/SYN-ACK round-trip tracker (`crates/rustnet-core/src/network/types.rs:1414-1492`), which reads the wall clock, is the parameter `sample`; its own table is not part of this model.
- Cleanup: which connections have timed out (`crates/rustnet-core/src/network/types.rs:2148-2256`) is the parameter `expired`, because the TCP timeouts read the wall clock.
- MergeQuicInfo: TLS extraction (`crates/rustnet-core/src/network/dpi/quic.rs:1183-1246`) is the function parameter `Extractor`, and the buffer's contiguous offset, which only extraction reads, is not kept.
- MergeHttp, MergeDnsInfo and the other protocol merges: take and return values where the code updates an unaliased record in place; the tracker's own records are objects.
- EvictOldestEntries: partial selection of the oldest entries is modelled by the sort that the other two evictions use, with the order among equals open.
- Lookup: concurrent lookups are not modelled; the relation is that of one thread.
- ConcurrentTracker.Step: an entry operation, a table's length and the clearing of a table are atomic; the shards of the concurrent map are not modelled. `StepKeepsCap` and `CapOverRuns` read the length as atomic.
- DnsProtocol.Step: the cleanup thread may evict any entry, which includes what it does; which entries exactly is `CleanUp`.
- FindMatchingConnection: times are real numbers, floating-point rounding is not modelled; records are taken to be well typed; `str.upper` is the parameter `upper`.
- Counters of 64 bits and byte counts are unbounded; the 32-bit duplicate-ACK counter and sequence arithmetic wrap as in a release build.
- HandshakeBytesAreKept: takes the TLS extractor to leave the fragments alone, as the one in the code does.
- The facts of the eight protocols that are never merged (`crates/rustnet-core/src/network/types.rs:367-384`) are one opaque string.
- Rates, service names, GeoIP fields of a connection, the time of the last DPI update and logging.
- Lock poisoning, thread spawning and a processor that dies while updating a connection.
- Packet parsing below and above the extension headers, the DPI parsers, capture, process lookup, the user interface and the filter language.
