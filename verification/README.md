# EGTS gateway: a verified model

The repository is an EGTS gateway: it accepts EGTS packets (GOST R 56361-2015) from terminals over
TCP, keeps them in a queue and delivers each of them to every configured destination: stdout, a
rotating file, other EGTS servers, RabbitMQ and Valkey. Packets still pending at a stop are dumped
and restored at the next start.

This project models the parts that carry that promise and proves what they guarantee. `dafny verify
dfyconfig.toml` checks all of it.

## The parts

**The wire format** (`egts/packet`, `egts/subrecord`, `crc`). `Bytes`, `Flags`, `Fields` and
`Registers` are the common ground: little-endian numbers, the `"0"`/`"1"` flag strings and their
`strconv` parsing, presence masks, checksum registers as bit strings. `Crc` computes a checksum bit
by bit and proves the table method equal to it for every parameter set; `CrcChecks` evaluates it for
the check values of the two checksums of EGTS. The `Sr…` modules are the subrecords, `Subrecords`
their union; `Records`, `Services` and `Packets` are the three levels around them. Each level has both directions of the codec, the canonical values and, for what the code does
not write back unchanged, the exact octets concerned; `Coordinates` is the arithmetic on doubles that
decides it for positions. `Layouts` says octet by octet what is accepted and as what. `Reader` is
the framing of a stream, `Corruption` what the checksums catch, `Answers`, `AnswerContents` and
`AnswerLimits` the confirmation built for a request.

**The delivery engine** (`gateway/server`). `Queues` holds destinations, queued packets and what is
computed from a queue. `Engine` is a state machine: connections that enqueue and end, the delivery
loop with its program counter and its one-slot wake channel, workers whose results are arbitrary, a
clock, the dump, the ordered shutdown, the next start, and crashes. Each section under the lock is
one step. `EngineDelivery`, `EngineSessions`, `EngineWakeup`, `EngineClock` and `EngineDump` each
prove an invariant of every step and so of every run; `EngineTheorems` states what follows.
`EngineTurns` says which attempts a turn of the loop starts and when the loop can go on,
`EngineOutcomes` that what is confirmed was delivered, `EngineRedelivery` what a crash can repeat,
`Admissions` which packets are taken, and for which destinations. `QueueClass` is the queue and the
session registry as the source has them, objects and a slice compacted in place, each method proved
to compute the function the machine uses and to keep the counts of `SessionCounts`. `StallClock` is
the back-off of one destination, `Dump` the format of the dump with both directions, `DumpExact` the
dumps that are restored, `SortedIds` the order of its identifiers, `Relaying` the choice of packets
for EGTS destinations.

**The confirmation protocol** (`gateway/server/connection.go`, `gateway/destination/egts.go`).
`Connection` handles one frame at a time, `ConnectionRules` says by what a packet holds how it is
answered and whether it is queued, `ConnectionRuns` is whole connections. `Exchange` is the
relay's wait for confirmations, `ExchangeExact` says when it succeeds. `ExchangeOrder` says when the
order of the confirmations does not matter, `Sayings` what a single packet can and cannot say, and
`OrderExact` when exactly order and packets matter. `RelayWriter` is the outgoing connection around
it, `Agreement` proves that two gateways agree on one packet and `RelayAndPeer` that they do on a
whole conversation.

**The whole gateway.** `Gateway` puts the connections over the engine: a packet's answer waits for
what the engine's queue says and, in delivered mode, for its done channel. `GatewayRuns` proves what
an answer that says OK promises in every run, with `EngineGrowth` for what the engine never takes
back; `GatewayWaits` that no connection waits for a packet that is gone.

**The rotating file** (`gateway/configuration/rotation.go`). `Retention` is the choice of archives to
keep, `Rotation` the steps of a rotation over names and inodes and crashes between them, `FileRuns`
runs of calls, deaths of the process and new starts, `PacketFile` the writer, each of whose calls is
proved to be such an event.

## Found on the way

- A rotation whose removal of the active name fails and whose removal of the new archive fails too
  leaves one inode under two names. The next cleanup or the next start repairs that, but if the file
  has to be rotated again first, its records end up in two archives. `Rotation.DoubledByRetry` gives
  the case; `FileRuns.FilesOfRun` says that this is the only way the stream is ever not what was
  accepted, for every run of calls, deaths of the process and new starts.
- A cleanup that fails to remove an archive after it removed newer ones leaves a gap in the stream,
  and so does a process that dies between the two removals. `PacketFile.RotatingFile.Cleanup` and
  `Rotation.CleanUntilKeeps` have the exact condition. A later cleanup takes the archives behind the gap
  for what it should keep, if they are within the limits then (`Retention.GapIsKept`).
- A position is decoded to degrees and encoded by truncation, so that a coordinate may come back one
  less, and again one less the next time: 186415 becomes 186414 as a latitude and as a longitude.
  `Coordinates.WrittenNear` bounds the loss, `SrPosData.EncodeDecode` has the exact condition. The
  relay and the dump pass the octets on as they came and are not affected.
- Whether a destination's confirmations may be split over packets or reordered depends on its verdicts:
  a response that says OK and confirms the records, followed by one that says in progress, ends the
  exchange well, but the same confirmations sent after both responses do not (`ExchangeOrder.SplittingFails`).
  `OrderExact.OrderExactly` is the exact condition, over all packets that say the same. In the relay's
  own exchanges it comes to this: order matters exactly when records are outstanding, all of them are
  confirmed and good verdicts are taken back for good (`OrderExact.OrderExactlyWithData`).
- The error that the output file exceeds `max_total_size_bytes` cannot come from a write, nor from a
  close after a successful preparation. It does come from the close inside a preparation that fails
  to rotate an active file found too large, and then hides the real cause; `PacketFile.RotatingFile.Prepare`
  states the condition.
- A successful answer always fits a packet for requests with up to 4254 pairs of services. One pair
  more is too many: there is a request that is accepted and queued but whose answer cannot be
  encoded, so the connection ends without it (`AnswerLimits.BoundIsTight`).

## Assumptions

Destination identifiers are unique per kind and the capacity and stall time positive, as
`configuration.Validate` checks. Session names are fresh. In the engine taken alone a connection
enqueues nothing on a session it has ended; `GatewayRuns` proves it of the connections. A destination
has confirmed a packet when its writer returned no error. Replacing the
dump is atomic, and what is written as JSON is read back as it was.

## Model

| member | source | states |
|---|---|---|
| Registers.ReverseBits | egts/utils/utils.go:9-33 | the bit loop of ReverseByte and ReverseUint16 gives the mirrored register |
| Crc.Table.constructor | crc/crc16/crc16.go:58-73 | each table entry is the register after shifting its index through bit by bit, whatever polynomial and width |
| Crc.Table.Update | crc/crc16/crc16.go:82-90 | the table-driven update of any chunk leaves the register that feeding its bits one by one leaves, reflected input or not |
| Crc.Table.Complete | crc/crc16/crc16.go:93-98 | the final reflection and exclusive or |
| Crc.Table.Checksum | crc/crc16/crc16.go:101-105 | the checksum of a message is that of the bit-by-bit shift register, for every parameter set |
| Crc.UpdateInChunks | crc/crc8/crc8.go:68-77 | updating with a concatenation is updating with its parts one after the other |
| Crc.OctetStep | crc/crc8/crc8.go:45-60 | one table look-up does what eight shifts do |
| Crc.ChecksumOf | crc/crc.go:8-37 | Crc selects the CRC-8 (0x31, 0xFF) or CRC-16 (0x1021, 0xFFFF) of EGTS, whose check values `CrcChecks.CheckValues` has |
| CrcChecks.CheckValues | crc/crc.go:8-28 | the check values of the two checksums, 0xF7 and 0x29B1 for the digits from 1 to 9: they fix polynomial, initial value, reflection and final value |
| Crc.ChecksumDetectsBurst | crc/crc16/crc16.go:58-105 | with a polynomial that has a constant term, changing any octets no wider than the register changes the checksum |
| Crc.MessageInjective | crc/crc16/crc16.go:82-90 | different messages of one length are different bit strings, reflected or not |
| Corruption.SingleOctetDetected | egts/packet/packet.go:43-199 | changing any one octet of an accepted packet, anywhere in it, makes ReadPacket reject it |
| Corruption.AdjacentOctetsDetected | egts/packet/packet.go:184-199 | so does any change confined to two adjacent octets of the data |
| Flags.ParsedPrints | egts/packet/packet.go:227-260 | eight flag characters parse in base two to the octet that prints as them |
| Flags.FlagsReadBack | egts/packet/services_frame_data.go:154-200 | flags joined, parsed and printed are the flags again |
| Fields.ReadWritten | egts/subrecord/sr_term_identity.go:35-136 | the optional fields a mask announces are read back as written, whatever follows |
| Fields.WriteRead | egts/subrecord/sr_ex_pos_data_record.go:109-158 | what was read under a mask is written back octet for octet, and the rest stays |
| SrTermIdentity.DecodeEncode | egts/subrecord/sr_term_identity.go:35-200 | a canonical terminal identity is read back as it was |
| SrTermIdentity.EncodeDecode | egts/subrecord/sr_term_identity.go:35-200 | every accepted identity is canonical and written back octet for octet |
| Layouts.IdentityLayout | egts/subrecord/sr_term_identity.go:35-136 | accepted exactly at the length that the flags announce, and every field by its place in the octets |
| SrAuthInfo.DecodeEncode | egts/subrecord/sr_auth_info.go:15-56 | credentials without zero octets and within their lengths survive the zero-delimited form |
| SrAuthInfo.EncodeDecode | egts/subrecord/sr_auth_info.go:15-56 | every accepted credentials record is written back octet for octet |
| Layouts.AuthLayout | egts/subrecord/sr_auth_info.go:15-56 | accepted exactly when the octets are two or three names without zero octets, within their lengths, each ended by one |
| SrSensors.DecodeEncodeSensors | egts/subrecord/sr_ad_sensors_data.go:31-182 | both presence masks with their 8-bit and 24-bit values round-trip |
| SrSensors.EncodeDecodeSensors | egts/subrecord/sr_ad_sensors_data.go:31-182 | every accepted sensors record is written back octet for octet |
| SrSensors.DecodeEncodeCounters | egts/subrecord/sr_counters_data.go:22-103 | the counter mask with its 24-bit counters round-trips |
| Layouts.SensorsLayout | egts/subrecord/sr_ad_sensors_data.go:31-103 | accepted exactly at the length that the two masks announce, and every value by its place |
| Layouts.CountersLayout | egts/subrecord/sr_counters_data.go:22-58 | accepted exactly at the length that the mask announces, and every counter by its place |
| SrAcceleration.ReadSamples | egts/subrecord/sr_acceleration_data.go:36-77 | the counted loop reads just the announced number of structures |
| SrAcceleration.DecodeEncode | egts/subrecord/sr_acceleration_data.go:36-202 | a list of at most 255 structures round-trips |
| Layouts.AccelerationLayout | egts/subrecord/sr_acceleration_data.go:36-77 | accepted exactly when the count is not zero and the octets are those of as many structures; the i-th one is in its eight |
| Layouts.SampleLayout | egts/subrecord/sr_acceleration_data.go:114-159 | a structure is a time and three signed numbers of sixteen bits |
| SrExtPosData.EncodeDecode | egts/subrecord/sr_ex_pos_data_record.go:33-158 | written back octet for octet exactly when the reserved flag bits are zero |
| Layouts.ExtPosLayout | egts/subrecord/sr_ex_pos_data_record.go:33-106 | accepted exactly at the length that the flags announce, and every field by its place |
| SrStateData.EncodeDecode | egts/subrecord/sr_state_data.go:38-134 | written back octet for octet exactly when the reserved flag bits are zero |
| Layouts.StateLayout | egts/subrecord/sr_state_data.go:38-84 | accepted exactly in five octets with a state up to seven, and every field by its place |
| SrLiquidLevel.EncodeDecode | egts/subrecord/sr_liquid_lever_sensor.go:37-140 | both variants written back octet for octet exactly when the reserved bit is zero |
| Layouts.LiquidLayout | egts/subrecord/sr_liquid_lever_sensor.go:37-87 | which lengths are accepted in each variant, and every field by its place |
| Coordinates.RelativeError | egts/subrecord/sr_pos_data.go:96-101 | the double nearest to a quotient is within a factor of 2^-53 of it |
| Coordinates.WrittenNear | egts/subrecord/sr_pos_data.go:96-172 | a coordinate decoded to degrees in doubles and encoded by truncation comes back as it was or one less |
| Coordinates.SomeAreOneLess | egts/subrecord/sr_pos_data.go:96-172 | 186415 comes back as 186414, as a latitude and as a longitude |
| SrPosData.DecodeEncode | egts/subrecord/sr_pos_data.go:53-225 | a canonical position is read back as it was but for its coordinates, which are those that the degrees come back to |
| SrPosData.EncodeDecode | egts/subrecord/sr_pos_data.go:53-225 | written back octet for octet exactly when both coordinates survive, the speed is of whole units and no octets follow |
| SrPosData.SomePositionsSlip | egts/subrecord/sr_pos_data.go:96-172 | accepted octets with the coordinate 186415 in either place are never written back as they were |
| Layouts.PositionLayout | egts/subrecord/sr_pos_data.go:53-155 | which lengths are accepted with and without an altitude, and every field by its place and weight |
| Subrecords.DecodeEncode | egts/packet/record_data.go:47-95 | canonical data of every subrecord type is accepted by its encoder and read back under its type, but for coordinates that slip |
| Subrecords.EncodeDecode | egts/packet/record_data.go:47-135 | decoded data has the type asked for, is canonical, and is written back as it was exactly when nothing was lost |
| Layouts.TypesLayout | egts/packet/record_data.go:47-95 | the twelve types, each decoded as its own, and no other |
| Records.DecodeLoop | egts/packet/record_data.go:23-99 | the buffer loop over subrecords computes the recursive reading |
| Records.EncodeLoop | egts/packet/record_data.go:102-135 | the writer loop computes the concatenation of the entries, refused above 65535 octets |
| Records.DecodeEncode | egts/packet/record_data.go:23-135 | canonical subrecord lists that Encode accepts are read back, but for coordinates that slip |
| Records.EncodeDecode | egts/packet/record_data.go:23-135 | accepted lists are canonical and written back unless a subrecord lost something |
| Layouts.RecordsLayout | egts/packet/record_data.go:23-99 | a subrecord is its type, its length and so many octets, then the next; refused when octets are wanting |
| Services.DecodeLoop | egts/packet/services_frame_data.go:44-151 | the reader loop computes the recursive reading of service records |
| Services.EncodeLoop | egts/packet/services_frame_data.go:154-244 | the writer loop computes the concatenation, refused above 65535 octets |
| Services.DecodeEncode | egts/packet/services_frame_data.go:44-244 | canonical service records with their flag-driven fields are read back, but for coordinates that slip |
| Services.EncodeDecode | egts/packet/services_frame_data.go:44-244 | accepted frames are canonical and written back unless a subrecord lost something |
| Layouts.ServiceLayout | egts/packet/services_frame_data.go:44-151 | when exactly a service record is accepted, every field by its place, its subrecords in as many octets as it says, and what follows it |
| Packets.AcceptedExactlyWhenParses | egts/packet/packet.go:43-222 | ReadPacket accepts exactly the octets laid out as a header, data and checksums that agree, and returns that packet |
| Layouts.PacketLayout | egts/packet/packet.go:43-222 | and octet by octet: the fields of the header by place and weight, what flags, version and lengths must be, what the checksums cover, and the data of both types |
| Packets.DecodeEncode | egts/packet/packet.go:43-329 | every canonical packet that Encode accepts is read back through all four levels, with its checksums filled in and its coordinates as they were written |
| Packets.WrittenSame | egts/packet/packet.go:43-329 | data without positions is read back just as it was |
| Packets.EncodeDecode | egts/packet/packet.go:43-329 | every accepted packet is canonical, and Encode gives its octets back exactly when no subrecord lost anything |
| Reader.Stream.ReadFull | egts/packet/reader.go:12-26 | n octets are taken off the stream or an error, told apart from its clean end |
| Reader.Stream.ReadFrame | egts/packet/reader.go:12-52 | the frame taken in steps is the one its own length fields announce, and the stream goes on after it |
| Reader.AcceptedIsFramed | egts/packet/reader.go:12-52 | an accepted packet followed by anything is framed as just that packet |
| Reader.FramesOfConcatenation | egts/packet/reader.go:12-52 | a concatenation of accepted packets splits back into the same list |
| Reader.FramePassesHeader | egts/packet/reader.go:12-52 | what ReadFrame returns never fails ReadPacket for its length, header checksum or protocol version |
| Answers.PrepareAnswer | egts/packet/packet.go:333-425 | the loops that group confirmations in place compute the answer by groups |
| Answers.AnswerPartitions | egts/packet/packet.go:347-405 | every data record is confirmed once, in order, in the one group of its swapped pair of services |
| Answers.GroupsKeepPlace | egts/packet/packet.go:371-405 | groups stand in the order their pairs first appeared, numbered consecutively in sixteen bits |
| Answers.CountsAgree | egts/packet/packet.go:347-405 | the groups together confirm as many records as the request has data records |
| Answers.AnswerSize | egts/packet/packet.go:333-425 | a successful answer takes 3+7k+6n octets for k pairs and n records, and encodes exactly when that is at most 65522 |
| Answers.RefusalEncodes | egts/packet/packet.go:337-340 | an answer that refuses always encodes, in three octets of data |
| AnswerContents.AnswersExactly | egts/packet/packet.go:333-425 | an answer names its packet and code, and a positive one confirms just the records of the request that hold anything but confirmations, each as OK and from its recipient to its source |
| AnswerLimits.AcceptedRequestAnswered | egts/packet/packet.go:333-425 | the answer to any accepted request with at most 4254 pairs encodes |
| AnswerLimits.BoundIsTight | egts/packet/packet.go:333-425 | with 4255 pairs there is an accepted request whose answer does not encode |
| Relaying.Decide | gateway/server/relay.go:82-106 | the two loops decide as the definition by what the services carry: data, credentials, both or neither |
| SessionCounts.CompactCounted | gateway/server/queue.go:136-149 | compaction keeps every session's count and registration |
| SessionCounts.PushCounted | gateway/server/queue.go:70-95 | so does a packet that is charged to its session |
| SessionCounts.ClearEgtsCounted | gateway/server/queue.go:275-283 | so does a confirmed EGTS delivery, which takes a session off the registry only when nothing of it is queued |
| SessionCounts.EndCounted | gateway/server/relay.go:53-65 | so does the end of a connection |
| SessionCounts.OpenCounted | gateway/server/relay.go:27-51 | so does a new session |
| QueueClass.Server.constructor | gateway/server/server.go:55-59 | a server starts with an empty queue and registry, its counts in order |
| QueueClass.Server.OpenSession | gateway/server/relay.go:27-51 | a new session is registered, open and with nothing pending; the counts stay in order |
| QueueClass.Server.SetAccepting | gateway/server/server.go:124-149 | starting and stopping to accept leaves queue, registry and counts as they are |
| QueueClass.Server.Compact | gateway/server/queue.go:136-149 | the in-place compaction leaves the undelivered packets in order, signals each other packet's done once, clears the freed slots, and keeps the counts |
| QueueClass.Server.FindFor | gateway/server/queue.go:167-175 | the scan finds the first packet the target still needs |
| QueueClass.Server.Enqueue | gateway/server/queue.go:46-101 | either the packet joins the queue with all its destinations, its session is charged and the loop woken, or nothing changes; and which, by the checks in their order; the destinations are those enabled, EGTS ones only for a packet that holds something to relay; the counts stay in order |
| QueueClass.Server.Confirm | gateway/server/queue.go:264-284 | one destination comes off one packet; an EGTS one also off its session, which is always found and leaves the registry when it has ended and nothing is left; the counts stay in order |
| QueueClass.Server.EndSession | gateway/server/relay.go:53-65 | an ended session leaves the registry at once exactly when nothing is pending; the counts stay in order |
| Admissions.AdmissionExactly | gateway/server/queue.go:46-82 | which of the five outcomes a packet has, and for which destinations it is then queued, by configuration and packet alone |
| Admissions.RelayExactly | gateway/server/relay.go:82-106 | a packet has something to relay when it has no service record, or one outside authorization that is empty or holds something other than a confirmation; and credentials when any record of it has |
| Admissions.WantedIsKept | gateway/server/queue.go:46-101 | in every run each accepted packet is for just the enabled destinations, EGTS ones if it has something to relay, and is confirmed by each or queued for it; after a good stop, confirmed or in the dump |
| Engine.FirstFor | gateway/server/queue.go:167-175 | what is dispatched is pending for the target and nothing before it is |
| Queues.FirstPending | gateway/server/queue.go:167-175 | the packet found is the head of the target's line |
| Queues.CompactedPending | gateway/server/queue.go:137-148 | compaction changes no target's line |
| Queues.ClearedFirst | gateway/server/queue.go:264-277 | confirming the head of a target's line leaves the rest of it |
| Queues.ClearedLoad | gateway/server/queue.go:276-278 | a confirmation lowers the pending deliveries of its own session by one and of no other |
| EngineDelivery.StepKept | gateway/server/queue.go:46-303 | every step of connections, delivery loop, workers, dump, shutdown, restart and crash keeps order, in-flight heads, conservation, the done channels and the dump invariants |
| EngineTheorems.Fifo | gateway/server/queue.go:46-303 | over all runs with clean restarts, per destination: the accepted packets needing it are, in order, those confirmed then those pending; each is confirmed at most once and in order |
| EngineTheorems.InHandIsFirst | gateway/server/queue.go:152-209 | what a target has in hand is the first packet pending for it; the queue never exceeds its capacity |
| EngineTheorems.NothingLost | gateway/server/server.go:147-188 | an accepted packet is confirmed or queued for each destination it needs; after a graceful stop with a successful final dump, confirmed or pending in the dump |
| EngineTheorems.DoneMeansDelivered | gateway/server/queue.go:137-144 | done is closed at most once for a packet, and only when all its destinations have confirmed |
| EngineTheorems.DumpedNeverLost | gateway/server/queue.go:285-293 | a packet once in the dump stays in queue and dump for each destination until confirmed, across crashes and failed dumps |
| EngineTheorems.SessionsCount | gateway/server/relay.go:53-65 | a session's pending count is the EGTS deliveries queued for it; it is registered exactly while open or pending; a result always finds its session |
| EngineTheorems.WritersClosedOnce | gateway/server/server.go:209-218 | a session's writers are closed at most once, never while a delivery of it is queued before the final shutdown, and all of them by the end |
| EngineTheorems.InHandWritersOpen | gateway/server/queue.go:199-200 | an EGTS attempt in hand uses writers not yet closed |
| EngineTurns.ScanExactly | gateway/server/queue.go:152-209 | looking at a target starts an attempt exactly when it is idle, has packets pending, is not put off and the loop is not stopping: at the first packet, from now; and what it does to count and timer |
| EngineTurns.TurnExactly | gateway/server/queue.go:135-237 | a whole turn that nothing interrupts: just the due targets are started, the loop returns exactly when it is stopping with all idle, and else waits until the earliest time to which an idle target is put off |
| EngineTurns.NoDueTargetSkipped | gateway/server/queue.go:152-209 | in every run, whatever else happens: before the loop waits it has looked at each target and started it if it was due then; one passed over with packets pending was put off until later than that |
| EngineTurns.OnlyDueIsStarted | gateway/server/queue.go:152-209 | and no other step starts an attempt |
| EngineTurns.GoesOnUnlessBlocked | gateway/server/queue.go:135-237 | in every run the loop can go on exactly when it has neither returned nor is blocked as `NoLostWakeup` describes |
| EngineOutcomes.SettlesExactly | gateway/server/queue.go:238-284 | a success takes the first pending packet off its target and counts it as confirmed by that one alone; a failure does neither |
| EngineOutcomes.ConfirmedWasDelivered | gateway/server/queue.go:200-284 | in every run a target has confirmed only packets at which an attempt of it has ended well |
| EngineRedelivery.CrashRedelivers | gateway/server/queue.go:285-293 | in every run, unless the loop is just saving or a save has failed, a crash brings back only what is still queued: nothing confirmed is delivered again |
| EngineSessions.StepSessions | gateway/server/queue.go:70-78 | every step keeps the reference counts and the single closing |
| EngineSessions.SettleEnabled | gateway/server/queue.go:275-283 | the relay session dereferenced for a confirmed packet exists and is registered |
| EngineWakeup.NoLostWakeup | gateway/server/queue.go:135-237 | blocked without stopping, the loop has no fully delivered packet, every idle target has nothing pending or is in back-off, and the timer is due no later than any such back-off |
| EngineWakeup.StoppingWaitsForWork | gateway/server/queue.go:210-231 | while stopping it blocks only with an attempt still running |
| EngineWakeup.StepWatched | gateway/server/queue.go:95-99 | every step keeps what has been looked at from being missed |
| EngineClock.FailuresInTime | gateway/server/queue.go:240-263 | in every run the attempts of a target that failed since its last success are spread a second apart, at most dump_after+1, counted from the start of the first; the next try is a second after the last ended, or at the deadline if that is sooner; and the server has stopped if the last ended at the deadline or later |
| EngineClock.StallOnlyAtDeadline | gateway/server/queue.go:240-259 | in every run a failure that is dealt with stops the server exactly when it ends at or after the deadline of the first since the target's last success |
| EngineClock.StepClocks | gateway/server/queue.go:182-263 | every step keeps the clock of a target what its failures make it |
| EngineDump.DumpRestores | gateway/server/dump.go:37-199 | in every reachable state, restoring what saveDump writes succeeds and gives the queue and sessions of the engine's next start |
| StallClock.StallsAtDeadline | gateway/server/queue.go:240-259 | a stall is declared by an attempt that ends at or after the first failed one's start plus dump_after, never earlier; otherwise the next try is a second after the attempt ended, or at that deadline if that is sooner |
| StallClock.RetriesSpread | gateway/server/queue.go:256-259 | the k-th retry starts at least k seconds in, or at the deadline |
| StallClock.StallsInTime | gateway/server/queue.go:182-188 | there are never more than dump_after+1 failing attempts, and that many end in a stall |
| StallClock.PromptStallIsExact | gateway/server/queue.go:182-188 | with no delay between attempts the stall comes exactly at the deadline |
| SortedIds.SortedIsUnique | gateway/server/dump.go:211-222 | a set of identifiers is listed in one way only, so the dump does not depend on map order |
| SortedIds.List | gateway/server/dump.go:208-211 | collecting in any order and sorting gives that list |
| SortedIds.LessExactly | gateway/server/dump.go:211-222 | the order is that of the first place where two identifiers differ, and a beginning comes first |
| Dump.SaveDump | gateway/server/dump.go:201-277 | the loops write one record per packet still pending, in order, under the oldest version that knows every enabled kind |
| Dump.RestoreDump | gateway/server/dump.go:37-199 | the loops accept exactly the dumps whose version, destinations, packets and relay data are sound, and rebuild queue and sessions |
| Dump.RestoreRecord | gateway/server/dump.go:84-188 | one record, with the legacy versions' rules |
| Dump.OneComesBack | gateway/server/dump.go:84-224 | a pending packet saved and restored has the same record, destinations, session and identity |
| Dump.SessionsComeBack | gateway/server/dump.go:176-188 | the sessions restored are those of the queue, ended, each with its count |
| Dump.RoundTrip | gateway/server/dump.go:37-277 | restoring what was saved succeeds and rebuilds packets, order, pending sets, identities, grouping and counts |
| DumpExact.RestoresExactly | gateway/server/dump.go:37-199 | whoever wrote it, a dump is restored exactly when its version is known, its records are no more than the capacity and each is good: enabled destinations that its version knew, none twice, at least one, a packet that reads, and for EGTS ones something to relay, a session and an identity; and as what |
| DumpExact.VersionExactly | gateway/server/dump.go:240-262 | which version a dump is written under, by the kinds enabled |
| Connection.Handler.Scan | gateway/server/connection.go:72-111 | the loops over authorization records compute what the packet asks for, by definitions over all its records |
| Connection.Handler.PrepareReply | gateway/server/connection.go:143-151 | the answer renumbered in place is the answer with the numbers that follow |
| Connection.Handler.HandleFrame | gateway/server/connection.go:43-215 | one turn of the loop: what is sent, what is offered to the queue, the code, whether the connection ends, and the state after it |
| ConnectionRules.DecidedByContent | gateway/server/connection.go:72-133 | by what a data packet holds: it is denied exactly with credentials that are wrong while authorization is on, or from a terminal authorized neither by it nor before, unless it only identifies; asked for credentials exactly if it only identifies and the terminal is not authorized; every other is put to the queue, whose answer gives the code |
| ConnectionRules.GivenLast | gateway/server/connection.go:80-121 | a packet is queued with the terminal and identity given last, in it or before, and an identity only on a relay session |
| ConnectionRules.KeptLast | gateway/server/connection.go:207-214 | and those are kept for the packets to come when it was answered OK |
| ConnectionRules.RefusedByReading | gateway/server/connection.go:52-66 | a data packet that does not read is answered with the code of its fault; others are passed over; neither changes anything but the numbers |
| ConnectionRules.VerdictByContent | gateway/server/connection.go:167-187 | a verdict follows the answer exactly for packets with an identity or credentials: the demand for credentials, or the code of the answer |
| ConnectionRuns.OneResponse | gateway/server/connection.go:143-187 | an answered frame gets one RESPONSE first, naming its packet and code, and at most one verdict |
| ConnectionRuns.HandledIsAnswered | gateway/server/connection.go:52-187 | a data frame is answered, or the connection ends with it: because the answer could not be written, a delivery was given up, or a successful answer is too long; a refusal is always sent; other frames are passed over without trace |
| ConnectionRuns.SetByAccepted | gateway/server/connection.go:72-214 | over a whole connection authorization, source and identity are those that the last data packet answered with OK left, whatever was refused or passed over since |
| ConnectionRuns.AuthorizedUntilDenied | gateway/server/connection.go:207-214 | a connection once authorized stays so, and reads nothing after a denial |
| ConnectionRuns.NumbersFollow | gateway/server/connection.go:143-170 | over a whole connection the packets sent and the records in them are each numbered 1, 2, 3 … in sixteen bits |
| ConnectionRuns.QueuedAfterLogin | gateway/server/connection.go:91-121 | with authorization on, every packet offered to the queue is, or follows, one whose credentials were all valid |
| ConnectionRuns.IdentityStaysKnown | gateway/server/connection.go:80-90 | the identity kept for relaying can always be decoded again |
| EngineGrowth.StepGrows | gateway/server/queue.go:46-303 | no step, restart or crash takes back an accepted packet or a confirmation |
| Gateway.OfferedWhatever | gateway/server/connection.go:112-121 | what a frame puts to the queue is settled before the queue answers: the packet of these octets |
| GatewayRuns.GatewayKept | gateway/server/connection.go:19-216 | every step of connections and engine together keeps open sessions apart, waiting packets in the log as what they are, and the promise of every answer |
| GatewayRuns.OkIsKept | gateway/server/connection.go:119-165 | in every run a packet answered OK has been accepted with its octets, and in delivered mode each enabled destination that is one for it has confirmed it, unless all it holds is identities for authorization and its terminal was not authorized: such a packet is never accepted |
| GatewayRuns.DeliveredBeforeAnswer | gateway/server/connection.go:128-134 | and had done so before the answer went out |
| GatewayRuns.OkIsNotLost | gateway/server/server.go:147-188 | in every run with clean restarts a packet answered OK, but for those, is confirmed by each enabled destination that is one for it or queued for it with its octets; after a good stop, confirmed or in the dump |
| GatewayWaits.WaitsForQueued | gateway/server/connection.go:128-134 | in every run a packet that a connection waits for is queued, or its done channel is closed |
| GatewayRuns.NeverStuck | gateway/server/connection.go:43-61 | in every run a connection that reads can take any frame, and can end |
| GatewayRuns.RefinesEngine | gateway/server/server.go:121-241 | the gateway makes the engine take its own steps and no others |
| Exchange.Collect | gateway/destination/egts.go:201-208 | the pending keys are the data records with their services swapped |
| Exchange.AbsorbFrame | gateway/destination/egts.go:244-277 | the loops over confirmations fold them one by one, as far as the first that rejects |
| Exchange.Exchange | gateway/destination/egts.go:188-294 | the loop reads frame by frame until all is confirmed, confirms each APPDATA frame, and fails at the first write that does |
| AnswerContents.RepliesExactly | gateway/destination/egts.go:278-291 | of the packets read in a successful exchange each that has service records is answered, in order, with its own identifier and OK, and nothing else is sent |
| ExchangeExact.AbsorbMeans | gateway/destination/egts.go:216-277 | the loop's variables say exactly what has been said: last transport word, last verdict, records not yet confirmed |
| ExchangeExact.SuccessIsExact | gateway/destination/egts.go:201-293 | success after n frames exactly when these hold no rejecting word, all that was waited for has come, and it had not come sooner |
| ExchangeOrder.RunSucceeds | gateway/destination/egts.go:216-293 | the exchange succeeds exactly when some first packets say all that is waited for and nothing that rejects |
| ExchangeOrder.OrderDoesNotMatter | gateway/destination/egts.go:216-277 | two lists of packets with the same verdicts in order and the same confirmations, in any order, packets and number, succeed or fail alike, if nothing rejects and good verdicts are not taken back for good |
| ExchangeOrder.SplittingFails | gateway/destination/egts.go:228-257 | the case in packets: a response with confirmations, then one in progress, succeeds; the confirmations after both do not |
| Sayings.FramesSayable | gateway/destination/egts.go:228-277 | of whatever octets, the verdicts are one transport word at most, before all others, and no more on authorization than fit a packet |
| Sayings.PacketSays | gateway/destination/egts.go:228-277 | and every such list of verdicts is what some encoded packet says |
| OrderExact.OrderExactly | gateway/destination/egts.go:188-294 | all lists of packets with the same verdicts in order and the same confirmations succeed or fail alike, exactly when a record is not confirmed at all, or good verdicts are not taken back for good, or nothing is outstanding and no packets avoid being good at the end of one |
| OrderExact.UnsettledOrderMatters | gateway/destination/egts.go:238-293 | with records outstanding and verdicts taken back for good, the confirmations and then the verdicts, each in a packet of its own, succeed; the verdicts and then the confirmations fail |
| OrderExact.NothingAwaited | gateway/destination/egts.go:211-293 | with nothing outstanding and no verdict awaited, the exchange succeeds exactly when the packet is once said to be OK |
| OrderExact.OrderExactlyWithData | gateway/destination/egts.go:188-294 | where a verdict is awaited only with records outstanding, the condition is: a record not confirmed at all, nothing outstanding, or verdicts that are settled |
| OrderExact.AwaitedWithData | gateway/destination/egts.go:64-74 | the exchanges of the relay, logins included, are of that kind |
| OrderExact.AwaitedAlone | gateway/destination/egts.go:258-277 | in others unsettled verdicts need not make order matter: a case |
| RelayWriter.Writer.Inspect | gateway/destination/egts.go:64-74 | credentials are found wherever they are; authorization is expected exactly with an identity among the authorization records |
| RelayWriter.Writer.Authenticate | gateway/destination/egts.go:141-186 | it succeeds exactly when each of its exchanges does and none asks for more than it can give |
| RelayWriter.Writer.WriteContext | gateway/destination/egts.go:45-139 | success exactly described; a packet goes only over a connection opened with its identity, and one on which anything failed is never used again |
| RelayWriter.LoginsPrecede | gateway/destination/egts.go:154-183 | the authorization packets bear the identifiers just below the packet's own |
| RelayWriter.LoginsExactly | gateway/destination/egts.go:141-153 | a connection is opened with the identity that came with the packet, if any, then the name and password, if configured; an identity that does not decode is refused |
| RelayWriter.AuthenticatesExactly | gateway/destination/egts.go:154-186 | and exactly when each such request can be sent, its exchange succeeds, and a demand for credentials is met by one that follows |
| Agreement.AnswerConfirmsAll | gateway/destination/egts.go:201-257 | the peer's answer confirms every key the relay waits for and refuses none |
| Agreement.PeersAgree | gateway/destination/egts.go:188-294 | when the peer takes a packet and its answers go out, the exchange succeeds having read exactly them: one response, and a verdict exactly when one is awaited |
| Agreement.RefusalFails | gateway/destination/egts.go:229-236 | when the peer refuses, the exchange fails at its first frame |
| Agreement.ExpectationsMeet | gateway/destination/egts.go:64-74 | the relay expects a verdict exactly for the packets for which the peer sends one |
| Agreement.ConfirmationPassedOver | gateway/destination/egts.go:278-291 | the relay's own confirmation is passed over by the peer, so no loop of confirmations arises |
| RelayAndPeer.WriterSucceeds | gateway/destination/egts.go:45-294 | a relay with the right password that opens a connection to a peer gets through its logins and its packet on what the peer sends for them |
| RelayAndPeer.RepliesPassedOver | gateway/destination/egts.go:278-291 | nothing that the relay writes back in an exchange changes the peer |
| Retention.SweepLoop | gateway/configuration/rotation.go:335-353 | the loop with its running counts computes the sweep, or what is left of it when a removal fails, and fails exactly when more removals are due than succeed |
| Retention.SweepKeepsLongest | gateway/configuration/rotation.go:335-353 | the archives kept are the longest newest-first run within number, size and age |
| Retention.RemoveLinks | gateway/configuration/rotation.go:198-208 | the loop of open removes all names of the active file, or as many as it can |
| Retention.StoppedSweep | gateway/configuration/rotation.go:344-349 | a cleanup that fails after some removals leaves the newest archives exactly when it has removed only names of the open file |
| Retention.GapIsKept | gateway/configuration/rotation.go:335-353 | a cleanup that removes an archive too large but not the one after it leaves older archives that it should have removed, and a later cleanup keeps them all if they are within the limits then |
| Rotation.LinkKeeps | gateway/configuration/rotation.go:250-263 | linking the archive changes no content |
| Rotation.ArchiveTimeEarliest | gateway/configuration/rotation.go:230-233 | the archive gets the earliest time not before now and later than every other |
| Rotation.UnlinkExact | gateway/configuration/rotation.go:264-271 | removing the active name after that keeps the contents exactly when no unfinished archive was there before |
| Rotation.DoubledByRetry | gateway/configuration/rotation.go:264-271 | with one there, the next complete rotation holds the same record twice |
| Rotation.OpenKeeps | gateway/configuration/rotation.go:180-219 | opening undoes an unfinished rotation and keeps the contents |
| Rotation.UnlinkRepeats | gateway/configuration/rotation.go:264-271 | and in general repeats the active file once for each unfinished archive |
| Rotation.CrashSafe | gateway/configuration/rotation.go:221-279 | after a crash at any point of a rotation, reopening finds every record in order; and once, exactly unless the active name was gone and unfinished archives of records were there |
| Rotation.CleanKeeps | gateway/configuration/rotation.go:315-355 | a cleanup that succeeds only takes whole files off the old end |
| Rotation.CleanKeepsLongest | gateway/configuration/rotation.go:315-355 | and leaves as many of the newest as number, total size with the open file and what is to be written, and age allow, and one more would be too many |
| Rotation.CleanUntilKeeps | gateway/configuration/rotation.go:335-353 | what a cleanup leaves after only some of its removals is in order, and is the newest there was exactly when only names of the active file have gone |
| FileRuns.DeathHappens | gateway/configuration/rotation.go:180-279 | dying at any point of a rotation, or of the rotation after an opening, keeps the accounts: nothing ever written is lost, and just the copies of unfinished archives are added |
| FileRuns.CleaningDeathHappens | gateway/configuration/rotation.go:335-353 | dying in a cleanup adds and loses no record but those of archives removed |
| FileRuns.FilesOfRun | gateway/configuration/rotation.go:46-355 | over any run of writes, closes, deaths of the process and new starts: all ever written is what was there and every accepted record once and in order, exactly when no file with an unfinished archive was retired; the directory holds whole files of that in order, and just the newest, so that its records are a suffix of the accepted ones, while no cleanup was cut short |
| FileRuns.NoDoubleFailure | gateway/configuration/rotation.go:264-270 | and nothing is ever repeated in a run in which no name could neither be removed nor its archive |
| PacketFile.RotatingFile.constructor | gateway/configuration/rotation.go:66-71 | a writer starts with no file and the directory as found |
| PacketFile.RotatingFile.OpenFile | gateway/configuration/rotation.go:180-219 | opening, or failing to at any point, adds and loses no record |
| PacketFile.RotatingFile.Rotate | gateway/configuration/rotation.go:221-279 | the stream is kept, wherever it fails, but for the copies of unfinished archives it finds; when exactly one is left behind; after a success the open file is a new one and the old one the newest archive |
| PacketFile.RotatingFile.Cleanup | gateway/configuration/rotation.go:315-355 | it reports the total size exceeded exactly when the open file and the pending octets have no room; what is left when a removal fails, and exactly when that leaves a gap |
| PacketFile.RotatingFile.Write | gateway/configuration/rotation.go:103-152 | from any state: the exact state after, and success exactly when each step it needs does; an open file with room for the record stays the file, with the record at its end, and one without is retired; the stream gets the record or nothing, and repeats only what a rotation repeats; file, number, total size and age are within limits; it never reports the total size exceeded |
| PacketFile.RotatingFile.Close | gateway/configuration/rotation.go:154-178 | it adds and loses no record and leaves no gap unless a removal fails; which errors it reports, the total size never after a successful preparation |
| PacketFile.RotatingFile.Prepare | gateway/configuration/rotation.go:46-85 | success exactly described, with the state after it; a new start adds and loses no record, whatever an earlier process left; success leaves the directory within limits; when exactly a failed preparation reports the total size exceeded |

## Left out

- Nil receivers and nil pointers inside packets built by hand; no packet that was read has any.
- The texts of errors; only their presence and the codes sent to the peer are kept.
- The leaf codecs that read and write their fields in a straight line are functions on values, and so are the steps of the engine; update in place is in `QueueClass`, `Connection.Handler`, `PacketFile.RotatingFile`, `RelayWriter.Writer`, `Reader.Stream` and `Crc.Table`.
- SrPosData.DecodeEncode: a position built by hand, whose degrees are not those of any 32-bit number, is not modelled.
- Voltages and other floating-point or calendar values derived from raw fields.
- What a rejected packet held beyond its code, type and identifier.
- JSON, base64, the scanner's line limit and output-overlap checks around the dump.
- Dump.RestoreDump: the restored packets carry no identifiers of their own; the place in the dump stands for them.
- RabbitMQ and Valkey writers and their clients; only whether they confirmed matters.
- EngineTheorems.Fifo: holds while every start follows a successful final dump, because the queue lives in memory; after a crash only what `EngineTheorems.DumpedNeverLost` says remains.
- Deadlines inside an attempt: an attempt may take any time and return anything; `StallClock` adds the time it is given.
- Sockets, logging, configuration files, environment variables, the command-line programs.
- PacketFile.RotatingFile.Write: a write to the file either writes the whole record or nothing; a record written in part is not modelled.
- FileRuns.FilesOfRun: speaks of the death of the process; what the file system loses when the machine dies is not modelled.
- Files in the output directory that the gateway did not make.
