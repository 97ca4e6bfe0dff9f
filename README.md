# Points wire path of the RoboSense sensor stack, in Dafny

This project models the part of the RoboSense driver stack that carries LiDAR
point clouds over the protobuf/UDP wire. It has three pieces.

- **`LidarPointsProtoAdapter`** (`points_adapter.dfy`, module
  `PointsProtoAdapter`, class `Adapter`).
  - `init` picks the receive or send role from the configuration.
  - `start` and `stop` allocate and release the reassembly buffer.
  - On the outbound side, `send` queues a message and `sendPoints` drains the
    queue into the UDP sender, reporting each failed transmission.
  - On the inbound side, `recvPoints` is the receive loop, with its sync
    phase and its error filter. `splicePoints` copies each chunk into the
    10 000 000-byte buffer at `msgID * SPLIT_SIZE` and hands the message on
    when the frame-continuity check passes.
- **The six message conversions** (`translator.dfy`, module
  `ProtoMsgTranslator`): points, scan and packet, each in both directions
  between the internal message and its wire record.
- **The sensor manager's callback registries** (`sensor_manager.dfy`, module
  `SensorManagerModel`, class `SensorManager`): registration, fan-out in
  registration order, the `localConstruct` guard and the `MessageSource`
  codes.

How the model represents the source:

- **Threads become explicit calls.** The receive thread, the thread-pool
  drains and the atomics are replaced by sequential calls. `RecvPoints` takes
  a stretch of the datagrams that the loop reads while the running flag is
  set. Several calls in one run continue the same loop, so the loop's sync
  flag is a field that carries over between calls and that `Start` re-arms.
  Each scheduled drain is one call to `SendPoints` or `SplicePoints`, which
  runs to completion.
- **Outputs go to one ordered log.** Everything the adapter hands out is
  appended to a single event log: each `sendSplitMsg` call with its result,
  each `reportError`, and each delivered byte image.
- **Floats stay bit patterns.** Floats and timestamps are carried as their bit
  patterns, because the conversions only copy them.
- **Callbacks are identifiers.** A registered callback is an identifier, and
  calling it appends an invocation to the manager's log.

`init` tests `msg_source == 5` to choose the receiving role
(`lidar_points_proto_adapter.cpp` line 50), while the manager's
`MessageSource` enum stops at `Proto = 3` (`sensor_manager.h` lines 38-44).
Both values are modelled as written.

The continuity check in `splicePoints` (`lidar_points_proto_adapter.cpp`
line 164) only compares each chunk's frame number with the previous chunk's
and never counts the chunks of a frame, so a frame whose middle chunk is lost
is still handed on, with whatever bytes the buffer held in the gap. The model
follows the code, and `LostMiddleChunkStillDelivers` states the consequence.

`start` does not check whether the receive thread is already running. A
second `start` before a `stop` replaces the buffer and then destroys a thread
object that is still joinable, which aborts the process; `Adapter.Start`
returns `Aborted` in that case.

## Model

| member | source | states |
|---|---|---|
| ProtoMsgTranslator.Flatten | modules/rs_common/include/rs_common/msg/proto_msg_translator.h:56-62 | point i occupies entries 4i..4i+3 as x, y, z, intensity, and the list is four times as long as the cloud |
| ProtoMsgTranslator.Regroup | modules/rs_common/include/rs_common/msg/proto_msg_translator.h:82-90 | each group of four consecutive entries becomes one point, in order |
| ProtoMsgTranslator.RegroupFlatten | modules/rs_common/include/rs_common/msg/proto_msg_translator.h:56-90 | regrouping a flattened cloud gives back every point in order |
| ProtoMsgTranslator.FlattenRegroup | modules/rs_common/include/rs_common/msg/proto_msg_translator.h:56-90 | flattening a regrouped list gives back the list (length a multiple of four) |
| ProtoMsgTranslator.ToProtoPoints | modules/rs_common/include/rs_common/msg/proto_msg_translator.h:41-65 | the wire record carries the eleven header fields unchanged, and its flat data regroups to exactly the message's points |
| ProtoMsgTranslator.ToRsPoints | modules/rs_common/include/rs_common/msg/proto_msg_translator.h:67-96 | the header fields are copied back, the cloud takes height/width/is_dense from the header, and its points flatten to exactly the wire data |
| ProtoMsgTranslator.PointsRoundTrip | modules/rs_common/include/rs_common/msg/proto_msg_translator.h:41-96 | encode then decode gives back the message, except that the cloud's own metadata is rebuilt from the header |
| ProtoMsgTranslator.PointsRoundTripExact | modules/rs_common/include/rs_common/msg/proto_msg_translator.h:41-96 | when the cloud's metadata agrees with the header, encode then decode is the identity |
| ProtoMsgTranslator.ProtoPointsRoundTrip | modules/rs_common/include/rs_common/msg/proto_msg_translator.h:41-96 | decode then encode is the identity on wire records whose data length is a multiple of four |
| ProtoMsgTranslator.Payloads | modules/rs_common/include/rs_common/msg/proto_msg_translator.h:103-109 | one 1248-byte entry per packet, equal to that packet's bytes, in order |
| ProtoMsgTranslator.ToProtoScan | modules/rs_common/include/rs_common/msg/proto_msg_translator.h:98-111 | timestamp and sequence number are kept, and entry i holds the 1248 bytes of packet i |
| ProtoMsgTranslator.Unpack | modules/rs_common/include/rs_common/msg/proto_msg_translator.h:118-124 | one packet per entry, in order, with the default timestamp; the entry's bytes are a prefix of the payload and the remaining bytes keep their default |
| ProtoMsgTranslator.ToRsScan | modules/rs_common/include/rs_common/msg/proto_msg_translator.h:113-126 | timestamp and sequence number are kept, one packet per entry, each with the default timestamp and the entry's bytes as its prefix |
| ProtoMsgTranslator.ScanRoundTrip | modules/rs_common/include/rs_common/msg/proto_msg_translator.h:98-126 | encode then decode keeps the timestamp, the sequence number and every packet's payload in order; per-packet timestamps come back as the default |
| ProtoMsgTranslator.CopyPayload | modules/rs_common/include/rs_common/msg/proto_msg_translator.h:143-144 | the copied bytes become the payload's prefix and the rest of the default payload is untouched |
| ProtoMsgTranslator.CopyFullPayload | modules/rs_common/include/rs_common/msg/proto_msg_translator.h:143-144 | copying a full 1248-byte payload yields that payload |
| ProtoMsgTranslator.ToProtoPacket | modules/rs_common/include/rs_common/msg/proto_msg_translator.h:128-137 | the wire packet keeps the timestamp and all 1248 bytes |
| ProtoMsgTranslator.ToRsPacket | modules/rs_common/include/rs_common/msg/proto_msg_translator.h:139-146 | the timestamp is kept; the wire bytes become the payload's prefix and the rest of the payload keeps its default bytes |
| ProtoMsgTranslator.PacketRoundTrip | modules/rs_common/include/rs_common/msg/proto_msg_translator.h:128-146 | encode then decode is the identity on packet messages |
| PointsProtoAdapter.Accepted | modules/rs_manager/src/proto/lidar/lidar_points_proto_adapter.cpp:117-142 | the receive loop queues at most one chunk per datagram read |
| PointsProtoAdapter.AcceptedFromDatagrams | modules/rs_manager/src/proto/lidar/lidar_points_proto_adapter.cpp:122-142 | every queued chunk carries the data and header of one of the datagrams read |
| PointsProtoAdapter.SuccessfulReads | modules/rs_manager/src/proto/lidar/lidar_points_proto_adapter.cpp:136-141 | the chunks of the reads that did not fail, in the order read, at most one per datagram |
| PointsProtoAdapter.AcceptedAfterSync | modules/rs_manager/src/proto/lidar/lidar_points_proto_adapter.cpp:136-142 | after sync the loop queues exactly the successful reads, in the order read, and nothing else |
| PointsProtoAdapter.RecvReports | modules/rs_manager/src/proto/lidar/lidar_points_proto_adapter.cpp:136-139 | every report the receive loop makes is a receive error, at most one per datagram |
| PointsProtoAdapter.RecvStep | modules/rs_manager/src/proto/lidar/lidar_points_proto_adapter.cpp:125-142 | one datagram is dropped while syncing, reported when its read failed, and queued otherwise |
| PointsProtoAdapter.StillSyncing | modules/rs_manager/src/proto/lidar/lidar_points_proto_adapter.cpp:119-135 | the loop is still syncing after a stretch of datagrams exactly when it was syncing before and none of them had msgID 0 |
| PointsProtoAdapter.FilterDatagrams | modules/rs_manager/src/proto/lidar/lidar_points_proto_adapter.cpp:119-142 | from a given sync flag, the loop queues exactly the chunks Accepted gives, reports exactly the receive errors RecvReports gives, and hands back the flag StillSyncing gives |
| PointsProtoAdapter.SyncDropsUntilFirstZero | modules/rs_manager/src/proto/lidar/lidar_points_proto_adapter.cpp:125-135 | everything before the first datagram with msgID 0 is discarded silently, failed reads included, and the stream from there on is handled as if already synced |
| PointsProtoAdapter.NoZeroNoData | modules/rs_manager/src/proto/lidar/lidar_points_proto_adapter.cpp:125-135 | a stream that never presents msgID 0 queues nothing and reports nothing |
| PointsProtoAdapter.AfterSyncNothingSilent | modules/rs_manager/src/proto/lidar/lidar_points_proto_adapter.cpp:136-142 | after sync every datagram is either queued or reported, never dropped silently |
| PointsProtoAdapter.FilterCompositional | modules/rs_manager/src/proto/lidar/lidar_points_proto_adapter.cpp:119-142 | reading a stream in two stretches, with the sync flag carried over, queues, reports and syncs exactly as reading it at once; after sync the filter never re-arms |
| PointsProtoAdapter.Overwrite | modules/rs_manager/src/proto/lidar/lidar_points_proto_adapter.cpp:163 | the copy keeps the buffer's size (which bytes it changes is stated by OverwriteAt) |
| PointsProtoAdapter.OverwriteAt | modules/rs_manager/src/proto/lidar/lidar_points_proto_adapter.cpp:163 | the copy replaces exactly the bytes at [off, off + length) and leaves every other byte unchanged |
| PointsProtoAdapter.Completes | modules/rs_manager/src/proto/lidar/lidar_points_proto_adapter.cpp:164 | only the last chunk of a frame can complete it, and only when the previous chunk carried the same frame number |
| PointsProtoAdapter.SpliceStep | modules/rs_manager/src/proto/lidar/lidar_points_proto_adapter.cpp:160-163 | one chunk moves the new register into the old one, puts its frame number in the new one, and keeps the buffer's size |
| PointsProtoAdapter.StepDelivery | modules/rs_manager/src/proto/lidar/lidar_points_proto_adapter.cpp:164-168 | one chunk delivers once when it completes its frame and not at all otherwise |
| PointsProtoAdapter.SpliceAll | modules/rs_manager/src/proto/lidar/lidar_points_proto_adapter.cpp:154-175 | splicing keeps the buffer's size, leaves the last chunk's frame number in the new register, and makes at most one delivery per chunk, each of them a delivered byte image |
| PointsProtoAdapter.SpliceAllStep | modules/rs_manager/src/proto/lidar/lidar_points_proto_adapter.cpp:156-168 | splicing one more chunk extends the previous result by exactly one splice step |
| PointsProtoAdapter.SpliceRegisters | modules/rs_manager/src/proto/lidar/lidar_points_proto_adapter.cpp:160-161 | after each chunk the new register holds its frame number and the old register holds the previous chunk's |
| PointsProtoAdapter.DeliveryRule | modules/rs_manager/src/proto/lidar/lidar_points_proto_adapter.cpp:160-168 | a chunk delivers exactly when the previous chunk had its frame number and it is the last chunk of its frame; what it delivers is the first totalMsgLen buffer bytes after its own copy |
| PointsProtoAdapter.SingleChunkAfterOtherFrame | modules/rs_manager/src/proto/lidar/lidar_points_proto_adapter.cpp:164 | a one-chunk frame that follows a chunk of another frame is never delivered |
| PointsProtoAdapter.NoFinalChunkNoDelivery | modules/rs_manager/src/proto/lidar/lidar_points_proto_adapter.cpp:164 | chunks none of which is the last of its frame deliver nothing |
| PointsProtoAdapter.SpliceAddsPayload | modules/rs_manager/src/proto/lidar/lidar_points_proto_adapter.cpp:163 | splicing chunk n-1 of a frame keeps payloads 0..n-2 in place and adds payload n-1 at its offset |
| PointsProtoAdapter.FrameBuffer | modules/rs_manager/src/proto/lidar/lidar_points_proto_adapter.cpp:156-163 | after chunks 0..n-1 of a frame are spliced in order, the buffer holds payload i at offset i * SPLIT_SIZE for every i < n |
| PointsProtoAdapter.FrameDeliveries | modules/rs_manager/src/proto/lidar/lidar_points_proto_adapter.cpp:156-168 | after chunks 0..n-1 of a frame the new register holds the frame number, and a delivery of the first totalMsgLen bytes happens only with the last chunk (for a one-chunk frame, only if the register already held its number) |
| PointsProtoAdapter.FrameDeliveredOnce | modules/rs_manager/src/proto/lidar/lidar_points_proto_adapter.cpp:156-168 | a frame of two or more chunks spliced in order is delivered exactly once, as totalMsgLen bytes that are the payloads laid end to end |
| PointsProtoAdapter.FrameMissingLastChunk | modules/rs_manager/src/proto/lidar/lidar_points_proto_adapter.cpp:164 | a frame whose last chunk is lost delivers nothing |
| PointsProtoAdapter.LostMiddleChunkStillDelivers | modules/rs_manager/src/proto/lidar/lidar_points_proto_adapter.cpp:164 | a three-chunk frame whose middle chunk is lost is still delivered once |
| PointsProtoAdapter.SendEvents | modules/rs_manager/src/proto/lidar/lidar_points_proto_adapter.cpp:103-115 | a drain makes one log entry per message plus one per failed transmission |
| PointsProtoAdapter.MessageEvents | modules/rs_manager/src/proto/lidar/lidar_points_proto_adapter.cpp:107-111 | one message is first transmitted in wire form with its result, and a send error follows exactly when the transmission failed |
| PointsProtoAdapter.MessageEventsMeaning | modules/rs_manager/src/proto/lidar/lidar_points_proto_adapter.cpp:107-111 | one message is transmitted in wire form exactly once and adds one send error exactly when its transmission failed |
| PointsProtoAdapter.SendTransmitsAll | modules/rs_manager/src/proto/lidar/lidar_points_proto_adapter.cpp:103-115 | a drain transmits the wire form of every queued message exactly once, in FIFO order, and does not stop at a failure |
| PointsProtoAdapter.SendReportsFailures | modules/rs_manager/src/proto/lidar/lidar_points_proto_adapter.cpp:103-115 | a drain reports exactly one send error per failed transmission and nothing else |
| PointsProtoAdapter.SendEventsSnoc | modules/rs_manager/src/proto/lidar/lidar_points_proto_adapter.cpp:105-113 | draining one more message appends exactly that message's entries |
| PointsProtoAdapter.SendEventsStep | modules/rs_manager/src/proto/lidar/lidar_points_proto_adapter.cpp:105-113 | each loop turn extends the prefix's entries by the current message's entries |
| PointsProtoAdapter.TransmitOne | modules/rs_manager/src/proto/lidar/lidar_points_proto_adapter.cpp:107-111 | the translated message is transmitted first, and a send error follows exactly when the transmission failed |
| PointsProtoAdapter.TransmitAll | modules/rs_manager/src/proto/lidar/lidar_points_proto_adapter.cpp:105-113 | the drain loop makes exactly the log entries SendEvents gives for the queued messages |
| PointsProtoAdapter.MsgSource | modules/rs_manager/src/proto/lidar/lidar_points_proto_adapter.cpp:39-45 | msg_source is the configured value, and 0 when the key is missing |
| PointsProtoAdapter.MissingKey | modules/rs_manager/src/proto/lidar/lidar_points_proto_adapter.cpp:44-49 | no required key is missing exactly when the proto node and its three keys (send port, send address, receive port) are all present |
| PointsProtoAdapter.SendsPoints | modules/rs_manager/src/proto/lidar/lidar_points_proto_adapter.cpp:46-61 | the adapter sends exactly when send_points_proto is true and msg_source is not 5; receiving forces sending off |
| PointsProtoAdapter.PlanInit | modules/rs_manager/src/proto/lidar/lidar_points_proto_adapter.cpp:36-73 | the process exits exactly when a required key is missing or a needed socket fails; otherwise a receiver exists exactly for msg_source 5, a sender exactly for the effective send flag, and never both |
| PointsProtoAdapter.Adapter.constructor | modules/rs_manager/src/proto/lidar/lidar_points_proto_adapter.cpp:31-35 | both frame registers start at 0, both queues are empty and idle, the sync flag is armed, and there is no buffer |
| PointsProtoAdapter.Adapter.Init | modules/rs_manager/src/proto/lidar/lidar_points_proto_adapter.cpp:36-73 | the init flag is set, and the outcome and the sockets set up are those that PlanInit gives |
| PointsProtoAdapter.Adapter.Start | modules/rs_manager/src/proto/lidar/lidar_points_proto_adapter.cpp:75-81 | a fresh buffer of RECEIVE_BUF_SIZE bytes is allocated, the adapter is running, and the new receive thread's sync flag is armed; the call returns success when the adapter was stopped, and aborts the process when a receive thread was already running |
| PointsProtoAdapter.Adapter.Stop | modules/rs_manager/src/proto/lidar/lidar_points_proto_adapter.cpp:82-91 | a running adapter stops and releases its buffer; stopping a stopped adapter changes nothing |
| PointsProtoAdapter.Adapter.Send | modules/rs_manager/src/proto/lidar/lidar_points_proto_adapter.cpp:93-101 | the message is appended to the queue, and a drain is scheduled only when none was active |
| PointsProtoAdapter.Adapter.SendPoints | modules/rs_manager/src/proto/lidar/lidar_points_proto_adapter.cpp:103-115 | the queue is emptied and marked idle, and the log grows by exactly SendEvents of the old queue |
| PointsProtoAdapter.Adapter.RecvPoints | modules/rs_manager/src/proto/lidar/lidar_points_proto_adapter.cpp:117-152 | while running, from the sync flag the thread left, the queue grows by exactly the accepted chunks, the log by the receive reports, and the flag becomes what StillSyncing gives; a splice drain is scheduled once when the queue was idle and something was queued; a stopped adapter changes nothing |
| PointsProtoAdapter.Adapter.SplicePoints | modules/rs_manager/src/proto/lidar/lidar_points_proto_adapter.cpp:154-175 | the queue is emptied and marked idle; while running, the buffer, the registers and the deliveries are exactly those SpliceAll gives for the old queue, and otherwise nothing else changes |
| PointsProtoAdapter.Adapter.SpliceAt | modules/rs_manager/src/proto/lidar/lidar_points_proto_adapter.cpp:158-172 | one turn of the drain while running: the buffer, the registers and the log go from SpliceAll of the queue's first i chunks to SpliceAll of its first i + 1 |
| PointsProtoAdapter.Adapter.SpliceOne | modules/rs_manager/src/proto/lidar/lidar_points_proto_adapter.cpp:158-168 | one chunk shifts the registers, is copied in at its offset, and delivers when it completes its frame |
| SensorManagerModel.Code | manager/sensor_manager.h:38-44 | each enumerator's value is between 0 and 3, and only NotUsed has value 0 |
| SensorManagerModel.FromCode | manager/sensor_manager.h:38-44 | exactly the values 0 to 3 name an enumerator, and the one named has that value |
| SensorManagerModel.CodeRoundTrip | manager/sensor_manager.h:38-44 | every enumerator round-trips through its value, and no two enumerators share a value |
| SensorManagerModel.LocalConstruct | manager/sensor_manager.h:130-139 | an instance is created exactly when the requested mask or the type's own mask is non-zero |
| SensorManagerModel.ConstructIgnoresRequest | manager/sensor_manager.h:132 | a type with a non-zero mask is created even for a request that shares no bit with it |
| SensorManagerModel.PointsFanOut | manager/sensor_manager.h:83-84 | call i goes to the i-th registered points callback, with the same message |
| SensorManagerModel.ExceptionFanOut | manager/sensor_manager.h:93-94 | call i goes to the i-th registered exception callback, with the same code |
| SensorManagerModel.PointsFanOutCalls | manager/sensor_manager.h:78-86 | a points delivery calls each callback as many times as it is registered |
| SensorManagerModel.ExceptionFanOutCalls | manager/sensor_manager.h:88-96 | an exception delivery calls each callback as many times as it is registered |
| SensorManagerModel.PointsFanOutAfterRegistration | manager/sensor_manager.h:61-86 | registering one more points callback adds exactly one call at the end of later deliveries |
| SensorManagerModel.ExceptionFanOutAfterRegistration | manager/sensor_manager.h:55-96 | registering one more exception callback adds exactly one call at the end of later deliveries |
| SensorManagerModel.SensorManager.constructor | manager/sensor_manager.h:48 | both registries start empty and nothing has been called |
| SensorManagerModel.SensorManager.RegExceptionCallback | manager/sensor_manager.h:55-59 | one callback is appended to the exception registry; the points registry and the call log are unchanged |
| SensorManagerModel.SensorManager.RegRecvCallback | manager/sensor_manager.h:61-65 | one callback is appended to the points registry; the exception registry and the call log are unchanged |
| SensorManagerModel.SensorManager.LocalLidarPointsCallback | manager/sensor_manager.h:78-86 | the log grows by one call per registered points callback, in registration order, each with the message; nothing is called when none is registered; neither registry changes |
| SensorManagerModel.SensorManager.LocalExceptionCallback | manager/sensor_manager.h:88-96 | the log grows by one call per registered exception callback, in registration order, each with the code; nothing is called when none is registered; neither registry changes |

## Left out

- Threads, the thread pool, the atomic flags and the mutexes are not modelled. Each drain is a sequential call that runs to completion. Interleavings, such as a `stop` in the middle of a splice drain, are not covered.
- The sockets are not modelled. `receiveProtoMsg` results and `sendSplitMsg` results are inputs. `initReceiver` and `initSender` are given as whether they succeed. The splitting inside `sendSplitMsg` is not part of this model.
- Protobuf encoding and `ParseFromArray` are not modelled. A delivery is recorded as the buffer bytes handed to the parser, and the parse, `toRsMsg` and the callback on them are left out. The wire records are modelled field by field, not as bytes.
- YAML reading and `exit(-1)` are not modelled as such. A configuration key is an optional value, and the process exit is the `Exited` outcome. Logging is left out.
- Per-datagram `malloc`/`free` is not modelled. The buffer that a second `start` leaks is not tracked, since the process aborts right after. `stop`'s release of the buffer is modelled as dropping the reference.
- Floating-point values are copied bit patterns. No floating-point arithmetic happens in the core.
- `rs_sensor/proto/lidar_points_proto_adapter.h` is not part of this model. SPLIT_SIZE is taken as 1400, the chunk size of the wire protocol.
- The default-constructed packet message is taken to have a zero timestamp and zero bytes, because its header is not part of this model.
- PointsProtoAdapter.Adapter.SplicePoints: requires that every queued header keeps `msgID * SPLIT_SIZE + SPLIT_SIZE` inside the buffer, and that a chunk which passes the continuity check keeps `totalMsgLen` inside it as well. The source does no bounds check: an out-of-range chunk id writes outside the buffer, and an out-of-range length on a chunk that passes the check reads outside it. The length of any other chunk is never read and may be anything.
- ProtoMsgTranslator.ToRsPoints: requires a data length that is a multiple of four. The source reads four entries per step, and a shorter tail is read past the end of the list.
- ProtoMsgTranslator.ToRsPacket: requires at most 1248 wire bytes. The source copies the full wire length into the 1248-byte packet, and a longer payload overruns it. ToRsScan has the same requirement for each entry.
- `SensorManager::init`, `start`, `stop`, `configReceiver`, `configTransmitter`, `construct` and `initLidar` are not modelled, because only their declarations are part of this model.
