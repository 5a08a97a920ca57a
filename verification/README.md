# Verification of the BLE post-quantum TLS/MQTT benchmark

The repository measures TLS and MQTT between a Bluetooth board and a server. This project models the
parts of it that carry state, branching or arithmetic, and proves what they are for.

| part | modules |
|---|---|
| the MQTT transfer session of the board and the wolfSSL server, from single bytes to whole runs | `Bytes`, `Payload`, `Framing`, `Packets`, `TlsIo`, `Text`, `Protocol`, `Device`, `Server`, `Script`, `Follows`, `Session`, `Misfit`, `Identifiers`, `AnyPeer`, `WireExamples` |
| the Bluetooth/TCP bridge in both directions, and the board's ends of it | `Uplink`, `RelayBridge`, `ControlSender`, `TlsSender`, `Downlink` |
| packing of trust anchors, schedule, crash and resume | `Permutations`, `RootPacking`, `Schedule`, `Resume`, `TransferManifest` |
| ranking and bootstrap of the analysis | `Pareto`, `Bootstrap`, `Ranking` |
| power markers of the board and their integration on the host | `PowerMarkers`, `PowerWindows` |
| the host's MQTT client | `MqttClient` |

Code that changes state is modelled as methods and classes (`TlsIo`, `RelayBridge.Relay`,
`ControlSender.Sender`, `TlsSender.Sender`, `Downlink.L2capReceiver`, `PowerMarkers.Gpio`, `PowerWindows.Capture`,
`Resume.RunDirectory`, `MqttClient.Client`, and the loops of the Python modules) whose contracts tie
them to functions on values; the properties of whole runs are lemmas about these functions. Numbers
that Python holds as floats are `real`; C integers wrap at their width; a shuffle is an arbitrary
random source and a sort is an arbitrary order that is sorted.

## What the proofs found

- A PUBLISH whose Remaining Length exceeds 268,435,455 is emitted with a continuation bit on the
  fourth digit. Every reader refuses it, and the board gives up on more than 4096 operations. So a
  transfer session completes exactly for the plans of at most 4096 operations whose data packets all
  fit (`Misfit.CompletesIffFits`, section 2.2.3 of MQTT 3.1.1). The plan loader checks neither.
- A session draws the packet identifier 0, which section 2.3.1 of MQTT 3.1.1 forbids, exactly if the
  board's static counter is 0 when it starts or passes 65535 on the way
  (`Identifiers.ZeroIdentifierIffWrap`); after a boot it starts at 10 and a session draws at most
  8,194.
- A new bridge decides on the third and fourth byte of the first data whether lengths are to be
  stripped. Complete SDUs come through unchanged exactly if these do not look like a TLS record, and
  SDUs behind their lengths exactly if they do (`Uplink.CompleteSdusIff`, `Uplink.PrefixedSdusIff`).
- The bridge passes complete SDUs on unchanged exactly if none of them carries the control magic at
  offset 0 or 2 (`Uplink.CompleteModeIsExact`); the board looks only at offset 0
  (`Downlink.DownlinkIsExact`).
- `benchmarking/README.md:50` promises the minimum practical set of images; the code guarantees at
  most three halves of the least number (`RootPacking.PackRootProfiles`). It does return three images
  of 10 where two would do, for roots of 4 and 3 (`RootPacking.FirstFitIsNotLeast`); it returns the
  least number whenever every root takes more than a third of the capacity
  (`RootPacking.LeastOfThirds`), which those of 3 just do not.
- The slow bootstrap wants three rows per resample and the fast one does not. They report the same
  interval whatever is drawn exactly if there are three cases or more, at the level within cases, for
  pooled rows if the two cases have three rows together or their single rows share a value, and at the
  level of case means if the two means share a value (`Bootstrap.SameIntervalAlways`). For given draws
  they do exactly if every resample has three rows or a constant variable
  (`Bootstrap.IntervalsAgree`, with an example in `Bootstrap.TwoRowsDiffer`).
- A power marker depth of 2^32 - 1 wraps to zero on the next start and leaves the pin high. Over any
  run the pins follow the counters exactly if no counter wraps uncovered
  (`PowerMarkers.PinsFollowUnlessWraps`), and a run of 2^32 starts shows the failure
  (`PowerMarkers.WrappedDepthLeavesPinHigh`).
- The board's TLS send callback leaves its retry loop on a failed allocation with its error variable
  still zero, although its comment intends a retry, and goes on to wait for a completion. A call can
  count a chunk it has not queued exactly if it starts while a completion of an earlier SDU is there
  or still to come (`TlsSender.LiesIffNotClean`); from a clean link it never does
  (`TlsSender.CleanLinkIsHonest`). A late completion gets it there: one call times out, and the next
  reports all its bytes as sent with nothing queued (`TlsSender.LateCompletion`).
- A transfer run that crashes between rewriting its round manifest and its transfer manifest resumes
  with rounds that have lost their operations, wherever the two orders differ
  (`TransferManifest.TornManifest`).
- The controller's `wait_pattern_publish` reads past the queue. What it returns is the next publication
  of its topic exactly if none of that topic is queued or the first queued payload is the same; its
  books stay right exactly if all queued payloads of the topic are the same and no identifier to be
  acknowledged is 0, which it takes for none (`MqttClient.PassIsNextIff`, `MqttClient.PassKeepsIff`).

## Model

| member | source | states |
|---|---|---|
| `Payload.PatternByteIsPayloadByte` | benchmarking/firmware/src/mqtt_transfer.c:178-181 | the wrapping 32-bit C byte generator equals the host's unbounded one for every 32-bit seed and offset |
| `Payload.SliceIsPattern` | benchmarking/benchmarklib/transfer.py:67-85 | the fast periodic generator gives byte by byte what the definition of a payload byte gives, for all non-negative offsets and sizes, and an error for negative ones |
| `Payload.AdjacentSlices` | benchmarking/gateway/mqtt_transfer_controller.py:55-64 | two adjacent slices put together are the slice over both, so cutting a payload into chunks does not change it |
| `Payload.Periodic` | benchmarking/benchmarklib/transfer.py:12-16 | 65536 is a period of the payload |
| `Payload.PeriodsAreMultiples` | benchmarking/benchmarklib/transfer.py:12-16 | the periods are exactly the multiples of 65536, so no smaller positive period exists |
| `Payload.DigestedIsPattern` | benchmarking/benchmarklib/transfer.py:92-105 | the bytes fed to SHA-256 are the payload that is transferred |
| `Payload.MakePayload` | benchmarking/gateway/wolfssl_tls_server.c:549-557 | the server's buffer holds the payload |
| `Payload.StreamPattern` | benchmarking/firmware/src/mqtt_transfer.c:264-283 | the chunks the board streams are together the payload, whatever the chunk size |
| `Payload.CheckIntegrity` | benchmarking/firmware/src/mqtt_transfer.c:332-351 | the integrity flag is true exactly if the payload has the expected size and bytes, or no size is expected |
| `Framing.RemainingRoundTrip` | benchmarking/firmware/src/mqtt_transfer.c:113-150 | a length is read back with the bytes behind it untouched exactly if it is at most 268,435,455; a longer one is refused |
| `Framing.RemainingShortest` | benchmarking/gateway/wolfssl_tls_server.c:468-479 | no encoding that a reader accepts is shorter than the emitted one, and no accepted length exceeds the maximum |
| `Framing.HostEncodesTheSame` | benchmarking/benchmarklib/transfer.py:178-189 | the host's encoder and the C encoders agree on every length in range |
| `Packets.PublishRoundTrip` | benchmarking/firmware/src/mqtt_transfer.c:199-226 | topic, identifier and payload of a published packet are read back with the suffix unread exactly if the packet fits |
| `Packets.PublishAsksForPuback` | benchmarking/firmware/src/mqtt_transfer.c:199-226 | the first byte of every published packet says PUBLISH, no duplicate, QoS 1, not retained |
| `Packets.AnyQosIsRead` | benchmarking/firmware/src/mqtt_transfer.c:296-353 | a packet of any quality of service is read, with an identifier exactly if it has one |
| `Packets.PublishRefused` | benchmarking/firmware/src/mqtt_transfer.c:199-226 | a packet that does not fit is refused by the board, as long as its length does not wrap at 32 bits |
| `Packets.ServerPublishRoundTrip` | benchmarking/gateway/wolfssl_tls_server.c:559-605 | the same for the server's reader |
| `Packets.PubackRoundTrip` | benchmarking/firmware/src/mqtt_transfer.c:155-173 | an acknowledgement is read back as its identifier |
| `Framing.ReadersAgree` | benchmarking/gateway/wolfssl_tls_server.c:481-509 | on every byte stream the streaming reader of the board and the whole-packet reader of the server accept the same packets with the same contents |
| `Packets.HostHeaderIsTheSame` | benchmarking/benchmarklib/transfer.py:192-198 | the host's header builder emits the C programs' header exactly for the packets that fit, and an error otherwise; the header asks for one acknowledgement |
| `Framing.DevicePublishStable` | benchmarking/firmware/src/mqtt_transfer.c:296-353 | a packet the board can read does not depend on bytes that arrive later |
| `Framing.ServerPublishStable` | benchmarking/gateway/wolfssl_tls_server.c:481-509 | a packet the server can read does not depend on bytes that arrive later |
| `TlsIo.WriteRemaining` | benchmarking/firmware/src/mqtt_transfer.c:113-125 | the digit loop writes the encoding and returns its length |
| `TlsIo.BuildPublishHeader` | benchmarking/gateway/wolfssl_tls_server.c:559-573 | the header buffer holds kind, remaining length, topic and identifier and nothing else, and its first byte says QoS 1, no duplicate, not retained |
| `TlsIo.TlsStream.ReadExact` | benchmarking/firmware/src/mqtt_transfer.c:65-84 | under any segmentation of reads it returns exactly the next bytes, loses none, and fails only at the deadline or a TLS error |
| `TlsIo.TlsStream.ReadPacketHeader` | benchmarking/firmware/src/mqtt_transfer.c:130-150 | under any segmentation it reads the fixed header that the bytes encode or refuses bytes that encode none |
| `TlsIo.TlsStream.WaitPuback` | benchmarking/firmware/src/mqtt_transfer.c:164-173 | it succeeds only on the acknowledgement of its packet and otherwise fails only at the deadline, a TLS error or on something else |
| `TlsIo.TlsStream.ReadPublish` | benchmarking/firmware/src/mqtt_transfer.c:296-353 | under any segmentation it reads what the packet says, with the integrity flag of the payload, and fails only at the deadline, a TLS error or on bytes that are no packet |
| `Text.BeginRoundTrip` | benchmarking/firmware/src/mqtt_transfer.c:522-527 | the count the server formats is the count the board scans |
| `Text.CommandRoundTrip` | benchmarking/firmware/src/mqtt_transfer.c:543-548 | direction, order, size, seed and hash of a command survive formatting and scanning |
| `Text.AckUpRoundTrip` | benchmarking/firmware/src/mqtt_transfer.c:588-594 | the server's confirmation survives formatting and scanning |
| `Text.SpaceIsSkipped` | benchmarking/firmware/src/mqtt_transfer.c:522-548 | scanning skips exactly tab to carriage return and blank |
| `Text.DigitIsScanned` | benchmarking/firmware/src/mqtt_transfer.c:522-548 | a scanned number goes on with exactly the ten digits |
| `Device.InputStable` | benchmarking/firmware/src/mqtt_transfer.c:497-639 | what the board has decided to read does not change when more bytes arrive |
| `Server.InputStable` | benchmarking/gateway/wolfssl_tls_server.c:655-783 | what the server has decided to read does not change when more bytes arrive |
| `Follows.DeviceFollowsScript` | benchmarking/firmware/src/mqtt_transfer.c:497-639 | at each position of the conversation the board writes that message or reads it off any stream that starts with it, and then is at the next position |
| `Follows.ServerFollowsScript` | benchmarking/gateway/wolfssl_tls_server.c:655-783 | the same for the server |
| `Session.StepKeeps` | benchmarking/gateway/wolfssl_tls_server.c:655-783 | every write, read or partial delivery keeps both sides on one conversation with exactly the messages between their positions in the channels, and brings the run closer to its end |
| `Session.RunKeeps` | benchmarking/firmware/src/mqtt_transfer.c:497-639 | the same for whole runs, whose length is bounded |
| `Session.ReadersGetWhatTheyExpect` | benchmarking/firmware/src/mqtt_transfer.c:497-639 | in every reachable state the head message is the one its reader expects, and neither side has failed |
| `Session.NoDeadlock` | benchmarking/gateway/wolfssl_tls_server.c:679-783 | no reachable state is stuck unless both sides are done |
| `Session.RunsComplete` | benchmarking/gateway/wolfssl_tls_server.c:698-782 | every run is bounded, and one that cannot go on has completed the same operations in plan order on both sides with nothing left in flight |
| `Session.InFlight` | benchmarking/gateway/wolfssl_tls_server.c:679-783 | at most two packets are unread at any time and never in both directions |
| `Identifiers.DrawnId` | benchmarking/firmware/src/mqtt_transfer.c:40 | after any run the board's counter is its start value plus the packets published in that run, at most two before the operations and two in each |
| `Identifiers.ServerIdInRange` | benchmarking/gateway/wolfssl_tls_server.c:520-530 | the server's untruncated counter stays below 65536, so its comparison with the 16 bits received holds |
| `Identifiers.IdentifiersInRange` | benchmarking/firmware/src/mqtt_transfer.c:199-206 | every identifier either side is about to write is in 1..65535 when the board's counter starts low enough |
| `Identifiers.PositionReached` | benchmarking/firmware/src/mqtt_transfer.c:497-639 | every position of the conversation is reached by both sides with nothing in flight |
| `Identifiers.EveryIdIsDrawn` | benchmarking/firmware/src/mqtt_transfer.c:199-255 | each identifier from the start value on, two and two per operation, is drawn in some reachable state |
| `Identifiers.ZeroIdentifierIffWrap` | benchmarking/firmware/src/mqtt_transfer.c:199-206 | some reachable state draws the identifier 0 exactly if the counter starts at 0 or its start value plus the packets published passes 65535 |
| `Misfit.FitsBySize` | benchmarking/firmware/src/mqtt_transfer.c:113-125 | the largest payload in each direction, in bytes |
| `Misfit.MisfitIsRefused` | benchmarking/firmware/src/mqtt_transfer.c:231-255 | neither reader gets a packet that does not fit, also where its length wraps at 32 bits |
| `Misfit.TrackStep` | benchmarking/firmware/src/mqtt_transfer.c:561-636 | a session with a packet that does not fit follows the conversation up to that packet and there ends in failure |
| `Misfit.DoomedStays` | benchmarking/firmware/src/mqtt_transfer.c:608-636 | after a refused packet no bytes that arrive later let the session succeed |
| `Misfit.TooManyRun` | benchmarking/firmware/src/mqtt_transfer.c:522-527 | no run of a session of more than 4096 operations completes: the board acknowledges their number and gives up |
| `Misfit.CompletesIffFits` | benchmarking/gateway/wolfssl_tls_server.c:607-653 | of all plans of operations of at least one byte, a session can complete exactly for those of at most 4096 operations whose data packets all fit |
| `Misfit.TooLongNeverCompletes` | benchmarking/gateway/wolfssl_tls_server.c:717-728 | a plan with a single down-link payload of 268,435,442 bytes never completes |
| `AnyPeer.ServerDoneIff` | benchmarking/gateway/wolfssl_tls_server.c:655-783 | whatever a peer sends, the server reports success exactly if every packet it reads is the one it wants: topics, identifiers, payload bytes, confirmations; and then it has transferred the plan |
| `AnyPeer.DeviceDoneIff` | benchmarking/firmware/src/mqtt_transfer.c:497-639 | whatever a peer sends, the board reports success exactly if the packets are a session of 1 to 4096 commands, each served with the payload, hash and acknowledgements it asks for |
| `AnyPeer.DownloadsArePatterns` | benchmarking/firmware/src/mqtt_transfer.c:561-580 | every download of a successful session has the announced hash and, unless no size was announced, is the announced pattern |
| `AnyPeer.FailureIsReported` | benchmarking/gateway/wolfssl_tls_server.c:717-742 | no server takes the board's report of a failed download for a success |
| `AnyPeer.ShortPackets` | benchmarking/firmware/src/mqtt_transfer.c:155-173 | which kinds and sizes of packets are taken for an acknowledgement or a subscription; all others are refused |
| `AnyPeer.TopicLimits` | benchmarking/firmware/src/mqtt_transfer.c:302-317 | the board takes topics of up to 31 bytes and the server of up to 63; both refuse longer ones |
| `WireExamples.SubscribeBytes` | benchmarking/firmware/src/mqtt_transfer.c:358-382 | the bytes of the board's subscription |
| `WireExamples.AcknowledgementBytes` | benchmarking/gateway/wolfssl_tls_server.c:655-677 | the bytes of both acknowledgements |
| `WireExamples.PublishBytes` | benchmarking/firmware/src/mqtt_transfer.c:199-226 | the bytes of the board's READY |
| `WireExamples.LongHeaderBytes` | benchmarking/gateway/wolfssl_tls_server.c:468-479 | lengths of one, three and four digits |
| `WireExamples.CommandBytes` | benchmarking/gateway/wolfssl_tls_server.c:704-711 | the text of a command |
| `WireExamples.AckBytes` | benchmarking/gateway/wolfssl_tls_server.c:743-748 | the text of a confirmation |
| `WireExamples.PatternBytes` | benchmarking/benchmarklib/transfer.py:63-64 | some bytes of a payload |
| `WireExamples.SduBytes` | benchmarking/firmware/src/main.c:803-856 | an SDU behind its length, and the two frames of a message |
| `Uplink.DrainLeavesOneByte` | benchmarking/gateway/ble_mqtt_bridge.c:813-846 | after a call at most one byte stays pending, and only between two SDUs |
| `Uplink.DrainSplits` | benchmarking/gateway/ble_mqtt_bridge.c:813-846 | draining in two goes forwards and keeps what draining at once does, for any cut |
| `Uplink.DrainIsStrip` | benchmarking/gateway/ble_mqtt_bridge.c:813-846 | the incremental loop forwards what a one-shot decoder of the length prefixes keeps |
| `Uplink.SdusRoundTrip` | benchmarking/gateway/ble_mqtt_bridge.c:813-846 | a stream of encoded SDUs, empty ones among them, decodes to the concatenated payloads |
| `Uplink.RunDataIsDecoding` | benchmarking/gateway/ble_mqtt_bridge.c:866-885 | however a stream is cut into receives, what is forwarded is the decoding of the whole |
| `Uplink.PrefixedStreamRoundTrip` | benchmarking/gateway/ble_mqtt_bridge.c:866-885 | encoded payloads come out whole under any cutting |
| `Uplink.FramesAreControl` | benchmarking/firmware/src/main.c:803-856 | every fragment is recognised as control and fits the MTU |
| `Uplink.ControlIffMagic` | benchmarking/gateway/ble_mqtt_bridge.c:121-135 | an SDU is taken for control exactly if it has the bytes BCTL1 at the start or behind two bytes, with three more behind them |
| `Uplink.FramesOnTheAir` | benchmarking/firmware/src/main.c:803-856 | the fragments carry the magic, the start flag on the first only, the end flag on the last only, the identifier low byte first, and together the message |
| `Uplink.FramesAreFull` | benchmarking/firmware/src/main.c:826-832 | all fragments but the last are as long as the MTU allows |
| `Uplink.FramesFromDeliver` | benchmarking/gateway/ble_mqtt_bridge.c:121-186 | a receiver in any state fed the fragments of a message prints exactly it and is idle |
| `Uplink.PrintedIsLine` | benchmarking/gateway/ble_mqtt_bridge.c:175-181 | what is printed is the message, and a newline behind it exactly if it does not end in one |
| `Uplink.ContainsIffOccurs` | benchmarking/gateway/ble_mqtt_bridge.c:164-174 | the search finds a text exactly if the message is something, the text and something |
| `Uplink.MessagesDeliver` | benchmarking/firmware/src/main.c:803-856 | the same for any messages one after the other with any MTUs above 8 and any identifiers: one line per message, and the identity flags are set exactly by the messages that contain their texts |
| `Uplink.RunSeparates` | benchmarking/gateway/ble_mqtt_bridge.c:848-886 | control and data SDUs do not disturb each other, however they are interleaved |
| `Uplink.UplinkIsExact` | benchmarking/gateway/ble_mqtt_bridge.c:848-886 | on any interleaving of message fragments with data, standard output, apart from the two diagnostic lines of the first data SDU, is one line per message, its text, and TCP is exactly the payload of the data, without a sequence error |
| `Uplink.CompleteSdusIff` | benchmarking/gateway/ble_mqtt_bridge.c:866-881 | from a new bridge, complete SDUs without the magic reach TCP unchanged exactly if the first, when it has five bytes, does not have 20 to 23 at offset 2 and 3 at offset 3 |
| `Uplink.CompleteRecordsPass` | benchmarking/gateway/ble_mqtt_bridge.c:866-881 | so they do if the first begins with a TLS record of a minor version below 20 |
| `Uplink.PrefixedSdusIff` | benchmarking/gateway/ble_mqtt_bridge.c:866-885 | from a new bridge, a stream of SDUs behind their lengths comes out as its payloads, however it is cut, exactly if the first receive has five bytes with 20 to 23 at offset 2 and 3 at offset 3 |
| `Uplink.PrefixedRecordsPass` | benchmarking/gateway/ble_mqtt_bridge.c:866-885 | so it does if the first payload begins with a TLS record and the first receive has five bytes |
| `Uplink.ChunksConcat` | benchmarking/gateway/ble_mqtt_bridge.c:977-999 | the SDUs a read is cut into are together the read |
| `Uplink.ChunksAreFull` | benchmarking/gateway/ble_mqtt_bridge.c:977-999 | all SDUs of a read but the last are as long as the MTU allows |
| `Uplink.CompleteModeIsExact` | benchmarking/gateway/ble_mqtt_bridge.c:866-881 | complete SDUs reach TCP unchanged exactly if none of them carries the control magic |
| `RelayBridge.GrownIsCapacity` | benchmarking/gateway/ble_mqtt_bridge.c:796-807 | the doubling loop stays within 65536 bytes as long as at most 65536 are needed |
| `RelayBridge.Relay.SendStream` | benchmarking/gateway/ble_mqtt_bridge.c:663-677 | partial sends add up to the data; a failure means that a send has failed, and leaves a proper prefix |
| `RelayBridge.Relay.AppendPending` | benchmarking/gateway/ble_mqtt_bridge.c:790-811 | the pending bytes grow by the data, in a buffer that is large enough |
| `RelayBridge.Relay.DrainPrefixedSdu` | benchmarking/gateway/ble_mqtt_bridge.c:813-846 | the in-place loop over the shifted buffer sends and keeps what the drain function says, or a prefix of it when the socket fails |
| `RelayBridge.Relay.AcceptFragment` | benchmarking/gateway/ble_mqtt_bridge.c:141-185 | a fragment changes message buffer, flags and output as the reassembly function says; one that ends a message prints its text as one line, any other prints nothing |
| `RelayBridge.Relay.HandleControlFrame` | benchmarking/gateway/ble_mqtt_bridge.c:121-186 | the in-place reassembly has the result, state and output of the reassembly function; an end fragment prints the buffered text and its own as one line, any other prints nothing |
| `RelayBridge.Relay.ForwardBlePayload` | benchmarking/gateway/ble_mqtt_bridge.c:848-886 | one receive has the effect of the value model, and afterwards at most one byte is pending in at most 65536 bytes of buffer; it fails only on a control sequence error or when a send fails, and then TCP has a prefix of what the model sends and no control message is printed |
| `RelayBridge.Relay.ReceiveAll` | benchmarking/gateway/ble_mqtt_bridge.c:968-975 | any sequence of receives has the effect of the value model; the relay stops only when a send fails, with TCP holding a prefix of what the model sends, or at a control sequence error, with all that came before sent |
| `RelayBridge.Relay.ForwardTcp` | benchmarking/gateway/ble_mqtt_bridge.c:977-999 | a TCP read is sent as SDUs of at most the MTU in order, or a proper prefix of them when a send fails |
| `ControlSender.Sender.SendControl` | benchmarking/firmware/src/main.c:803-856 | for whatever the link makes of each SDU: it succeeds exactly if all fragments are handed over, and else the SDUs taken are those before the first failure and perhaps that one; the identifier advances in every case |
| `TlsSender.Sender.SendTls` | benchmarking/firmware/src/main.c:711-798 | result, SDUs queued and semaphore are those of the chunk loop for what the link answers; a chunk without a buffer is waited for and counted like a queued one |
| `TlsSender.CountIsHonest` | benchmarking/firmware/src/main.c:731-796 | the bytes counted are the beginning of the buffer, and the bytes queued exactly if no allocation failed; a missing completion leaves one chunk queued and not counted |
| `TlsSender.CompletionsAreSpent` | benchmarking/firmware/src/main.c:764-791 | no more chunks are counted without being queued than there are completions to come when the call starts |
| `TlsSender.CleanLinkIsHonest` | benchmarking/firmware/src/main.c:764-791 | from a clean link every counted chunk was queued, and the link stays clean unless the call ends at a missing completion |
| `TlsSender.LiesIffNotClean` | benchmarking/firmware/src/main.c:745-791 | some answers the link can give make a call count a chunk it has not queued exactly if a completion of an earlier SDU is there or to come |
| `TlsSender.LateCompletion` | benchmarking/firmware/src/main.c:749-791 | the failing run: a call times out on one chunk, its completion comes late, and the next call reports its bytes with nothing queued |
| `Downlink.L2capReceiver.OnSdu` | benchmarking/firmware/src/main.c:535-586 | a received SDU is queued and counted and keeps its buffer, a control SDU gives it back, and without a buffer nothing is received |
| `Downlink.L2capReceiver.WolfsslRecv` | benchmarking/firmware/src/main.c:890-941 | a read takes the next bytes in order and returns a buffer exactly when it is used up; queued data goes before a closed connection |
| `Downlink.L2capReceiver.StartSession` | benchmarking/firmware/src/main.c:1488-1497 | every buffer held is returned once and the queue is empty |
| `Downlink.ResetKeeps` | benchmarking/firmware/src/main.c:1488-1497 | the drain at the start of a session keeps the balance of buffers and credits and leaves nothing held or unread |
| `Downlink.RunKeeps` | benchmarking/firmware/src/main.c:542-586 | any run of reads from TCP, arrivals, partial reads and restarts keeps the order of bytes, the byte counter and the balance of buffers and credits |
| `Downlink.DownlinkIsExact` | benchmarking/firmware/src/main.c:890-941 | in every reachable state of any number of sessions, delivered, queued and in-flight bytes are the bytes read from TCP in this session exactly if no SDU of it starts with the control magic; the counter is the unread bytes; each credit of all sessions is returned once; unread bytes never exceed pool times MTU |
| `Downlink.ReadsAllItCan` | benchmarking/firmware/src/main.c:890-941 | a read hands over as many bytes as asked for, or all that is left of the SDU |
| `Downlink.EventLowersTodo` | benchmarking/firmware/src/main.c:542-586 | every arrival and every read brings the end of the transfer closer |
| `Downlink.NothingStays` | benchmarking/firmware/src/main.c:890-941 | when nothing can arrive and not one byte can be read, everything has been delivered, with all buffers and credits returned |
| `RootPacking.TwoImagesExceed` | benchmarking/run_benchmarks.py:470-487 | any two images together exceed the capacity |
| `RootPacking.BigCase` | benchmarking/run_benchmarks.py:470-487 | an image with a root of more than half the capacity has an index below the number of images of any packing |
| `RootPacking.SmallCase` | benchmarking/run_benchmarks.py:470-487 | if an image two thirds into the list has only small roots, the roots overfill as many images as come before it |
| `RootPacking.WithinThreeHalves` | benchmarking/run_benchmarks.py:470-487 | first fit on descending sizes uses at most three halves of the images any assignment needs |
| `RootPacking.LeastOfThirds` | benchmarking/run_benchmarks.py:470-487 | if every root takes more than a third of the capacity, first fit on descending sizes uses no more images than any assignment |
| `RootPacking.FirstFitIsUnique` | benchmarking/run_benchmarks.py:475-486 | only one placement puts each root into the first image with room for it at that time |
| `RootPacking.FirstFitIsNotLeast` | benchmarking/run_benchmarks.py:470-487 | whatever first fit returns for six roots of 4, 4, 3, 3, 3 and 3 has three images of 10, and two images pack them |
| `RootPacking.PackRootProfiles` | benchmarking/run_benchmarks.py:470-487 | an error exactly if a root alone exceeds the capacity, naming the largest; else exactly the first-fit placement, a partition whose images fit, where no root of a later image fits an earlier one, with at most three halves of the images of any packing, and no more than any packing if every root exceeds a third of the capacity |
| `Schedule.ShuffledKeeps` | benchmarking/benchmarklib/scheduler.py:49-51 | shuffling keeps the elements |
| `Schedule.AnyOrder` | benchmarking/benchmarklib/scheduler.py:49-51 | every order is one a shuffle can give, so nothing is proved of fewer schedules than can occur |
| `Schedule.SequenceNumbers` | benchmarking/benchmarklib/scheduler.py:25-43 | sequence numbers count all jobs from 1 |
| `Schedule.NothingForgotten` | benchmarking/benchmarklib/scheduler.py:44-47 | normal jobs and deferred groups together are all jobs |
| `Schedule.JobsOfCase` | benchmarking/benchmarklib/scheduler.py:27-43 | a case's jobs in closed form: session, attempt, warm-up flag and measured index at each place |
| `Schedule.MeasuredOnce` | benchmarking/benchmarklib/scheduler.py:27-43 | in every session each attempt from 1 on is measured exactly once, behind the warm-ups |
| `Schedule.OthersAreWarmups` | benchmarking/benchmarklib/scheduler.py:27-43 | all other jobs are warm-ups at the start of their session, with no measured index |
| `Schedule.BuildJobs` | benchmarking/benchmarklib/scheduler.py:17-55 | the jobs are all jobs once: the normal ones in some order, then whole deferred cases in some order, each in its own order |
| `Schedule.FewestSwitches` | benchmarking/run_benchmarks.py:490-506 | no order of jobs needs fewer image switches than there are images less one |
| `Schedule.FewestIsContiguous` | benchmarking/run_benchmarks.py:490-506 | that least number is reached exactly by the orders that keep the jobs of every image together |
| `Schedule.GroupJobsByFirmwareProfile` | benchmarking/run_benchmarks.py:490-506 | the same jobs, switching images one time fewer than there are images; with one image the jobs unchanged |
| `Schedule.GroupingIsLeast` | benchmarking/run_benchmarks.py:490-506 | no order of the same jobs has fewer switches, and those with as few keep images together |
| `Resume.StepKeeps` | benchmarking/run_benchmarks.py:2380-2403 | every step and every crash keeps attempt files, checkpoint and order consistent |
| `Resume.RunKeeps` | benchmarking/run_benchmarks.py:2591-2683 | the same for every sequence of invocations and crashes |
| `Resume.CompletedAreRecorded` | benchmarking/run_benchmarks.py:422-446 | every job up to the checkpoint has a row |
| `Resume.AttemptsAreNumbered` | benchmarking/run_benchmarks.py:2624-2657 | the rows of a case are numbered 1, 2, ... |
| `Resume.CompleteRun` | benchmarking/run_benchmarks.py:2591-2683 | a completed run has for each job one row and one per crash between its row and its checkpoint, so as many rows as jobs and such crashes |
| `Resume.NothingIsOverwritten` | benchmarking/run_benchmarks.py:2149-2158 | the checkpoint never decreases, the order is frozen once it is at least 1, and existing rows stay as the beginning of their file |
| `Resume.RunDirectory.Execute` | benchmarking/run_benchmarks.py:2591-2683 | the loop of one invocation, cut short after any number of file writes, takes steps of the machine; it completes exactly if the writes suffice, and else has committed one job for every two of them, behind the one for the order |
| `TransferManifest.ManifestRoundTrip` | benchmarking/run_benchmarks.py:359-384 | manifests written from one plan load as that plan |
| `TransferManifest.LoadedRounds` | benchmarking/run_benchmarks.py:359-384 | what loads from the rounds of one plan next to the operations of another |
| `TransferManifest.TornManifest` | benchmarking/run_benchmarks.py:2404-2442 | a crash between the two files does no harm exactly if the plans agree wherever a round has operations |
| `TransferManifest.SwappedRoundsLoseOperations` | benchmarking/run_benchmarks.py:2404-2442 | two rounds that change places between the files load without operations |
| `Pareto.FrontHasAPoint` | graphic/analyze_time_energy.py:1171-1181 | no front is empty, so the fallback is never taken |
| `Pareto.FirstRank` | graphic/analyze_time_energy.py:1158-1184 | rank 1 means dominated by nothing, and the converse |
| `Pareto.ParetoRanks` | graphic/analyze_time_energy.py:1158-1184 | each rank is the length of the longest dominance chain ending at the point, and each count the number of other points nowhere worse; such a point has a smaller rank and a smaller count |
| `Pareto.DominatesIff` | graphic/analyze_time_energy.py:1164-1166 | a point dominates another exactly if they differ and it is nowhere worse |
| `Pareto.NormalizedMeans` | graphic/analyze_time_energy.py:1266-1272 | a normalized objective is the share of the way from the least to the greatest value, and 0 if all are the same |
| `Pareto.NearestIsOptimal` | graphic/analyze_time_energy.py:1266-1277 | a case of least distance to the ideal point has rank 1 |
| `Bootstrap.GroupOfDraw` | graphic/analyze_time_energy.py:424-435 | each drawn copy of a cluster is a group of its own |
| `Bootstrap.ResampledRows` | graphic/analyze_time_energy.py:632-671 | the rows the slow form correlates are the prepared clusters, once per draw |
| `Bootstrap.TotalsAreSums` | graphic/analyze_time_energy.py:509-516 | sums weighted by multiplicity are the sums over the resample, at every level |
| `Bootstrap.TotalsAreCentredSums` | graphic/analyze_time_energy.py:517-520 | covariance and variances from totals are the sums over rows centred on their mean |
| `Bootstrap.CauchySchwarz` | graphic/analyze_time_energy.py:518-522 | variances are not negative and the covariance squared is at most their product |
| `Bootstrap.CoefficientInRange` | graphic/analyze_time_energy.py:518-523 | a reported coefficient lies in [-1, 1] |
| `Bootstrap.VarianceIsZero` | graphic/analyze_time_energy.py:399-401 | a variance is zero exactly if the variable is constant, where the other form tests the number of distinct values |
| `Bootstrap.FormulasAgree` | graphic/analyze_time_energy.py:391-404 | the two formulas differ only in that one wants three rows |
| `Bootstrap.FastIsSlow` | graphic/analyze_time_energy.py:444-525 | for every draw the two forms agree exactly if the resample has three rows or a constant variable |
| `Bootstrap.TwoRowsDiffer` | graphic/analyze_time_energy.py:398-401 | two cases of one row each, both drawn: the weighted form reports a coefficient, the other none |
| `Bootstrap.ReportedIff` | graphic/analyze_time_energy.py:437-441 | an interval is reported exactly if there are twenty finite coefficients and one for every ten full draws |
| `Bootstrap.ClusterBootstrap` | graphic/analyze_time_energy.py:407-441 | the loop keeps the finite coefficients of all draws, in order |
| `Bootstrap.FastClusterBootstrap` | graphic/analyze_time_energy.py:444-525 | the weighted form summarises its coefficients of all draws |
| `Bootstrap.IntervalsAgree` | graphic/analyze_time_energy.py:434-441 | over any draws both report the same interval and number of valid draws exactly if the forms agree on every draw |
| `Bootstrap.AgreeOnEveryDraw` | graphic/analyze_time_energy.py:444-525 | the clusters for which the forms agree on every draw: three or more; the level within cases; two with three rows together, or whose single rows or means share a value |
| `Bootstrap.SameIntervalAlways` | graphic/analyze_time_energy.py:434-441 | for exactly these clusters both report the same interval and number of valid draws whatever is drawn |
| `PowerMarkers.StepKeepsPins` | benchmarking/firmware/src/power_markers.c:101-146 | a call keeps the pins in step with the depths exactly unless a depth wraps with no other class holding the pin |
| `PowerMarkers.PinsFollowUnlessWraps` | benchmarking/firmware/src/power_markers.c:101-146 | over any run, D5 is high exactly if an ML-KEM or classical depth is positive and D4 exactly if a classical or signature depth is, after every call, if and only if no call makes a counter wrap with no other class holding its pin |
| `PowerMarkers.WrappedDepthLeavesPinHigh` | benchmarking/firmware/src/power_markers.c:106-108 | after 2^32 starts from idle the counter is zero with D5 still high; with one start fewer every state is right |
| `PowerMarkers.DepthsCount` | benchmarking/firmware/src/power_markers.c:65-76 | as long as no class nests 2^32 deep, the depths are the numbers of running operations |
| `PowerMarkers.DepthsCountIffNoOverflow` | benchmarking/firmware/src/power_markers.c:14-16 | the counters hold the numbers of running operations after every call exactly if no class nests 2^32 deep |
| `PowerMarkers.PinsShowWhatRuns` | benchmarking/firmware/src/power_markers.c:101-146 | as long as no class nests 2^32 deep, D5 is high exactly while a key exchange runs and D4 while a classical one or a signature runs |
| `PowerMarkers.HostNamesWhatIsCounted` | benchmarking/benchmarklib/power_profiler.py:16-23 | in any state the host's predicates name exactly the classes with a positive depth if and only if the pins follow the depths and at most one is positive |
| `PowerMarkers.HostNamesEveryMask` | benchmarking/benchmarklib/power_profiler.py:16-23 | over any run the host names every mask right if and only if at most one class is active at a time and no counter wraps |
| `PowerMarkers.HostNamesExecution` | benchmarking/benchmarklib/power_profiler.py:16-18 | over any run the host sees an execution exactly if the last call that set or reset D7 raised it, and a handshake likewise with D6 |
| `PowerMarkers.KindsOfMask` | benchmarking/benchmarklib/power_profiler.py:14-23 | the host's predicates in terms of the bits of the mask |
| `PowerMarkers.HostNamesWhatRuns` | benchmarking/benchmarklib/power_profiler.py:16-23 | as long as no class nests 2^32 deep, the host names exactly the running classes if and only if at most one runs |
| `PowerMarkers.KexSplits` | benchmarking/benchmarklib/power_profiler.py:19-21 | every key exchange mask is exactly one of ML-KEM and classical |
| `PowerMarkers.Gpio.Init` | benchmarking/firmware/src/power_markers.c:50-60 | all pins become low and the markers ready, if the port is ready; else nothing changes |
| `PowerMarkers.Gpio.DoReset` | benchmarking/firmware/src/power_markers.c:65-76 | depths and pins are idle again, once the markers are ready |
| `PowerMarkers.Gpio.TotalSet` | benchmarking/firmware/src/power_markers.c:81-86 | only D7 follows the execution, once the markers are ready |
| `PowerMarkers.Gpio.HandshakeSet` | benchmarking/firmware/src/power_markers.c:91-96 | only D6 follows the handshake, once the markers are ready |
| `PowerMarkers.Gpio.CryptoStart` | benchmarking/firmware/src/power_markers.c:101-119 | the call on counters and pins is the step of the model, and nothing before initialisation |
| `PowerMarkers.Gpio.CryptoStop` | benchmarking/firmware/src/power_markers.c:124-146 | the same for a stop, which always keeps the pins in step |
| `PowerWindows.TracksAreRuns` | benchmarking/benchmarklib/power_profiler.py:226-247 | after any samples the completed windows and the open one are exactly the maximal runs of active samples, ordered and apart, with exact count and sum; each peak is the current of one of its samples and none of them exceeds it |
| `PowerWindows.PeakIsGreatest` | benchmarking/benchmarklib/power_profiler.py:238 | the running maximum is the greatest current of the stretch |
| `PowerWindows.SumSplits` | benchmarking/benchmarklib/power_profiler.py:236-237 | the running sum adds up over adjacent stretches, from the current of single samples |
| `PowerWindows.ContainedIsActive` | benchmarking/benchmarklib/power_profiler.py:310-318 | the windows inside an execution that cuts no run carry exactly what flowed while their kind was active |
| `PowerWindows.KexIsConserved` | benchmarking/benchmarklib/power_profiler.py:16-23 | if no key exchange is cut, its count and charge are those of ML-KEM plus classical |
| `PowerWindows.SpanOfOrdered` | benchmarking/benchmarklib/power_profiler.py:50-60 | combined windows span from the first start to the last end |
| `PowerWindows.GapsNotCharged` | benchmarking/benchmarklib/power_profiler.py:50-60 | combining counts none of the gaps between pulses |
| `PowerWindows.CombinedPeak` | benchmarking/benchmarklib/power_profiler.py:50-60 | the combined peak is that of one of the windows, and no window has a greater one |
| `PowerWindows.Capture.ProcessKind` | benchmarking/benchmarklib/power_profiler.py:227-246 | the loop body advances the windows of one kind and no other |
| `PowerWindows.Capture.ProcessSample` | benchmarking/benchmarklib/power_profiler.py:226-247 | one sample advances all six windows as the definition over the samples so far says |
| `PowerWindows.Capture.CaptureLoop` | benchmarking/benchmarklib/power_profiler.py:205-224 | any samples leave exactly their maximal runs, each with the greatest current within it as its peak |
| `PowerWindows.Capture.Measurements` | benchmarking/benchmarklib/power_profiler.py:295-332 | the measured execution is the last one, or in a transfer run the first around the last handshake, followed by exactly those that start behind it; what each kind reports within it, with the greatest current of its windows; conservation of key exchange if it is not cut |
| `Ranking.RankValues` | graphic/plot_tls_handshake_bars.py:942-952 | each rank is the number of smaller values plus half of one more than the number of equal ones, whatever order the sort gives ties |
| `Ranking.RanksKeepOrder` | graphic/plot_tls_handshake_bars.py:942-952 | ranks compare as the values do, and ties share a rank |
| `Ranking.RanksSum` | graphic/plot_tls_handshake_bars.py:942-952 | the ranks of n values sum to n(n+1)/2 |
| `MqttClient.MessageIsPublication` | benchmarking/gateway/mqtt_transfer_controller.py:145-157 | on a complete publication the client reads what the server's parser reads |
| `MqttClient.RepliesAnswer` | benchmarking/gateway/mqtt_transfer_controller.py:137-143 | a SUBACK answers the wait for the subscription with its identifier and no other, and a PUBACK that for the publication with its identifier and no other |
| `MqttClient.StoreKeeps` | benchmarking/gateway/mqtt_transfer_controller.py:145-157 | storing keeps the books: per topic, returned and queued are together what arrived, and every publication that asks for it is acknowledged once |
| `MqttClient.TakeKeeps` | benchmarking/gateway/mqtt_transfer_controller.py:205-210 | taking the first queued message of a topic keeps the books of all topics |
| `MqttClient.ReturnedInOrder` | benchmarking/gateway/mqtt_transfer_controller.py:205-212 | what was returned on a topic is the beginning of what arrived on it, and the rest is queued |
| `MqttClient.Client.NextId` | benchmarking/gateway/mqtt_transfer_controller.py:94-97 | identifiers go round 1..65535 and are never 0 |
| `MqttClient.Client.WaitFor` | benchmarking/gateway/mqtt_transfer_controller.py:159-165 | waiting ends at the first reply to it, and keeps and acknowledges every publication before |
| `MqttClient.Client.SubscribeTo` | benchmarking/gateway/mqtt_transfer_controller.py:133-143 | it returns at the reply to its own identifier and loses no publication |
| `MqttClient.Client.PublishTo` | benchmarking/gateway/mqtt_transfer_controller.py:167-171 | it returns at the acknowledgement of its own identifier and loses no publication |
| `MqttClient.Client.WaitPublish` | benchmarking/gateway/mqtt_transfer_controller.py:205-212 | it returns the next publication of its topic in order of arrival, without reading if one is queued, and none of another topic |
| `MqttClient.FrontIsPacket` | benchmarking/gateway/mqtt_transfer_controller.py:184-191 | topic, identifier and payload read piece by piece are those of the whole packet, if its payload has no negative size |
| `MqttClient.FrontIff` | benchmarking/gateway/mqtt_transfer_controller.py:184-191 | read piece by piece, exactly the publications are read that the board's reader reads, and those shorter than their front |
| `MqttClient.PassKeepsIff` | benchmarking/gateway/mqtt_transfer_controller.py:184-203 | returning a packet past the queue keeps the books exactly if all queued payloads of its topic equal it and it does not ask for an acknowledgement of identifier 0 |
| `MqttClient.PassIsNextIff` | benchmarking/gateway/mqtt_transfer_controller.py:184-203 | what is returned past the queue continues its topic in order of arrival exactly if none is queued there or the first queued payload is the same |
| `MqttClient.CheckPayload` | benchmarking/gateway/mqtt_transfer_controller.py:192-200 | the chunk loop takes exactly the payload and accepts it exactly if it is the pattern of its length |
| `MqttClient.Client.WaitPatternPublish` | benchmarking/gateway/mqtt_transfer_controller.py:184-203 | it returns the next packet's payload, as valid exactly if topic and payload are the expected ones, leaves the queue alone and acknowledges by identifier; both conditions above for the books and the order; a packet shorter than its front is invalid and puts the stream out of step |

## Left out

- Sockets, poll, SSH, serial, Zephyr, BlueZ and wolfSSL calls, clocks and timeouts: channels, partial reads and sends, or a failure that can come at any time stand for them.
- AnyPeer.ServerDoneIff: is about the packets a peer's bytes come to, one after the other; that later bytes do not change what has been read is `Server.InputStable`.
- SHA-256: a function the session is given; only the shape of its hexadecimal text is used.
- The session with a Mosquitto broker: the broker is not in the repository and its order of acknowledgements is not decided there.
- The bytes a refused packet leaves behind: the session model leaves them unread, the code has read some of them. After a refusal no outcome depends on them (`Misfit.DoomedStays`).
- The text scanning of commands covers what the server formats: signs and numbers beyond 32 bits are not modelled, and of the up-link confirmation an overlong text is scanned as an empty one.
- PowerMarkers.PinsShowWhatRuns: does not say what the pins show of operations once a class has nested 2^32 deep; `PowerMarkers.PinsFollowUnlessWraps` then still says exactly when they follow the counters, which no longer count what runs.
- PowerMarkers.HostNamesWhatRuns: the same; `PowerMarkers.HostNamesEveryMask` is exact for every run in terms of the counters.
- Plans with empty payloads, for which the server's allocation may return nothing, and plans of 2^32 operations or more.
- TlsSender.Sender.SendTls: does not model the connection on its own: a connection that drops during a wait counts as a completion that does not come, and setting up the next channel clears the semaphore. Completions that come too early and are lost count as ones that may still come.
- Uplink.UplinkIsExact: does not model the two diagnostic lines that the bridge prints on the first data SDU (`benchmarking/gateway/ble_mqtt_bridge.c:856-878`); standard output here is that of the control messages.
- RelayBridge.Relay.ForwardBlePayload: the same; its output leaves out these two lines.
- RelayBridge.Relay.ReceiveAll: the same.
- Downlink.L2capReceiver.OnSdu: does not model what a control SDU selects on the board, only that it returns its buffer.
- `realloc` failures in the bridge, which end the relay.
- A file write of the run directory is one step: truncation inside the CSV writer is not modelled, nor are the handshake and transmission files that a transfer run writes between an attempt and its checkpoint.
- Resume.RunDirectory.Execute: takes the result of grouping the jobs as a parameter; any order of the same jobs is allowed.
- The order that sorting returns is a parameter in `RootPacking`, `Schedule` and `Ranking`; ties may come in any order, which covers the orders by name.
- MqttClient.Client.ReadNext: does not model which bytes a failed read has consumed; the controller gives up then.
- Topics that are not valid UTF-8, on which the controller gives up.
- Rows with missing values and Spearman's ranks in the bootstrap: callers drop the former, and ranks are not recomputed per resample. Percentiles are left as the list they are taken of. Rounding of floats.
- Partial correlations, mixed models, ANOVA, p-values, plots, tables, certificate generation, the KEM and certificate firmware.
