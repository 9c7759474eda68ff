# IronBus: a verified model

A Dafny 4.11 model of the parts of IronBus whose correctness is an argument over whole runs or over every
input: the Go client's connection, the `/admin` document and its reader, the benchmark regression gate, the load
generator, the open-loop harness, the config reload engine, the dashboard grid and the run record's base64.

`dafny verify dfyconfig.toml` checks everything.

## How the model is built

- **The outside world is arbitrary.** A socket is a script of reads that may cut bytes anywhere, fail or end; a
  broker is any sequence of replies; clocks, deadlines and random draws are arbitrary functions. A contract that
  mentions none of them therefore holds for every run. The socket counts its faults, deadlines found passed and
  writes that failed, so a call can say that it breaks the client only by a fault met during that very call.
- **Updated objects are classes.** `Client` keeps the SDK's fields (`buf`, `wbuf`, `broken`, `namedBinding`) and
  ghost histories of the bytes received, the frames taken, the requests written and the replies consumed.
  `Valid()` ties them together and every public call keeps it. The invariant is what the run theorems
  (`RunPairing`, `RunFraming`, `NamedStreamUsesFlow`) read off.
- **Loops are methods** proved against a function of their input; the laws are lemmas about that function.

| file | part of IronBus |
|---|---|
| `Common.dfy` | optional and failing results, machine integers |
| `Wire.dfy` | the length-prefixed frame and the decomposition of a byte stream |
| `Protocol.dfy` | requests, replies, which request a reply belongs to, the consume binding |
| `FetchWindow.dfy` | what one streamed fetch reply means |
| `Client.dfy` | the connection state machine and its public calls |
| `Bodies.dfy`, `WireLaws.dfy` | the request and reply bodies, encoded on one side and read on the other |
| `JsonText.dfy`, `AdminDocument.dfy` | the broker's `/admin` version 1 renderer |
| `AdminParser.dfy`, `AdminRoundTrip.dfy` | the CLI's extractor, and that the two undo each other |
| `OrderStats.dfy`, `Percentiles.dfy` | order statistics, nearest-rank percentiles, merged legs |
| `Gate.dfy`, `GateLaws.dfy` | the rolling-median regression gate |
| `Fleet.dfy`, `Drain.dfy` | the multi-connection publish driver and the drain |
| `OpenLoop.dfy` | the open-loop sender and receiver |
| `Reload.dfy` | the effective-config handle under concurrent reloads |
| `Layout.dfy` | the dashboard panel grid |
| `Base64.dfy` | base64 against the decoder of section 4 of RFC 4648 |

## Where the code and its words differ

The model follows the code. Each difference is a lemma, with the exact condition where one exists.

- **A reload does not guard `storage.io_mode`.** The reload engine documents every cold key as immutable across a
  reload. Its check walks the candidate's entries only, and the two calls that re-read the config file (`main.rs`
  lines 4212 and 10428) submit candidates that list the segment size and the data directory but not the io mode.
  The third call, a no-op on platforms other than Unix, lists all three. `IoModeIsNotGuarded` shows that the
  verdict never depends on the io mode and that the first accepted reload drops it; `DroppedColdKeyReturnsIff` that
  it comes back only through a candidate that passed before and is stored after; `ColdKeptIffListed` and
  `SnapshotColdIffListed` that cold keys survive exactly when the snapshot lists them all.
- **A latency regression can go unreported.** The gate documents that a p99 rise over 15% on any device fails it.
  A device without a finite throughput value on either side is skipped before latency is looked at.
  `LatencyNeedsThroughput` is the exact condition, `UnreportedRegression` a device with doubled p99 that passes. It
  takes a library caller: the gate binary reads its runs from JSON, which has no non-finite numbers.
- **Names that do not round-trip.** `\u00XX` escapes and non-ASCII names are not inverted by the extractor.
  `SeenIffSafe` and `NamesAreFaithful` give exactly the names that are; all other fields round-trip regardless.
  The comment that only `\"` and `\\` are undone is out of date: the code also undoes `\n`, `\r` and `\t`.
- **The reassembly buffer** stays below the largest frame plus its 4-byte prefix plus 4096 bytes. The bound
  without the prefix is false: `ReachBufferBound` drives a client to one byte below the larger one.
- **Long names.** The request encoders take stream names, subjects and patterns up to the 16-bit field length; the
  decoders of the same package reject those over 1024 bytes. `RequestReads` gives the exact set that is read back.
- **Fleet sequence numbers** are promised distinct. They are exactly when one leg does all the work, or there are
  at most 2^24 legs and no share exceeds 2^40 (`DistinctIffFits`).

## Model

| member | source | states |
|---|---|---|
| `Wire.DecodeFrame` | sdk/go/internal/wire/frame.go:99-115 | a frame is reported only when whole and within the size limit; otherwise the bytes asked for exceed those held and never exceed one maximal frame |
| `Wire.DecodeEncode` | sdk/go/internal/wire/frame.go:80-115 | an encoded frame is recovered exactly, whatever bytes follow it |
| `Wire.EncodeDecode` | sdk/go/internal/wire/frame.go:80-115 | whatever decodes is the encoding of the frame returned, followed by the rest |
| `Wire.DecodeStable` | sdk/go/internal/wire/frame.go:99-115 | a verdict reached on a prefix of the stream is final: more bytes cannot change it |
| `Wire.FramingIsUnique` | sdk/go/client.go:238-285 | a byte stream has one decomposition into frames: two readers of prefixes of it agree as far as the shorter got |
| `Protocol.AckLevelOnTheWire` | sdk/go/internal/wire/pubsub.go:33-58 | the flags byte of a publish tells the broker the requested ack level, and to stay silent exactly for the publishes the client awaits nothing for |
| `Protocol.ReplyIsPrefixFree` | sdk/go/client.go:307-318 | no whole reply to a request is a proper prefix of another reply to it |
| `Protocol.FifoPairing` | sdk/go/client.go:211-336 | if what was consumed, pushes removed, is a prefix of the broker's answers in order, every request was given its own answer |
| `Protocol.EndToEndPairing` | sdk/go/client.go:211-336 | from bytes alone: any received prefix of the broker's stream, cut anywhere and with pushes anywhere, yields the broker's frames in order and pairs every reply with its request |
| `Protocol.BindingAgreement` | sdk/go/consume.go:84-146 | however subjects resolve, a broker-side named binding is always one the client's flag admits |
| `FetchWindow.DecompressPayload` | sdk/go/internal/wire/compress.go:70-102 | a decompressed record never exceeds the 8 MiB cap, whatever length it claims and whatever the decoder does |
| `FetchWindow.CleanWindow` | sdk/go/consume.go:168-258 | a window is unpoisoned exactly when every delivery materializes and the payloads together stay within the cap; then its messages are those deliveries in order, nothing lost |
| `FetchWindow.PoisonIsFirstTrouble` | sdk/go/consume.go:200-222 | a poisoned window reports its first trouble, whatever follows: a delivery that cannot be materialized, or the one whose payload takes the window over the cap |
| `FetchWindow.WindowBounds` | sdk/go/consume.go:168-258 | a successful window has one entry per streamed frame, at most the record limit of them, and at most the cap in payload bytes |
| `FetchWindow.FetchDecompressedCap` | sdk/go/consume.go:154-160 | the aggregate cap is never below 256 MiB, never above the largest int, and at least any credit that fits |
| `Client.Client.Close` | sdk/go/client.go:170-175 | closing breaks the client for good but keeps an earlier failure |
| `Client.Client.Fail` | sdk/go/client.go:186-191 | the first failure sticks |
| `Client.Client.Send` | sdk/go/client.go:211-229 | a request is refused with the sticky error, an expired context or an oversized frame, and then everything is as it was; any other is on the wire whole and a reply is owed when it bears one, unless its own write failed, which breaks the client |
| `Client.Client.ReadFrame` | sdk/go/client.go:238-285 | the next frame is a function of the byte stream alone, not of how reads cut it; received bytes always equal the frames taken plus the buffer; the buffer and every read size stay bounded, and fewer than 4096 bytes stay behind a frame taken; every error is terminal and named by the stream or the deadline; a broken client reads nothing |
| `Client.Client.FillBuffer` | sdk/go/client.go:263-284 | one read moves bytes from the socket to the buffer, losing and inventing none, as many as the socket has up to the read size, and keeps the buffer bound |
| `Client.ReadSize` | sdk/go/client.go:263-270 | every socket read asks for between 4096 and 262144 bytes |
| `Client.Client.ReadPastPushes` | sdk/go/client.go:307-318 | pushes are drained and the first other frame of the stream is returned, leaving exactly what follows it; it fails only when the stream has no such frame or the socket does |
| `Client.Client.ReadReply` | sdk/go/client.go:307-318 | exactly one owed reply is settled, and it is the oldest |
| `Client.Client.Command` | sdk/go/client.go:322-336 | a refused request leaves everything as it was; otherwise success means the wanted tag, `ServerError` the broker's own Err to this request with nothing owed, anything else ends the connection; exactly the next reply of the stream is consumed |
| `Client.Connect` | sdk/go/client.go:87-162 | a client is returned only after the broker's Info reply to this Connect was read and decoded, and always when it arrives and no fault meets the handshake; every other outcome closes the socket with the error the first frame calls for; a bad ack level is refused with the socket untouched |
| `Client.Client.Ping` | sdk/go/client.go:178-183 | reply boundary or dead: exactly the next reply is consumed, success exactly on Pong; a call refused before the write leaves everything as it was, and the client breaks only by a fault during the call or for want of a reply; a broken client writes and reads nothing |
| `Client.Client.DeclareStream` | sdk/go/streams.go:22-31 | reply boundary or dead: exactly the next reply is consumed, success exactly on Ok; a call refused before the write leaves everything as it was, and the client breaks only by a fault during the call or for want of a reply; a broken client writes and reads nothing |
| `Client.Client.BindSubject` | sdk/go/subjects.go:14-26 | reply boundary or dead: exactly the next reply is consumed, success exactly on Ok; a call refused before the write leaves everything as it was, and the client breaks only by a fault during the call or for want of a reply; a broken client writes and reads nothing |
| `Client.Client.CumulativeAck` | sdk/go/consume.go:350-356 | reply boundary or dead: exactly the next reply is consumed, success exactly on Ok; a call refused before the write leaves everything as it was, and the client breaks only by a fault during the call or for want of a reply; a broken client writes and reads nothing |
| `Client.Client.Subscribe` | sdk/go/consume.go:87-96 | reply boundary or dead: exactly the next reply is consumed, success exactly on Ok, and the binding flag keeps agreeing with the answers given; a call refused before the write leaves everything as it was, and the client breaks only by a fault during the call or for want of a reply; a broken client writes and reads nothing |
| `Client.Client.Unsubscribe` | sdk/go/consume.go:100-109 | reply boundary or dead: exactly the next reply is consumed, success exactly on Ok, and the binding flag keeps agreeing with the answers given; a call refused before the write leaves everything as it was, and the client breaks only by a fault during the call or for want of a reply; a broken client writes and reads nothing |
| `Client.Client.SubscribeTo` | sdk/go/streams.go:77-93 | reply boundary or dead: exactly the next reply is consumed, success exactly on Ok, and the binding flag keeps agreeing with the answers given; a call refused before the write leaves everything as it was, and the client breaks only by a fault during the call or for want of a reply; a broken client writes and reads nothing |
| `Client.Client.SubscribeSubject` | sdk/go/subjects.go:46-65 | reply boundary or dead: exactly the next reply is consumed, success exactly on Ok, and the binding flag keeps agreeing with the answers given; a call refused before the write leaves everything as it was, and the client breaks only by a fault during the call or for want of a reply; a broken client writes and reads nothing |
| `Client.Client.QueryStream` | sdk/go/streams.go:35-60 | the status returned is read from the broker's reply to this very query; a call refused before the write leaves everything as it was, and the client breaks only by a fault during the call or for want of a reply; a broken client writes and reads nothing |
| `Client.Client.Settle` | sdk/go/consume.go:289-316 | the status byte returned is the broker's reply to this very settlement; a call refused before the write leaves everything as it was, and the client breaks only by a fault during the call or for want of a reply; a broken client writes and reads nothing |
| `Client.Client.ReadPubReply` | sdk/go/produce.go:231-255 | one owed publish reply is settled, the next of the stream, judged by its own content; a rejection leaves the connection usable, and the client survives whenever the stream has a publish reply to give |
| `Client.Client.ProduceBody` | sdk/go/produce.go:214-227 | the ack or rejection returned is the broker's reply to this very publish, with nothing owed after it; a call refused before the write leaves everything as it was, and the client breaks only by a fault during the call or for want of a reply; a broken client writes and reads nothing |
| `Client.Client.ProduceTo` | sdk/go/streams.go:65-71 | the same for a publish to a named stream |
| `Client.Client.ProduceSubject` | sdk/go/subjects.go:31-37 | the same for a publish to a subject |
| `Client.Client.ProduceDedup` | sdk/go/produce.go:96-98 | the same for a deduplicated publish, the duplicate mark included |
| `Client.Client.ProduceFireAndForget` | sdk/go/produce.go:181-187 | one publish is written unless it is refused or its write fails, the socket is not read and nothing becomes owed; a refused publish leaves everything as it was |
| `Client.Client.ProduceWithAckLevel` | sdk/go/produce.go:79-91 | level 0 awaits nothing, levels 1 and 2 send the publish and return the offset or rejection of their own reply, higher levels touch nothing |
| `Client.Client.EncodeWindow` | sdk/go/produce.go:131-141 | the window is encoded whole exactly when every message encodes; otherwise the error is that of the first message that does not, and nothing can have been written |
| `Client.Client.ProduceWindow` | sdk/go/produce.go:119-177 | a window refused for the sticky error, a message that does not encode or an expired context leaves everything as it was; otherwise all publishes are written before any reply is read, and without a fault during the call the client survives exactly when the stream has a publish reply for every message, rejected or not; those replies are the ones consumed, the result is the first rejection or all acks, and nothing is owed |
| `Client.Client.TransmitWindow` | sdk/go/produce.go:142-177 | the same once the window is encoded |
| `Client.Client.DrainWindow` | sdk/go/produce.go:153-177 | exactly n owed publish replies are settled in order, past every rejected slot; without a fault during the drain the client survives exactly when the stream has n publish replies to give |
| `Client.WindowSlots` | sdk/go/produce.go:119-177 | ack i of a successful window answers message i; a failed window reports the first rejected slot |
| `Client.Client.CollectWindow` | sdk/go/consume.go:188-256 | the window is consumed to its terminator even after a poison: without a fault meanwhile it succeeds exactly when a whole window within the record limit is ahead, and accumulates what its frames mean |
| `Client.Client.Absorb` | sdk/go/consume.go:195-236 | one delivery or advisory updates the accumulators as the window's meaning says |
| `Client.Client.ReadFetchResponse` | sdk/go/consume.go:168-258 | one streamed reply is consumed whole and judged: the broker's rejection, the first poison, or the contents; without a fault meanwhile the client survives exactly when a whole window is ahead, poisoned or not, and then owes nothing |
| `Client.MaxRecords` | sdk/go/consume.go:121-134 | a fetch asks for the smaller of what the caller wants and what the broker's credit allows |
| `Client.Client.Fetch` | sdk/go/consume.go:121-146 | one fetch sends Flow on a possibly named binding and the fetch verb otherwise, and returns at most the credited number of entries from its own reply; a refused fetch leaves everything as it was, and without a fault during the call the client survives exactly when a whole window is ahead, so a poisoned record never costs the connection |
| `Client.RunPairing` | sdk/go/client.go:211-336 | over every run: against any broker that answers in order with pushes anywhere, the replies the calls used are exactly the broker's replies to those calls, and none is owed |
| `Client.RunFraming` | sdk/go/client.go:238-285 | over two runs: sockets that cut the same stream differently give the same frames |
| `Client.NamedStreamUsesFlow` | sdk/go/consume.go:121-146 | over every run: a connection the broker has bound to a named stream is drained with Flow, never with the default-stream fetch verb |
| `Client.ReachBufferBound` | sdk/go/client.go:248-284 | a fresh client, driven through its own reads by a peer that sends all but the last byte of the largest frame and then more, reaches the largest frame plus its prefix plus 4095 bytes in the buffer, so the bound cannot drop the prefix |
| `Bodies.PubReads` | sdk/go/internal/wire/pubsub.go:84-179 | the broker reads back the very publish the client encoded: key, headers, payload, time, dedup block with or without sequence, ack level |
| `Bodies.NameReads` | sdk/go/internal/wire/streams.go:15-56 | a name block is read back, with what follows it, exactly when the name is within 1024 bytes |
| `Bodies.TwoFieldsRead` | sdk/go/internal/wire/streams.go:195-277 | a two-field block is read back exactly when the capped fields are within 1024 bytes |
| `Bodies.RequestReads` | sdk/go/internal/wire/streams.go:15-325 | every request the client can send is read by the broker as that request, exactly unless a name is over the decoder's cap |
| `WireLaws.BrokerReadsRequests` | sdk/go/client.go:211-229 | over every run: whatever frames the written bytes are cut into, the broker reads from them the requests the client made, in order, nothing split, merged or added |
| `WireLaws.DeliverReads` | sdk/go/internal/wire/pubsub.go:254-306 | a delivery the broker encodes is the delivery the client decodes, field by field |
| `WireLaws.DeadLetterReads` | sdk/go/internal/wire/pubsub.go:384-403 | a dead-letter advisory lands in the result as written and changes nothing else |
| `WireLaws.TruncationReads` | sdk/go/internal/wire/pubsub.go:414-433 | a truncation advisory lands in the result as written and changes nothing else |
| `WireLaws.GapReads` | sdk/go/internal/wire/pubsub.go:454-486 | a gap marker lands in the result as written and changes nothing else |
| `WireLaws.PubRepliesRead` | sdk/go/produce.go:231-255 | fresh ack, duplicate ack, redirect and rejection are told apart and read as the broker wrote them |
| `WireLaws.StreamStatusReads` | sdk/go/internal/wire/streams.go:92-127 | a stream status the broker encodes is the one the client returns |
| `WireLaws.StoredPayloadReads` | sdk/go/internal/wire/compress.go:70-102 | a stored payload, raw or compressed, is restored exactly when it is within the record cap |
| `WireLaws.PubsArrive` | sdk/go/produce.go:153-172 | publish replies the broker wrote, pushes anywhere between, are what a draining window finds ahead |
| `WireLaws.WindowArrives` | sdk/go/consume.go:168-258 | a whole window the broker wrote, pushes anywhere between, is what a fetch finds ahead, whatever its records decompress to |
| `JsonText.EscapeText` | crates/ironbus-server/src/health.rs:2639-2656 | the escaper's loop computes the escape whose every quote is backslashed and which the reader inverts |
| `JsonText.QuotesAreEscaped` | crates/ironbus-cli/src/bench.rs:1447-1464 | every quote inside escaped text follows a backslash |
| `JsonText.DecimalRoundTrip` | crates/ironbus-server/src/health.rs:2494-2541 | a rendered number has its own value when read as digits |
| `JsonText.FindKey` | crates/ironbus-cli/src/admin.rs:480-484 | the first textual `"key":` of a rendered document is where that key stands, whatever the string values before it contain |
| `JsonText.MatchGroup` | crates/ironbus-cli/src/admin.rs:345-384 | the bracket scan closes a group at its own bracket, brackets inside strings notwithstanding |
| `AdminParser.ScanString` | crates/ironbus-cli/src/admin.rs:446-476 | the index-and-output scan computes the recursive reading of a string literal |
| `AdminParser.ScanBrackets` | crates/ironbus-cli/src/admin.rs:345-384 | the depth-and-string-state scan finds the bracket that closes the outermost one |
| `AdminParser.WalkRows` | crates/ironbus-cli/src/admin.rs:220-267 | the walk yields every element of the array in order, or the first bad element's error |
| `AdminDocument.SeenIffSafe` | crates/ironbus-cli/src/admin.rs:446-476 | a name comes back unchanged exactly when it is ASCII without control characters other than newline, return and tab |
| `AdminDocument.UnescapeEscape` | crates/ironbus-cli/src/admin.rs:446-476 | reading an escaped name stops at its closing quote and gives the seen name, for every name |
| `AdminRoundTrip.FieldU64` | crates/ironbus-cli/src/admin.rs:390-397 | a numeric field of a rendered object is read back exactly |
| `AdminRoundTrip.FieldBool` | crates/ironbus-cli/src/admin.rs:402-411 | a boolean field is read back exactly |
| `AdminRoundTrip.FieldString` | crates/ironbus-cli/src/admin.rs:446-476 | a string field is read back as its seen form |
| `AdminRoundTrip.SliceLookup` | crates/ironbus-cli/src/admin.rs:345-384 | a named object or array is cut out whole and nothing more |
| `AdminRoundTrip.Slices` | crates/ironbus-server/src/health.rs:2278-2290 | the two objects and the array the client cuts out are the ones the broker rendered under those names |
| `AdminRoundTrip.RowReads` | crates/ironbus-cli/src/admin.rs:270-286 | a rendered consumer row is read back: seen name, committed offset, lag, in-flight |
| `AdminRoundTrip.RowsRead` | crates/ironbus-server/src/health.rs:2549-2567 | any list of rows is read back in order, one per group |
| `AdminRoundTrip.RoundTrip` | crates/ironbus-cli/src/admin.rs:171-215 | for every broker state and every group name, quotes, braces, backslashes and key-like text included, parsing the rendered document succeeds with exactly the broker's fields and rows |
| `AdminRoundTrip.NamesAreFaithful` | crates/ironbus-cli/src/admin.rs:220-286 | the parsed names are the broker's names exactly when every name is safe |
| `OrderStats.SortOk` | crates/ironbus-cli/src/bench.rs:1527-1547 | sorting a sample gives the same values in ascending order |
| `OrderStats.SortOfPermutation` | crates/ironbus-bench/src/regression.rs:422-437 | the sorted sample does not depend on the order of the runs |
| `OrderStats.RankByCount` | crates/ironbus-cli/src/bench.rs:1527-1547 | the k-th smallest value is at or below a threshold exactly when more than k values are |
| `Percentiles.RankIndex` | crates/ironbus-cli/src/bench.rs:1534-1542 | the nearest-rank index is in range and is ceil(p*n)-1 for every quantile in (0, 1] |
| `Percentiles.QuantileByCount` | crates/ironbus-cli/src/bench.rs:1527-1547 | a quantile is at or below a threshold exactly when ceil(p*n) samples are |
| `Percentiles.ReportOrdered` | crates/ironbus-cli/src/bench.rs:1527-1547 | p50 <= p99 <= p999 <= max, and max is the largest sample |
| `Percentiles.ReportByCount` | crates/ironbus-cli/src/bench.rs:1527-1547 | each reported percentile is at or below a time exactly when 50, 99 or 99.9 percent of the samples are, and the maximum exactly when all are |
| `Percentiles.MergedQuantile` | crates/ironbus-cli/src/bench_run.rs:1089-1103 | for every quantile, the percentile of the concatenated samples lies between the smallest and the largest percentile of the non-empty legs |
| `Gate.DistinctDevices` | crates/ironbus-bench/src/regression.rs:408-416 | the loop lists each device once, in first-seen order |
| `Gate.RunGate` | crates/ironbus-bench/src/regression.rs:271-346 | the pass over the devices computes the gate's verdict, no-baseline, insufficient-data, ratified and failing outcomes included |
| `GateLaws.EligibleRunsDecide` | crates/ironbus-bench/src/regression.rs:271-346 | the breach list and whether the gate blocks depend on the eligible runs alone |
| `GateLaws.NonInterference` | crates/ironbus-bench/src/regression.rs:271-346 | inserting an advisory or out-of-window current run and an advisory baseline run anywhere changes neither the breaches nor blocking |
| `GateLaws.CurrentNonInterference` | crates/ironbus-bench/src/regression.rs:291-295 | the same for one advisory or out-of-window current run alone |
| `GateLaws.BaselineNonInterference` | crates/ironbus-bench/src/regression.rs:310-312 | the same for one advisory baseline run alone, the first or the only one included |
| `GateLaws.DevicesAre` | crates/ironbus-bench/src/regression.rs:408-416 | the device list has no repeats and holds exactly the devices with a run |
| `GateLaws.DeviceIsolation` | crates/ironbus-bench/src/regression.rs:311-346 | the breaches about a device in the whole list are the ones its own runs give |
| `GateLaws.OtherDevicesDoNotMatter` | crates/ironbus-bench/src/regression.rs:311-346 | changing other devices' runs leaves a device's breaches as they were |
| `GateLaws.BreachesPermute` | crates/ironbus-bench/src/regression.rs:271-346 | permuting the runs changes at most the order of the breaches |
| `GateLaws.VerdictPermutes` | crates/ironbus-bench/src/regression.rs:271-346 | permuting both histories changes neither the breaches as a bag nor blocking |
| `GateLaws.MedianMajority` | crates/ironbus-bench/src/regression.rs:422-437 | a majority of values on one side of a threshold puts the median there |
| `GateLaws.MedianIsMidpoint` | crates/ironbus-bench/src/regression.rs:422-437 | the median is the midpoint of the two middle ranks, which coincide for an odd count |
| `GateLaws.MajorityDecides` | crates/ironbus-bench/src/regression.rs:350-404 | a majority of acceptable finite values keeps a metric quiet whatever the rest are; a majority of unacceptable ones fires it |
| `GateLaws.GateStaysQuiet` | crates/ironbus-bench/src/regression.rs:271-404 | on the whole gate, one bad run cannot fire it: a mostly acceptable device draws no breach of that metric |
| `GateLaws.GateFires` | crates/ironbus-bench/src/regression.rs:271-404 | one lucky run cannot hide a regression: a mostly unacceptable device fires, and an unratified gate blocks |
| `GateLaws.BreachListIsExact` | crates/ironbus-bench/src/regression.rs:311-404 | the list holds a breach if and only if the device's own runs make it one, with both medians and the exact fraction over the limit |
| `GateLaws.BlocksIffBreached` | crates/ironbus-bench/src/regression.rs:271-346 | the gate blocks exactly when it was not ratified and the eligible runs hold a breach; an empty or ineligible history never blocks |
| `GateLaws.LatencyNeedsThroughput` | crates/ironbus-bench/src/regression.rs:350-404 | a latency regression is reported exactly when both sides also have a finite throughput value |
| `GateLaws.UnreportedRegression` | crates/ironbus-bench/src/regression.rs:350-404 | a device whose p99 doubled but whose throughput was never finite passes the gate |
| `Fleet.PublishPlain` | crates/ironbus-cli/src/bench_run.rs:752-790 | a leg that is not refused attempts exactly its count under consecutive stamps, one sample per produce; a refused one stops at the refused call |
| `Fleet.PublishWindowed` | crates/ironbus-cli/src/bench_run.rs:691-745 | the same in windows, each call's time shared evenly among the messages it carried, failing exactly when one of the calls it makes is refused, at the first of them |
| `Fleet.WindowCallsRoundUp` | crates/ironbus-cli/src/bench_run.rs:691-745 | the number of calls is the count divided by the window, rounded up |
| `Fleet.AttributeWindow` | crates/ironbus-cli/src/bench_run.rs:551-563 | each covered publish gets one sample, its even share of the window's time; an empty window gets none |
| `Fleet.PublishAutoPipe` | crates/ironbus-cli/src/bench_run.rs:483-546 | every buffered publish is sampled exactly once, with its even share of the flush that covered it, whenever that came |
| `Fleet.WindowTimeConserved` | crates/ironbus-cli/src/bench_run.rs:691-745 | the windowed samples add up to the time of the calls, to within one nanosecond per message |
| `Fleet.FlushTimeConserved` | crates/ironbus-cli/src/bench_run.rs:483-563 | the auto-pipelined samples add up to the time of the flushes, to within one nanosecond per message |
| `Fleet.AutoPipeTimeConserved` | crates/ironbus-cli/src/bench_run.rs:483-563 | with the final flush, all samples of a leg add up to all the time it measured, to within one nanosecond per message |
| `Fleet.SharesConserve` | crates/ironbus-cli/src/bench_run.rs:1074-1081 | the shares add up to the requested count and are even but for the first |
| `Fleet.DistinctIffFits` | crates/ironbus-cli/src/bench_run.rs:1005-1081 | no two messages of the fleet share a sequence number exactly when one leg does all the work, or the legs fit 24 bits and every share 40 |
| `Fleet.RunLeg` | crates/ironbus-cli/src/bench_run.rs:800-832 | in each shape a leg succeeds exactly when its peer refuses none of the calls its share makes; it attempts its share, or up to and including the refused call, under consecutive stamps |
| `Fleet.RunFleet` | crates/ironbus-cli/src/bench_run.rs:1005-1072 | every leg is run, and the run succeeds exactly when no leg was refused; then the fleet attempted exactly the count, leg i under its own sequence range; on failure every leg still attempted what its own peer took |
| `Fleet.AggregateLegs` | crates/ironbus-cli/src/bench_run.rs:1089-1103 | totals and samples are all the legs', and the wall time is the tightest span that covers every leg |
| `Fleet.SamplesMatchProduced` | crates/ironbus-cli/src/bench_run.rs:1089-1103 | merging keeps the sample count equal to the produced count |
| `Fleet.AggregatedQuantile` | crates/ironbus-cli/src/bench_run.rs:1089-1103 | every percentile of the aggregated samples lies between the smallest and the largest percentile of the legs that produced any |
| `Fleet.RunPublishMulti` | crates/ironbus-cli/src/bench_run.rs:1005-1103 | the reported run: it succeeds exactly when no leg is refused, reports exactly the count with as many samples, those of its legs merged, covers every leg's time, and its sequence numbers are pairwise distinct exactly when the fleet fits |
| `Drain.RunDrain` | crates/ironbus-cli/src/bench_run.rs:1397-1493 | for every finite script of fetches the drain ends, and it succeeds exactly when every poll up to the first stop fetches and is settled; then every fetched message was acknowledged once and in order and every message that carries a send time was timed; a failed drain stopped at the first poll that did not, with exactly the leases settled by then |
| `Drain.Settle` | crates/ironbus-cli/src/bench_run.rs:1436-1466 | settlement goes through exactly when nothing the broker is asked is refused, and acknowledges in order exactly what came before a refusal |
| `Drain.DrainBothWays` | crates/ironbus-cli/src/bench_run.rs:1397-1493 | batched and per-message drains of the same fetches acknowledge the same leases in the same order and report the same counts |
| `Drain.FirstStop` | crates/ironbus-cli/src/bench_run.rs:1370-1383 | the drain's last poll is the least at which the stop rule holds, decided by the fetches alone, and comes within a grace period of the last delivery |
| `Drain.ShortStopIsDrained` | crates/ironbus-cli/src/bench_run.rs:1370-1383 | stopping short of the expected count means a hundred consecutive empty fetches |
| `Drain.DrainEnds` | crates/ironbus-cli/src/bench_run.rs:1370-1383 | the stop rule holds at the latest a grace period after the last delivery |
| `OpenLoop.WriteToken` | crates/ironbus-bench/src/harness.rs:551-554 | stamping in place writes the time and the sequence number and leaves the body's bytes |
| `OpenLoop.TokenRoundTrip` | crates/ironbus-bench/src/harness.rs:551-564 | the receiver reads back the intended time that was written, whatever the body |
| `OpenLoop.DueMonotone` | crates/ironbus-bench/src/harness.rs:460-504 | due times never go backwards, saturation included |
| `OpenLoop.Emit` | crates/ironbus-bench/src/harness.rs:464-488 | a message goes out carrying its due time and no earlier than it |
| `OpenLoop.SendLoop` | crates/ironbus-bench/src/harness.rs:433-511 | attempt k carries due time k and the count accepted before it, stalls and sheds notwithstanding; the loop stops only at the deadline or when the broker ends it; sent and bytes count accepted messages only |
| `OpenLoop.AttemptsAreExactlyTheDue` | crates/ironbus-bench/src/harness.rs:433-511 | a run the broker did not cut short makes exactly the attempts due before the deadline |
| `OpenLoop.ScheduleIndependence` | crates/ironbus-bench/src/harness.rs:433-511 | over two runs against any two brokers: what they intend to send are prefixes of one schedule, equal if neither was cut short |
| `OpenLoop.HistogramIsHonest` | crates/ironbus-bench/src/harness.rs:361-415 | every delivered message of a run is recorded at its latency from the scheduled time, which is at least its latency from the actual send |
| `OpenLoop.Consume` | crates/ironbus-bench/src/harness.rs:378-404 | a batch is recorded up to and including the first message whose acknowledgement does not go through |
| `OpenLoop.ReceiveLoop` | crates/ironbus-bench/src/harness.rs:361-415 | it goes on exactly while the connection lasts and it has not caught up: it stops at the first failed fetch or acknowledgement or at the first empty fetch with the sender done and everything produced recorded, and everything fetched before the stop is in the histogram |
| `Reload.LookupFinds` | crates/ironbus-cli/src/config_reload.rs:92-97 | a cold key has a value exactly when it is listed, and the value is a listed one |
| `Reload.NoReasonsIffUnchanged` | crates/ironbus-cli/src/config_reload.rs:185-203 | a candidate draws no reason exactly when every cold entry it lists has the current value |
| `Reload.ReasonsAreExact` | crates/ironbus-cli/src/config_reload.rs:185-203 | the reasons are exactly the changed cold entries, each with its running and its new value |
| `Reload.ConfigHandle.ReloadFrom` | crates/ironbus-cli/src/config_reload.rs:174-214 | all or nothing: the candidate is installed whole exactly when it is valid and changes no cold key it lists, otherwise the running config is unchanged and the reasons are reported |
| `Reload.SnapshotsAreSafe` | crates/ironbus-cli/src/config_reload.rs:154-214 | in every interleaving of readers and reloads, with check and swap taking the lock separately, each snapshot read is startup or one whole validated candidate and agrees with startup on every cold key it lists |
| `Reload.PassingAgrees` | crates/ironbus-cli/src/config_reload.rs:174-214 | a candidate that passed against any earlier agreeing snapshot, however stale, agrees with startup |
| `Reload.UndisturbedReload` | crates/ironbus-cli/src/config_reload.rs:174-214 | with no event in between, check and swap together are the sequential reload |
| `Reload.ColdKeptIffListed` | crates/ironbus-cli/src/config_reload.rs:185-203 | an accepted reload keeps all cold keys exactly when the candidate still lists those the running config has |
| `Reload.SnapshotColdIffListed` | crates/ironbus-cli/src/config_reload.rs:154-214 | in every interleaving, a snapshot has startup's cold keys exactly when it lists them all |
| `Reload.ColdNeverChanges` | crates/ironbus-cli/src/config_reload.rs:154-214 | if every submitted candidate lists startup's cold keys, no cold key changes in any interleaving |
| `Reload.IoModeIsNotGuarded` | crates/ironbus-cli/src/main.rs:4132-4211 | whether a file re-read is accepted does not depend on the io mode, and accepting it loses the io mode from the snapshot |
| `Reload.DroppedColdKeyStaysOut` | crates/ironbus-cli/src/config_reload.rs:185-203 | a candidate checked against a snapshot without a cold key can only pass without it |
| `Reload.DroppedColdKeyReturnsIff` | crates/ironbus-cli/src/config_reload.rs:154-214 | a cold key the running snapshot has lost can come back in some continuation exactly when a candidate that passed its check earlier, and is not yet stored, lists it |
| `Reload.DroppedColdKeyReturns` | crates/ironbus-cli/src/config_reload.rs:174-214 | it does: two reloads checked against startup and stored in the other order drop the key and bring it back |
| `Layout.Place` | packaging/grafana/dashboard_gen.py:302-319 | a panel at the packing point overlaps nothing placed before it |
| `Layout.PackRow` | packaging/grafana/dashboard_gen.py:296-320 | a row and its header extend a good grid to a good grid, at the positions greedy packing gives |
| `Layout.Build` | packaging/grafana/dashboard_gen.py:294-320 | for any rows of any sizes: the panels are those asked for, in order, at the positions greedy packing gives; no two panels or headers overlap, ids are 1 to n, and a panel stays within 24 columns exactly when it is no wider |
| `Layout.NextPanel` | packaging/grafana/dashboard_gen.py:302-319 | a panel goes right beside the last one exactly when it fits the grid there; otherwise it starts a new shelf right under the tallest panel of the last one |
| `Layout.GridFits` | packaging/grafana/dashboard_gen.py:294-320 | with widths up to 24 everything lies within the grid and no id repeats |
| `Base64.SymbolRoundTrip` | crates/ironbus-bench/src/provenance.rs:208-208 | the alphabet has 64 distinct symbols, none of them the pad |
| `Base64.PackUnpack` | crates/ironbus-bench/src/provenance.rs:211-225 | three bytes and four groups of six bits determine each other |
| `Base64.EncodeBytes` | crates/ironbus-bench/src/provenance.rs:207-229 | the chunk loop computes the encoding the round-trip lemmas are about |
| `Base64.DecodeEncode` | crates/ironbus-bench/src/provenance.rs:207-229 | for every byte sequence, the standard's decoder returns the input |
| `Base64.EncodeDecode` | crates/ironbus-bench/src/provenance.rs:207-229 | every text the decoder accepts is the encoding of its bytes, so the encoding is the canonical one |
| `Base64.EncodeInjective` | crates/ironbus-bench/src/provenance.rs:207-229 | different inputs encode differently |
| `Base64.EncodedShape` | crates/ironbus-bench/src/provenance.rs:207-229 | the length is 4*ceil(n/3) and the pad stands exactly in the last positions the standard calls for |

## Left out

- The storage engine, recovery, cluster replication, leases, deduplication and the broker itself: another project's worth of models.
- The Connect and Info bodies, the LZ4 block decoder and UTF-8 validity: parameters of `Connect` and `Client`.
- The body decoders' separate error kinds: one `BadBody` per tag stands for all ways a body can be malformed.
- Wall-clock time stamps in messages, dialing, TLS and sockets: the caller's values and arbitrary scripts stand for them.
- Concurrent use of one Go client: the SDK forbids it, so calls are modelled one after another.
- `Produce`, `Ack`, `Nack`, `Term` and `Progress` of the Go client: each only calls a modelled method with fixed arguments.
- Builds with 32-bit `int`: `MAX_INT` is the 64-bit one, and the bracket scan's depth counter does not overflow.
- Version 2 of the `/admin` document, `extract_i64` and the HTTP fetch: they would repeat the version 1 argument.
- Non-ASCII whitespace in `trim_start`: the rendered document has none, so only ASCII whitespace is skipped.
- Floating-point rounding: medians, thresholds and percentiles are over exact reals, with NaN and infinities as separate values.
- The stream and fire-and-forget publish loops, duration bounds and rate pacing: they add no new argument to the count-bounded loops.
- Threads of the publish fleet: legs share nothing, so they are run one after another; a leg that cannot connect or be spawned is not modelled.
- Drain.RunDrain: the duration bound is in `ShouldStop` only, because under it the stop depends on the clock and nothing further is promised.
- The harness's payload body fill, random draws, memory probes and histogram buckets: the body is any bytes, the draws any sequence, the histogram the sequence of recorded values.
- The coupled-set validator of a config candidate: an arbitrary function, so the reload laws hold for every validator.
- Lock poisoning: a poisoned lock is recovered with the same value, so it is the same step.
- The dashboard's panel contents and queries: only the grid is modelled.
