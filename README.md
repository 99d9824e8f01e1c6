# Non-blocking TLV server and client — a Dafny model

The system is a request/response protocol over TCP built on Java NIO. It has three parts:

- A server with a single selector thread (`Server`).
- A multi-reactor server, whose acceptor hands each new connection round-robin to one of several worker threads (`Acceptor`, `WorkerReactor`).
- An asynchronous client (`NioClient`).

Every message is one TLV frame:

- Byte 0 holds the message type in its low seven bits. Bit 7 is the keep-alive flag.
- Bytes 1-4 hold the length of the body as a big-endian Java `int`.
- The body follows.

Per-connection state is kept in a context object attached to the connection's selection key:

- `ServerClientContext` on the server. It fills a five-byte header buffer over as many reads as it takes, then allocates a body buffer of the decoded length. Once the body is full, the handler for the type, or the error handler, answers it. The answer is written back and the context is either reset for the next frame (keep-alive) or closed.
- `NioClientContext` on the client. It writes the request, reads the response frame the same way, and completes the request's future. A keep-alive request may reuse the client's one shared channel.

A benchmark harness drives the system. It:

- parses command-line options (`parseArgs`, `parseUnsignedInt`);
- writes one CSV row per worker with the client's counters (`taskStatsToCsv`).

The model is organised as follows:

- **Values** are Dafny values:
  - bytes are `Byte`, the integers 0 to 255;
  - Java `int` arithmetic is written out with its wrap-around (`JavaInts.WrapInt`);
  - frames are `seq<Byte>`.
- **JDK NIO objects** the code updates in place are modelled in module `Nio` as classes: `ByteBuffer`, `SocketChannel` and `SelectionKey`. They are the JDK's, not the repository's, so they carry no row in the table.
  - `SocketChannel` holds the bytes that have arrived, whether the peer has shut down, a write window and whether the connection is reset, in which case a write throws `IOException`.
  - These stand for the network. A call to `read` or `write` takes what they say.
- **The contexts, `Server`, `WorkerReactor`, `Acceptor` and `NioClient`** are classes with the source's fields. Their methods have `modifies` clauses.
- **Each class method** is proved against a value-level function. `Reactor.ReadEvent`/`WriteEvent` specify the servers' handlers; `Client.ResponseEvent`/`RequestEvent`/`ConnectEvent` specify the client's.
- **The properties** — partial delivery, keep-alive reuse, the stall on an empty body, the counters — are proved as lemmas about those functions.
- **Corrected events.** `Reactor.ReadEventCorrected` and `Client.ResponseEventCorrected` test for a full body before returning on an empty read. The properties that fail for an empty body as written are proved about them (see "## Findings").

## Model

| member | source | states |
|---|---|---|
| JavaBytes.Signed | server/src/main/java/se/edinjakupovic/ServerConstants.java:10-11 | a Java `byte` is its two's-complement value, in -128..127, so the mask constants written as `(byte) 0x80` and `(byte) 0x7f` are -128 and 127 |
| JavaBytes.Low8 | server/src/main/java/se/edinjakupovic/utils/PayloadUtils.java:26-29 | the narrowing cast `(byte) x` keeps the low eight bits, the remainder of `x` modulo 256 |
| JavaBytes.SignedLow8 | server/src/main/java/se/edinjakupovic/utils/PayloadUtils.java:16 | narrowing a byte's signed value gives the byte back; widening a value in -128..127 gives the value back |
| JavaBytes.IntBytes | server/src/main/java/se/edinjakupovic/utils/PayloadUtils.java:26-29 | `putInt` writes four bytes (their content is pinned down by `GetIntOfIntBytes` and `IntBytesOfGetInt`) |
| JavaBytes.GetInt | server/src/main/java/se/edinjakupovic/ServerClientContext.java:50-60 | `getInt` on four bytes is a Java `int`, negative exactly when the first byte has its top bit set |
| JavaBytes.GetIntOfIntBytes | server/src/main/java/se/edinjakupovic/ServerClientContext.java:50-60 | `getInt` reads back exactly the `int` that the four length bytes encode |
| JavaBytes.IntBytesOfGetInt | server/src/main/java/se/edinjakupovic/ServerClientContext.java:50-60 | every four bytes are the encoding of the `int` `getInt` reads, so the length field is a bijection |
| JavaBytes.Zeros | server/src/main/java/se/edinjakupovic/utils/PayloadUtils.java:23 | a freshly allocated buffer holds `n` zero bytes |
| ByteBits.ByteRoundTrip | server/src/main/java/se/edinjakupovic/ServerConstants.java:10-11 | a byte value survives the conversion to eight bits and back, the bridge the mask lemmas use |
| JavaInts.WrapInt | client/src/main/java/se/edinjakupovic/NioClient.java:43-48 | the result of `int` arithmetic is the mathematical result reduced modulo 2^32 into the `int` range, and is unchanged when it already fits |
| JavaInts.WrapIncrement | server/src/main/java/se/edinjakupovic/multi_reactor/Acceptor.java:59-61 | wrapping after each of two increments is wrapping once at the end, so the counter after `k` calls is `k` wrapped |
| JavaInts.WrapUnsigned | analysis/src/main/java/se/edinjakupovic/Common.java:243 | an unsigned value below 2^32 is itself up to `Integer.MAX_VALUE` and 2^32 less from 2^31 on |
| JavaInts.JavaRem | server/src/main/java/se/edinjakupovic/multi_reactor/Acceptor.java:60 | Java's `%` truncates toward zero: on a non-negative dividend it is the mathematical remainder, on a negative one it lies in `-n+1..0` |
| JavaInts.FloorMod | server/src/main/java/se/edinjakupovic/multi_reactor/Acceptor.java:60 | `Math.floorMod` lies in `0..n-1` for every dividend and agrees with `%` on non-negative ones |
| ServerConstants.SplitTypeByte | server/src/main/java/se/edinjakupovic/ServerConstants.java:8-11 | the type split off byte 0 is never above `ERROR_TYPE` (127) |
| ServerConstants.SplitIsMasking | server/src/main/java/se/edinjakupovic/ServerConstants.java:10-11 | the split is exactly `b & TLV_TYPE_MASK` and `b & KEEP_ALIVE_BIT`; the type never carries the flag bit |
| ServerConstants.TypeMaskIsLowBits | server/src/main/java/se/edinjakupovic/ServerConstants.java:11 | `b & 0x7f` on a byte is its remainder modulo 128 |
| ServerConstants.TypeMaskKeepsLowHalf | server/src/main/java/se/edinjakupovic/ServerConstants.java:11 | the type mask leaves a value below 128 as it is |
| ServerConstants.TypeMaskClearsHighBit | server/src/main/java/se/edinjakupovic/ServerConstants.java:11 | the type mask takes 128 off a value of the upper half |
| ServerConstants.FlagBitIsHighHalf | server/src/main/java/se/edinjakupovic/ServerConstants.java:10 | `b & KEEP_ALIVE_BIT` is non-zero exactly for the bytes 128..255 |
| ServerConstants.FlagBitClearBelowHalf | server/src/main/java/se/edinjakupovic/ServerConstants.java:10 | a masked type never has the flag bit |
| ServerConstants.SetFlagBitAdds | server/src/main/java/se/edinjakupovic/utils/PayloadUtils.java:18-21 | `t \| 0x80` on a type below 128 adds 128 |
| ServerConstants.MasksPartitionTheByte | server/src/main/java/se/edinjakupovic/ServerConstants.java:10-11 | the two masks share no bit and together cover all eight |
| PayloadUtils.IsKeepAliveTestsFlagBit | server/src/main/java/se/edinjakupovic/utils/PayloadUtils.java:36-38 | `isKeepAlive` holds exactly for bytes with bit 7 set, and agrees with the flag the header decoder splits off |
| PayloadUtils.TypeByte | server/src/main/java/se/edinjakupovic/utils/PayloadUtils.java:18-21 | byte 0 carries the low seven bits of the type and has bit 7 set exactly when keep-alive is requested |
| PayloadUtils.TypeByteOf | server/src/main/java/se/edinjakupovic/utils/PayloadUtils.java:18-21 | the mask-then-or computation gives `TypeByte(type, keepAlive)` |
| PayloadUtils.EncodeFrame | server/src/main/java/se/edinjakupovic/utils/PayloadUtils.java:14-34 | the frame the wire format defines: length `5 + \|body\|`, byte 0 the type byte, bytes 1-4 the length as an `int`, then the body |
| PayloadUtils.PayloadBytes | server/src/main/java/se/edinjakupovic/utils/PayloadUtils.java:14-34 | as written: a body below 128 bytes gives `EncodeFrame`; from 128 on, the `(byte)` cast of the length makes `payload` throw |
| PayloadUtils.Payload | server/src/main/java/se/edinjakupovic/utils/PayloadUtils.java:14-34 | allocate, put, flip: the returned buffer holds `PayloadBytes` between position 0 and the limit, or the exception it names |
| PayloadUtils.PayloadNoKeepAlive | server/src/main/java/se/edinjakupovic/utils/PayloadUtils.java:10-12 | the two-argument overload is the three-argument one with keep-alive clear |
| PayloadUtils.PayloadFlagAndType | server/src/main/java/se/edinjakupovic/utils/PayloadUtils.java:14-38 | every frame `payload` encodes reports its own keep-alive flag through `isKeepAlive`, and its type bits are the requested type's |
| PayloadUtils.PayloadRejects128ByteBody | server/src/main/java/se/edinjakupovic/utils/PayloadUtils.java:16-23 | a 128-byte body is rejected although the wire format can carry it, and every shorter body is encoded |
| Nio.ReadIntoSplitsInbox | server/src/main/java/se/edinjakupovic/Server.java:97 | a non-blocking read loses and reorders nothing: what the buffer took, followed by what is left in the socket, is what had arrived |
| ServerContext.DecodeHeader | server/src/main/java/se/edinjakupovic/ServerClientContext.java:50-60 | the decoded type is at most 127, the flag is bit 7 of byte 0 and the length is bytes 1-4 as a signed big-endian `int` |
| ServerContext.DecodeHeaderMasks | server/src/main/java/se/edinjakupovic/ServerClientContext.java:52-54 | the decoded type and flag are byte 0 under `TLV_TYPE_MASK` and `KEEP_ALIVE_BIT` |
| ServerContext.DecodeEncodedHeader | server/src/main/java/se/edinjakupovic/ServerClientContext.java:50-60 | the header of every encoded frame decodes to the masked type, the requested flag and the body length |
| ServerContext.EncodeDecodedHeader | server/src/main/java/se/edinjakupovic/ServerClientContext.java:50-60 | conversely, every header with a non-negative length is the encoder's header for what it decodes to |
| ServerContext.ErrorFrameDecodes | server/src/main/java/se/edinjakupovic/ServerConstants.java:8-9 | `ERROR_TYPE_BASE` is the encoder's frame for type `ERROR_TYPE` with no keep-alive and no body, and decodes as such |
| ServerContext.NewConn | server/src/main/java/se/edinjakupovic/ServerClientContext.java:24-27 | a new context is reading a header, with an empty five-byte header buffer |
| ServerContext.SetResponseSpec | server/src/main/java/se/edinjakupovic/ServerClientContext.java:29-33 | the response is stored, the status becomes `WRITING_RESPONSE`, the response length is what remains of it, and no other field changes |
| ServerContext.ResetSpec | server/src/main/java/se/edinjakupovic/ServerClientContext.java:62-71 | after a reset the context is a new context around the cleared header buffer |
| ServerContext.FlipKeepsInv | server/src/main/java/se/edinjakupovic/ServerClientContext.java:50-60 | decoding a full header keeps `Inv`, under which a context in the body phase has a body buffer sized by the decoded length |
| ServerContext.HeaderReadKeepsInv | server/src/main/java/se/edinjakupovic/ServerClientContext.java:35-48 | a header read, with the decode of a full header, keeps `Inv` |
| ServerContext.ServerClientContext.constructor | server/src/main/java/se/edinjakupovic/ServerClientContext.java:24-27 | the new object's value is `NewConn()` |
| ServerContext.ServerClientContext.SetResponse | server/src/main/java/se/edinjakupovic/ServerClientContext.java:29-33 | the new value is `SetResponseSpec` of the old one |
| ServerContext.ServerClientContext.ReadHeader | server/src/main/java/se/edinjakupovic/ServerClientContext.java:35-48 | returns the count and leaves the context and the channel as `ReadHeaderSpec` says, throwing on a negative length |
| ServerContext.ServerClientContext.FlipToReadingBody | server/src/main/java/se/edinjakupovic/ServerClientContext.java:50-60 | the new value is `FlipSpec` of the old one; `ok` is false exactly when the length is negative |
| ServerContext.ServerClientContext.ResetCtx | server/src/main/java/se/edinjakupovic/ServerClientContext.java:62-71 | the new value is `ResetSpec` of the old one |
| Reactor.WorkerRoute | server/src/main/java/se/edinjakupovic/multi_reactor/WorkerReactor.java:122-128 | `getOrDefault` picks the same handler as the single server's null test: the registered one, or the error handler |
| Reactor.ReadEventKeepsInv | server/src/main/java/se/edinjakupovic/Server.java:81-116 | every read event keeps `Inv` |
| Reactor.ReadEventPhase | server/src/main/java/se/edinjakupovic/Server.java:96-107 | a read event leaves the connection writing a response exactly when it dispatched a request |
| Reactor.HeaderReadNeverWrites | server/src/main/java/se/edinjakupovic/ServerClientContext.java:35-48 | a header read never starts writing a response |
| Reactor.BodyBranchPhase | server/src/main/java/se/edinjakupovic/Server.java:96-108 | the body branch dispatches exactly when it leaves the connection writing |
| Reactor.WriteEventPhase | server/src/main/java/se/edinjakupovic/Server.java:57-79 | the connection keeps writing until the response is drained; a drained keep-alive connection waits for the next header |
| Reactor.HeaderEventCases | server/src/main/java/se/edinjakupovic/Server.java:86-96 | a header-phase event runs the body branch, on what the header read left, exactly when the header completed with a non-negative length |
| Reactor.ReadBodyKeepsInv | server/src/main/java/se/edinjakupovic/Server.java:96-108 | the body branch keeps `Inv` |
| Reactor.WriteEventKeepsInv | server/src/main/java/se/edinjakupovic/Server.java:57-79 | a write event keeps `Inv` |
| Reactor.NoBytesNoChange | server/src/main/java/se/edinjakupovic/Server.java:86-103 | a read that moves no bytes changes nothing and dispatches nothing; end of stream closes without touching the context |
| Reactor.HeaderChunk | server/src/main/java/se/edinjakupovic/ServerClientContext.java:35-48 | a chunk inside the header is stored after the bytes already received |
| Reactor.HeaderCompletes | server/src/main/java/se/edinjakupovic/ServerClientContext.java:35-60 | the chunk that completes the header decodes the frame's type, flag and length and leaves the rest for the body |
| Reactor.BodyChunk | server/src/main/java/se/edinjakupovic/Server.java:96-107 | a chunk inside the body is stored after the body bytes already received; the one that fills the body dispatches the request |
| Reactor.CrossingChunk | server/src/main/java/se/edinjakupovic/Server.java:86-107 | a chunk that completes the header is read on into the body in the same event |
| Reactor.ReceiveChunk | server/src/main/java/se/edinjakupovic/Server.java:81-108 | any chunk of a frame is consumed whole: before the last byte the connection is still receiving, and with it the request goes to the handler its masked type selects |
| Reactor.Feed | server/src/main/java/se/edinjakupovic/Server.java:81-116 | a run of read events yields one outcome per chunk |
| Reactor.DeliverRest | server/src/main/java/se/edinjakupovic/Server.java:81-108 | from any point of a frame, the rest in any non-empty chunks is dispatched exactly once, on the event with its last byte, and every earlier event only waits; the events as written need a body of one byte or more, the corrected ones do not |
| Reactor.DeliverFrame | server/src/main/java/se/edinjakupovic/Server.java:81-108 | partial delivery: a whole frame in any non-empty chunks, on a new or reset connection, is dispatched exactly once at its last chunk |
| Reactor.EmptyBodyStalls | server/src/main/java/se/edinjakupovic/Server.java:96-103 | a body of length 0 is never dispatched: every read of it returns 0 and the event returns before the completeness test, even at end of stream |
| Reactor.EmptyBodyStallsForever | server/src/main/java/se/edinjakupovic/Server.java:96-103 | any run of read events on such a connection only waits and leaves it as it is |
| Reactor.EmptyFrameIsNotDispatched | server/src/main/java/se/edinjakupovic/Server.java:86-103 | a frame with an empty body completes its header and then stays in the body phase with nothing to read |
| Reactor.WriteProgress | server/src/main/java/se/edinjakupovic/Server.java:57-78 | a write sends the next bytes of the response, as many as the window takes, and drains it exactly when the window covers what remains |
| Reactor.WriteOnBrokenChannel | server/src/main/java/se/edinjakupovic/Server.java:61-65 | a broken connection takes nothing, changes nothing and is closed |
| Reactor.KeepAliveServesNext | server/src/main/java/se/edinjakupovic/Server.java:66-71 | once a keep-alive response is drained, the context is reset in place and the next frame is served on it as on a new connection |
| Reactor.DrainWithoutKeepAlive | server/src/main/java/se/edinjakupovic/Server.java:72-74 | without keep-alive a drained response leaves the context as it is, and the channel is closed |
| Reactor.CorrectionDispatchesStalled | server/src/main/java/se/edinjakupovic/Server.java:96-107 | the correction changes one case only: where an event as written waits on a body buffer with nothing remaining, the corrected event dispatches the body to the routed handler; on every other input the two agree |
| Reactor.EmptyBodyBufferDispatches | server/src/main/java/se/edinjakupovic/Server.java:96-107 | the corrected body branch dispatches an empty body at once, reading nothing |
| Reactor.CorrectedHeaderThenBody | server/src/main/java/se/edinjakupovic/Server.java:86-107 | a header read that completes with a non-negative length goes on to the corrected body branch in the same event |
| Reactor.EmptyBodyDispatched | server/src/main/java/se/edinjakupovic/Server.java:86-107 | under the corrected events, the chunk that completes the header of an empty-body frame dispatches it at once |
| Reactor.ReceiveChunkCorrected | server/src/main/java/se/edinjakupovic/Server.java:81-108 | under the corrected events any chunk of a frame, the empty body included, is consumed whole: the connection waits before the last byte and dispatches with it |
| Reactor.DeliverFrameCorrected | server/src/main/java/se/edinjakupovic/Server.java:81-108 | partial delivery under the corrected events: a whole frame with any body, the empty one included, in any non-empty chunks, is dispatched exactly once at its last chunk |
| SingleReactor.Server.constructor | server/src/main/java/se/edinjakupovic/Server.java:18-22 | the server keeps the configuration's handlers, error handler and header size |
| SingleReactor.Server.Accept | server/src/main/java/se/edinjakupovic/Server.java:128-135 | `null` does nothing; a client is registered for reads with a new context |
| SingleReactor.Server.CloseChannel | server/src/main/java/se/edinjakupovic/Server.java:137-147 | the key is cancelled and the channel closed; nothing else changes |
| SingleReactor.Server.ProcessMessage | server/src/main/java/se/edinjakupovic/Server.java:118-126 | the context becomes `Dispatch` with the routed handler and the key asks for writes |
| SingleReactor.Server.OnSelected | server/src/main/java/se/edinjakupovic/Server.java:35-48 | an invalid key is closed; a readable key follows `ReadEvent`, a writable one `WriteEvent`; a failed write is closed by the `IOException` handler; the `CancelledKeyException` after a close escapes |
| SingleReactor.Server.Read | server/src/main/java/se/edinjakupovic/Server.java:81-116 | the context, the channel and the key end as `ReadEvent` says; end of stream and a negative length close the channel |
| SingleReactor.Server.ReadFromHeader | server/src/main/java/se/edinjakupovic/Server.java:86-108 | a header-phase event follows `ReadEvent` |
| SingleReactor.Server.ReadHeaderBranch | server/src/main/java/se/edinjakupovic/Server.java:86-94 | the header branch follows `ReadHeaderSpec`, closing on -1 and on the negative-length exception |
| SingleReactor.Server.ReadBodyBranch | server/src/main/java/se/edinjakupovic/Server.java:96-108 | the body branch follows `BodyBranch` |
| SingleReactor.Server.Write | server/src/main/java/se/edinjakupovic/Server.java:57-79 | the context and channel end as `WriteEvent` says; a drained response resets a keep-alive connection for reads and closes any other; a write that throws `IOException` on a reset connection changes nothing |
| MultiReactor.WorkerReactor.constructor | server/src/main/java/se/edinjakupovic/multi_reactor/WorkerReactor.java:27-32 | a worker starts with an empty hand-off queue and the configuration's handlers |
| MultiReactor.WorkerReactor.RegisterNewClient | server/src/main/java/se/edinjakupovic/multi_reactor/WorkerReactor.java:34-37 | the client joins the back of the queue |
| MultiReactor.WorkerReactor.RegisterPendingClients | server/src/main/java/se/edinjakupovic/multi_reactor/WorkerReactor.java:67-75 | the queue is emptied and each client, in order, is registered for reads with a new context |
| MultiReactor.WorkerReactor.CloseChannel | server/src/main/java/se/edinjakupovic/multi_reactor/WorkerReactor.java:130-137 | the key is cancelled and the channel closed |
| MultiReactor.WorkerReactor.ProcessMessage | server/src/main/java/se/edinjakupovic/multi_reactor/WorkerReactor.java:122-128 | the context becomes `Dispatch` with `WorkerRoute` and the key asks for writes |
| MultiReactor.WorkerReactor.OnSelected | server/src/main/java/se/edinjakupovic/multi_reactor/WorkerReactor.java:47-60 | an invalid key is skipped; readable and writable keys follow `ReadEvent` and `WriteEvent`; a failed write is closed by the `IOException` handler; a negative length and a cancelled key escape the loop |
| MultiReactor.WorkerReactor.HandleRead | server/src/main/java/se/edinjakupovic/multi_reactor/WorkerReactor.java:77-101 | the event follows `ReadEvent`; end of stream closes, while a negative length leaves the channel open |
| MultiReactor.WorkerReactor.ReadFromHeader | server/src/main/java/se/edinjakupovic/multi_reactor/WorkerReactor.java:81-100 | a header-phase event follows `ReadEvent` |
| MultiReactor.WorkerReactor.ReadHeaderBranch | server/src/main/java/se/edinjakupovic/multi_reactor/WorkerReactor.java:81-88 | the header branch follows `ReadHeaderSpec`; -1 closes |
| MultiReactor.WorkerReactor.ReadBodyBranch | server/src/main/java/se/edinjakupovic/multi_reactor/WorkerReactor.java:90-100 | the body branch follows `BodyBranch` |
| MultiReactor.WorkerReactor.HandleWrite | server/src/main/java/se/edinjakupovic/multi_reactor/WorkerReactor.java:103-120 | the event follows `WriteEvent`; a drained response resets a keep-alive connection and closes any other; a write that throws `IOException` on a reset connection changes nothing |
| MultiReactor.Acceptor.constructor | server/src/main/java/se/edinjakupovic/multi_reactor/Acceptor.java:15-24 | the counter starts at 0 |
| MultiReactor.Acceptor.NextWorker | server/src/main/java/se/edinjakupovic/multi_reactor/Acceptor.java:59-61 | call `k` reads the counter, advances it with wrap-around and picks `Pick(N, counter)` |
| MultiReactor.Acceptor.Accept | server/src/main/java/se/edinjakupovic/multi_reactor/Acceptor.java:45-57 | a client joins the back of the next worker's queue and of no other worker's; `null` changes nothing |
| RoundRobin.Pick | server/src/main/java/se/edinjakupovic/multi_reactor/Acceptor.java:59-61 | as written: the slot is the Java remainder, `None` for no workers or a negative remainder |
| RoundRobin.FloorPick | server/src/main/java/se/edinjakupovic/multi_reactor/Acceptor.java:59-61 | with `floorMod`: a slot below `N` for every counter value, equal to `Pick` on non-negative counters |
| RoundRobin.PickAt | server/src/main/java/se/edinjakupovic/multi_reactor/Acceptor.java:59-61 | call `k` sees the counter value `k`, wrapped |
| RoundRobin.RoundRobinOrder | server/src/main/java/se/edinjakupovic/multi_reactor/Acceptor.java:59-61 | until the counter overflows, call `k` goes to worker `k mod N` |
| RoundRobin.Balanced | server/src/main/java/se/edinjakupovic/multi_reactor/Acceptor.java:45-61 | before overflow, worker `w` gets `calls / N` of the first `calls` clients, plus one when `w < calls mod N` |
| RoundRobin.NoWorkerTakesAll | server/src/main/java/se/edinjakupovic/multi_reactor/Acceptor.java:45-61 | every share is the floor or the ceiling of `calls / N`; with two or more workers and more clients than workers, every worker has some and none has all |
| RoundRobin.CounterOverflowBreaksPick | server/src/main/java/se/edinjakupovic/multi_reactor/Acceptor.java:59-61 | with three workers, call 2^31 meets `Integer.MIN_VALUE`, whose remainder is -2, so `nextWorker` throws where `floorMod` picks worker 1 |
| ClientContext.Settle | client/src/main/java/se/edinjakupovic/NioClientContext.java:59-65 | a pending future takes the outcome; a completed one keeps its own |
| ClientContext.SettleOnce | client/src/main/java/se/edinjakupovic/NioClientContext.java:59-65 | the first settlement wins, and every later `onSuccess` or `onError` is ignored |
| ClientContext.DecodeResponseHeader | client/src/main/java/se/edinjakupovic/NioClientContext.java:51-57 | the client's type is byte 0 as a signed Java `byte`, unmasked, and the length is bytes 1-4 as an `int` |
| ClientContext.ClientAndServerDecoders | client/src/main/java/se/edinjakupovic/NioClientContext.java:51-57 | on the same bytes the client and server decoders agree on the length; the client's type is the server's with the keep-alive flag left in as the sign |
| ClientContext.ClientDecodesEncodedHeader | client/src/main/java/se/edinjakupovic/NioClientContext.java:51-57 | an encoded frame's header decodes on the client to the body length and a type whose sign is the flag and whose low bits are the requested type's |
| ClientContext.ClientHeaderReadKeepsInv | client/src/main/java/se/edinjakupovic/NioClientContext.java:36-57 | a header read keeps `ClientInv` and moves to the body phase exactly when the header is complete with a non-negative length |
| ClientContext.NioClientContext.constructor | client/src/main/java/se/edinjakupovic/NioClientContext.java:22-34 | a new request is connecting with a pending future, an empty five-byte header buffer and its request length |
| ClientContext.NioClientContext.OnSuccess | client/src/main/java/se/edinjakupovic/NioClientContext.java:59-61 | the future becomes `Settle(old, Succeeded)` and nothing else changes |
| ClientContext.NioClientContext.OnError | client/src/main/java/se/edinjakupovic/NioClientContext.java:63-65 | the future becomes `Settle(old, Failed)` and nothing else changes |
| ClientContext.NioClientContext.ReadHeader | client/src/main/java/se/edinjakupovic/NioClientContext.java:36-49 | the read follows `ClientReadHeaderSpec`; end of stream closes the channel and cancels the key |
| ClientContext.NioClientContext.FlipToReadingBody | client/src/main/java/se/edinjakupovic/NioClientContext.java:51-57 | the new value is `ClientFlipSpec` of the old one |
| Client.ResponseEventKeepsInv | client/src/main/java/se/edinjakupovic/NioClient.java:165-200 | a readable event keeps `ClientInv`; the future is completed exactly when the event ends `Completed` and failed exactly when it ends `Closed` |
| Client.ResponseBodyKeepsInv | client/src/main/java/se/edinjakupovic/NioClient.java:179-199 | the body branch keeps `ClientInv` and the body phase, and settles the future in the same way |
| Client.RequestEventSends | client/src/main/java/se/edinjakupovic/NioClient.java:125-140 | a write sends the request bytes in order from where the last write stopped, as many as the window takes, ends `Sent` exactly when none remain, and then waits for the header |
| Client.RequestEventOnBrokenChannel | client/src/main/java/se/edinjakupovic/NioClient.java:100-105 | on a reset connection `write` throws before sending anything, and the callback's `IOException` handler fails the request |
| Client.ConnectEventPhase | client/src/main/java/se/edinjakupovic/NioClient.java:142-163 | a connect event keeps `ClientInv`; only an established connection moves to `WRITING`, and only a refused one fails the future |
| Client.FrameHeaderRead | client/src/main/java/se/edinjakupovic/NioClientContext.java:36-57 | reading a response frame into an empty header takes five bytes, decodes the body length, allocates the body and leaves the rest in the socket |
| Client.WholeResponseCompletes | client/src/main/java/se/edinjakupovic/NioClient.java:165-199 | a response with a body that arrives whole completes a pending request, with the body in the body buffer and what follows left in the socket |
| Client.EmptyResponseStalls | client/src/main/java/se/edinjakupovic/NioClient.java:179-186 | a response with an empty body leaves the request in the body phase with nothing remaining and its future pending |
| Client.EmptyBodyWaitsForever | client/src/main/java/se/edinjakupovic/NioClient.java:179-186 | from there every readable event, even at end of stream, reads 0 and changes nothing |
| Client.ResponseCorrectionCompletesStalled | client/src/main/java/se/edinjakupovic/NioClient.java:179-198 | the correction changes one case only: where a readable event as written waits on a body buffer with nothing remaining, the corrected event completes the future; on every other input the two agree |
| Client.WholeResponseCompletesCorrected | client/src/main/java/se/edinjakupovic/NioClient.java:165-198 | under the corrected readable event a whole response completes a pending request for every body, the empty one included, with the body in the buffer and what follows left in the socket |
| Client.KeepAliveCount | client/src/main/java/se/edinjakupovic/NioClient.java:57 | the number of requests that ask for keep-alive, at most all of them; `ReusesAreKeepAlive` and `LiveSlotServesEveryKeepAlive` compare the reuses with it |
| Client.LastKeepAlive | client/src/main/java/se/edinjakupovic/NioClient.java:77-80 | the index of the last keep-alive request among the first `n`, or -1; the request at that index asks for keep-alive |
| Client.NothingKeptAliveAfterLast | client/src/main/java/se/edinjakupovic/NioClient.java:77-80 | no request after the last keep-alive one asks for keep-alive |
| Client.ReuseCount | client/src/main/java/se/edinjakupovic/NioClient.java:57-66 | how many of the first `n` requests reuse the shared channel, never more than `n` |
| Client.ReusesAreKeepAlive | client/src/main/java/se/edinjakupovic/NioClient.java:57-66 | only keep-alive requests reuse, so the reuses never outnumber them; there is a last keep-alive request exactly when some request asks for keep-alive |
| Client.LiveSlotServesEveryKeepAlive | client/src/main/java/se/edinjakupovic/NioClient.java:57-66 | from a live shared slot the slot stays live and every keep-alive request reuses its channel |
| Client.PendingConnectsAreNotReused | client/src/main/java/se/edinjakupovic/NioClient.java:57-75 | from a dead slot, when no connection is made at once, the slot stays dead and no request reuses a channel |
| Client.ReplayChannels | client/src/main/java/se/edinjakupovic/NioClient.java:65-75 | registering the requests adds exactly the channels registered on to the selector |
| Client.LastRegistrationWins | client/src/main/java/se/edinjakupovic/NioClient.java:65-75 | a channel ends with the key state of the last request registered on it |
| Client.UnusedChannelKeepsState | client/src/main/java/se/edinjakupovic/NioClient.java:65-75 | a channel no request was registered on keeps its interest set, attachment and validity |
| Client.NioClient.constructor | client/src/main/java/se/edinjakupovic/NioClient.java:26-43 | no shared channel, an empty queue, the counters and the request count at 0 |
| Client.NioClient.SendRPC | client/src/main/java/se/edinjakupovic/NioClient.java:45-51 | the keep-alive flag is bit 7 of byte 0; the count is incremented with wrap-around; the request joins the back of the queue unless it is full (1024) |
| Client.NioClient.CloseChannel | client/src/main/java/se/edinjakupovic/NioClient.java:202-216 | the key is cancelled, the channel closed, the shared slot emptied if it held the channel, and `channelsClosed` incremented |
| Client.NioClient.RegisterRequest | client/src/main/java/se/edinjakupovic/NioClient.java:56-81 | reuse happens exactly when the request is keep-alive and the shared channel is set, connected and valid; `Registers` gives the new counters, slot, keys and key states: the key, valid and with the request attached, asks for writes when reused or connected at once and for the connection otherwise; every other key keeps its interest and attachment |
| Client.NioClient.ReuseChannel | client/src/main/java/se/edinjakupovic/NioClient.java:63-66 | the shared channel's key is registered again for writes with the request attached and becomes the shared key; the request and the reuse are counted; no other key changes |
| Client.NioClient.OpenChannel | client/src/main/java/se/edinjakupovic/NioClient.java:67-80 | a new channel, new to the selector, is registered for writes if it connected at once and for the connection otherwise; the request and the channel are counted; a keep-alive request takes the shared slot, any other leaves it |
| Client.NioClient.NewChannel | client/src/main/java/se/edinjakupovic/NioClient.java:70-75 | a new open channel, connected exactly when `connect` succeeds at once, and a new valid key with the request attached, asking for writes when connected and for the connection otherwise |
| Client.NioClient.AddKey | client/src/main/java/se/edinjakupovic/NioClient.java:74-75 | the new key joins the selector, and the selector's key states gain its state |
| Client.NioClient.Poll | client/src/main/java/se/edinjakupovic/NioClient.java:54 | the request at the head of the queue, removed from it; nothing else changes |
| Client.NioClient.Advance | client/src/main/java/se/edinjakupovic/NioClient.java:55-82 | registering the next request extends the batch's progress by one: counters by `ReuseCount`, the slot by `SlotLiveAfter` and `LastKeepAlive`, key states by `Replay`, and the channel is the right one by `PlacedAt` |
| Client.NioClient.RegisterNext | client/src/main/java/se/edinjakupovic/NioClient.java:55-82 | one turn of the loop polls the next request and registers it, extending the progress by one channel |
| Client.NioClient.RegisterQueued | client/src/main/java/se/edinjakupovic/NioClient.java:55-83 | the loop empties the queue and registers every request, in queue order, on the channels it returns |
| Client.NioClient.RegisterRPCRequests | client/src/main/java/se/edinjakupovic/NioClient.java:53-84 | the queue is emptied and every request registered in order on `chans`: a request reuses exactly as `ReusesAt` says, on the channel the last keep-alive request before it left in the slot, and otherwise gets a new channel; the counters move by the exact `ReuseCount`; the key states are `Replay` of the registrations, so untouched keys keep theirs; the slot ends with the last keep-alive request's channel and key |
| Client.NioClient.HandleConnect | client/src/main/java/se/edinjakupovic/NioClient.java:142-163 | the context follows `ConnectEvent`; a refusal counts an error and closes, and an established connection counts and asks for writes |
| Client.NioClient.FailRequest | client/src/main/java/se/edinjakupovic/NioClient.java:172-175 | the future fails and the channel is closed |
| Client.NioClient.ConnectionRefused | client/src/main/java/se/edinjakupovic/NioClient.java:151-156 | a connection error is counted, the future fails and the channel is closed |
| Client.NioClient.HandleWrite | client/src/main/java/se/edinjakupovic/NioClient.java:125-140 | the context follows `RequestEvent`; the `IOException` of a reset connection leaves the method with nothing changed (`WriteFailed`), and a request sent in full asks for reads |
| Client.NioClient.SendRequest | client/src/main/java/se/edinjakupovic/NioClient.java:130 | the request's position moves past what the channel took, and those bytes are sent in order; on a reset connection `write` throws `IOException` (`None`) and nothing moves |
| Client.NioClient.HandleRead | client/src/main/java/se/edinjakupovic/NioClient.java:165-200 | the context follows `ResponseEvent`, and the counters follow `ReadCounters` |
| Client.NioClient.ReadFromHeader | client/src/main/java/se/edinjakupovic/NioClient.java:170-199 | a header-phase event follows `ResponseEvent` |
| Client.NioClient.ReadHeaderBranch | client/src/main/java/se/edinjakupovic/NioClient.java:170-178 | the header branch follows `ClientReadHeaderSpec`; -1 fails the request and closes |
| Client.NioClient.ReadResponseHeader | client/src/main/java/se/edinjakupovic/NioClient.java:171 | the context's header read within the client keeps `Valid()` |
| Client.NioClient.ReadBodyBranch | client/src/main/java/se/edinjakupovic/NioClient.java:179-199 | the body branch follows `ResponseBodyBranch` |
| Client.NioClient.ReadBody | client/src/main/java/se/edinjakupovic/NioClient.java:180-199 | a body-phase event follows `ResponseBody` |
| Client.NioClient.ReceiveBody | client/src/main/java/se/edinjakupovic/NioClient.java:180 | the body read follows `ReadInto` |
| Client.NioClient.ResponseCompleted | client/src/main/java/se/edinjakupovic/NioClient.java:187-198 | the future completes and `requestCompleted` is counted; a keep-alive channel becomes the shared key, registered for reads; any other is closed |
| Client.NioClient.OnSelected | client/src/main/java/se/edinjakupovic/NioClient.java:90-113 | an invalid key is closed; each readiness goes to its handler; a failed write is failed and closed once by the `IOException` handler; after a refused connection the `CancelledKeyException` handler fails and closes again |
| Client.NioClient.OnConnectable | client/src/main/java/se/edinjakupovic/NioClient.java:97-112 | the counters follow `ConnectCounters`, which counts the double close after a refusal |
| Client.NioClient.OnWritable | client/src/main/java/se/edinjakupovic/NioClient.java:98-105 | the counters follow `WriteCounters`: after a failed write the `IOException` handler fails the request and closes the channel once, and `isReadable()` is not reached |
| Text.DropSpaces | analysis/src/main/java/se/edinjakupovic/Common.java:222 | dropping leading whitespace never lengthens the text |
| Text.DropSpacesSplits | analysis/src/main/java/se/edinjakupovic/Common.java:222 | what is dropped is a run of whitespace, and what is kept is a suffix that does not start with whitespace |
| Text.UnderscoredHasNoSpaces | analysis/src/main/java/se/edinjakupovic/Common.java:222 | `replaceAll("\\s+", "_")` leaves no whitespace and never lengthens the text |
| Text.UnderscoredKeepsPlainText | analysis/src/main/java/se/edinjakupovic/Common.java:222 | text without whitespace is left as it is |
| Text.DropSpacesOfRun | analysis/src/main/java/se/edinjakupovic/Common.java:222 | a whole run of whitespace is dropped up to the next other character |
| Text.RunBecomesOneUnderscore | analysis/src/main/java/se/edinjakupovic/Common.java:222 | a maximal run of whitespace becomes exactly one underscore |
| Text.DropSpacesAppend | analysis/src/main/java/se/edinjakupovic/Common.java:222 | dropping leading whitespace commutes with appending once the text has another character |
| Text.UnderscoredAppend | analysis/src/main/java/se/edinjakupovic/Common.java:222 | the replacement works run by run: text not ending in whitespace is rewritten separately from what follows |
| Text.UnderscoredAppendRun | analysis/src/main/java/se/edinjakupovic/Common.java:222 | the same for text that starts with a run of whitespace |
| Text.DropSpacesKeepsLast | analysis/src/main/java/se/edinjakupovic/Common.java:222 | text ending in a character other than whitespace keeps that end |
| Text.Join | analysis/src/main/java/se/edinjakupovic/Common.java:113-127 | the parts in order with one separator between each two, so at least `k - 1` characters; `SplitJoin` is the property that pins it down |
| Text.Split | analysis/src/main/java/se/edinjakupovic/Common.java:131-138 | the fields between separators, empty ones included, always at least one; the inverse of `Join` by `SplitJoin` |
| Text.SplitAppendField | analysis/src/main/java/se/edinjakupovic/Common.java:113-127 | text without the separator extends the last field |
| Text.SplitAppendSeparated | analysis/src/main/java/se/edinjakupovic/Common.java:113-127 | a separator followed by text without it opens one more field |
| Text.SplitJoin | analysis/src/main/java/se/edinjakupovic/Common.java:113-127 | splitting a join on a separator no part contains gives the parts back |
| Decimal.Digits | analysis/src/main/java/se/edinjakupovic/Common.java:126 | the digits of `n` are non-empty, denote `n` and have no leading zero |
| Decimal.DecimalStringChars | analysis/src/main/java/se/edinjakupovic/Common.java:126 | `String.valueOf` of a number is a minus sign and digits only |
| Decimal.DecimalRoundTrip | analysis/src/main/java/se/edinjakupovic/Common.java:126 | every number's decimal text reads back as that number |
| Decimal.ParseUnsignedInt | analysis/src/main/java/se/edinjakupovic/Common.java:243 | `Integer.parseUnsignedInt` yields an `int` whenever it succeeds |
| Decimal.ParseUnsignedIntDigits | analysis/src/main/java/se/edinjakupovic/Common.java:243 | the digits of a value below 2^32, with or without `+`, parse to its 32 bits; the digits of a larger value are refused |
| Decimal.ParseUnsignedIntRejects | analysis/src/main/java/se/edinjakupovic/Common.java:243 | empty text, a lone `+`, a leading sign other than `+`, and any later non-digit are refused |
| Decimal.ParseUnsignedIntValue | analysis/src/main/java/se/edinjakupovic/Common.java:243-247 | a non-negative result is the value of the digits themselves |
| BenchmarkArgs.OptionOf | analysis/src/main/java/se/edinjakupovic/Common.java:212-227 | an argument is recognised by the first option prefix it starts with; the stand-alone harness knows four options, the simulation six |
| BenchmarkArgs.ParseCount | analysis/src/main/java/se/edinjakupovic/Common.java:240-251 | a count succeeds only in `0..Integer.MAX_VALUE`; a failure is either "not a number" or "negative" |
| BenchmarkArgs.ParseArgs | analysis/src/main/java/se/edinjakupovic/Common.java:204-238 | the loop over the arguments returns `ParseArgsSpec`, the fold of the options followed by the final checks |
| BenchmarkArgs.FoldFailurePersists | analysis/src/main/java/se/edinjakupovic/Common.java:212-228 | the first error ends the loop, and later arguments are not looked at |
| BenchmarkArgs.UnknownArgumentRejected | analysis/src/main/java/se/edinjakupovic/Common.java:225-227 | any unknown argument makes `parseArgs` fail, naming that argument when nothing failed before it |
| BenchmarkArgs.StandaloneLacksClientsAndStrategy | analysis/src/main/java/se/edinjakupovic/Main.java:250-262 | `--clients=` and `--strategy=` are unknown to the stand-alone benchmark and known to the simulation runner |
| BenchmarkArgs.FoldBounds | analysis/src/main/java/se/edinjakupovic/Common.java:212-228 | after the loop every count lies in `0..Integer.MAX_VALUE` and the name has no whitespace; the stand-alone harness keeps the default clients and strategy |
| BenchmarkArgs.ParsedSettings | analysis/src/main/java/se/edinjakupovic/Common.java:230-237 | accepted settings have positive workers and payloads, counts within an `int`, and the strategy "single" or "multi" |
| BenchmarkArgs.ParseArgsAccepts | analysis/src/main/java/se/edinjakupovic/Common.java:230-237 | after the loop, `parseArgs` succeeds exactly when workers and payloads are positive and, for the simulation runner, the strategy is valid |
| BenchmarkArgs.LastOptionWins | analysis/src/main/java/se/edinjakupovic/Common.java:212-228 | a repeated option keeps its last value |
| BenchmarkArgs.CountRoundTrip | analysis/src/main/java/se/edinjakupovic/Common.java:240-251 | an option followed by the digits of `n` reads as `n` up to `Integer.MAX_VALUE`, is refused as negative up to 2^32 - 1, and as not a number from 2^32 on |
| BenchmarkArgs.NameOption | analysis/src/main/java/se/edinjakupovic/Common.java:221-222 | `--name=` takes the rest of the argument with its whitespace runs turned into single underscores |
| BenchmarkCsv.Fields | analysis/src/main/java/se/edinjakupovic/Common.java:112-128 | a row has one value per column, in the header's order |
| BenchmarkCsv.Texts | analysis/src/main/java/se/edinjakupovic/Common.java:126 | one text per value |
| BenchmarkCsv.Rows | analysis/src/main/java/se/edinjakupovic/Common.java:134-136 | one row per element |
| BenchmarkCsv.TaskStatsToCsv | analysis/src/main/java/se/edinjakupovic/Common.java:131-138 | the `StringBuilder` loop builds `CsvText(stats)`, the header and then one line per element |
| BenchmarkCsv.JoinExcludes | analysis/src/main/java/se/edinjakupovic/Common.java:126 | a join of parts without a character, on another separator, lacks that character |
| BenchmarkCsv.DecimalStringIsPlain | analysis/src/main/java/se/edinjakupovic/Common.java:126 | a value's text has neither a comma nor a newline |
| BenchmarkCsv.RowIsOneLine | analysis/src/main/java/se/edinjakupovic/Common.java:112-128 | a row has no newline |
| BenchmarkCsv.ColumnsArePlain | analysis/src/main/java/se/edinjakupovic/Common.java:133 | no column name has a comma or a newline |
| BenchmarkCsv.HeaderColumns | analysis/src/main/java/se/edinjakupovic/Common.java:133 | the header has no newline, and its comma-separated fields are the thirteen column names |
| BenchmarkCsv.OneLine | analysis/src/main/java/se/edinjakupovic/Common.java:135 | appending a line and a newline adds the line to the last field and opens an empty one |
| BenchmarkCsv.RowFields | analysis/src/main/java/se/edinjakupovic/Common.java:112-128 | a row splits into thirteen fields, each reading back as its column's value |
| BenchmarkCsv.LinesSplit | analysis/src/main/java/se/edinjakupovic/Common.java:131-138 | lines without newlines split back into the header, the rows and an empty last field |
| BenchmarkCsv.CsvLines | analysis/src/main/java/se/edinjakupovic/Common.java:131-138 | the report's lines are the header and then one row per element, in order |

## Left out

- Selector loops, threads and timing are out of scope: `select`/`selectNow`, `wakeup`, `configureBlocking`, socket options, `start`/`stop`/`shutdown` of the servers, and the thread pools of the harness. Each selected key is modelled as one call of `OnSelected`, and its ready set is its interest set.
- The network is the `SocketChannel` model's arrived bytes, end-of-stream flag, write window and broken flag. Real I/O, and any `IOException` that a call the model treats as total can throw, are out of scope. The negative-length `IllegalArgumentException` and `CancelledKeyException` are modelled.
- Durations are out of scope: `requestDurationMs`, `connectDurationMs`, `elapsed()` and the start time of a request. The CSV row carries the two durations as plain values.
- The client id (a random UUID fragment) is not modelled. Neither is the logging (`print`, `printD`, `log`).
- Client.NioClient.OnSelected: the `String` reason passed to `onError` is not modelled. Nor is the `Long` value a future completes with, so a future is only `Pending`, `Succeeded` or `Failed`.
- Client counters are unbounded naturals. Their `int` overflow after 2^31 events is not modelled. The request count (`AtomicInteger count`) does wrap.
- ServerContext.ServerClientContext.constructor: requires a header size of 5. `flipToReadingBody` always reads five header bytes, and every configuration in the repository uses 5.
- SingleReactor.Server.CloseChannel: the `key == null` guard is not modelled, because every caller passes the selected key. The same holds for `NioClient.CloseChannel`. `WorkerReactor.closeChannel` has no such guard.
- Handlers are total functions from body bytes to response bytes, and each dispatch gets a fresh response buffer. The shared `ERROR_TYPE_BASE` buffer is therefore not aliased between connections. In the source, a handler returning it would leave its position drained for the next connection.
- Client.NioClient.RegisterRequest: reusing the shared channel while an earlier keep-alive request on it is still in flight replaces the key's attachment, as `register` does. The earlier request is then never completed; the model keeps that behaviour but proves nothing about the lost request.
- Decimal.ParseUnsignedInt: accepts ASCII digits only. `Integer.parseUnsignedInt` also accepts other Unicode decimal digits.
- PayloadUtils.Payload: takes the body's bytes. The UTF-8 encoding of the `String` body (`getBytes(UTF_8)`) is not modelled.
- BenchmarkCsv.HEADER is built by joining the thirteen column names with commas. The source writes the same text as one literal.
- `measureNioClientReuse`, `runWarmup`, `printStats`, `saveStats` and the `main` methods of the harness are out of scope: they do file I/O, time and thread orchestration. `MultiReactorServer` and `ServerConfig` are not part of this model beyond the configuration values the constructors take. `SimpleClient` is not part of this model.
- Whether `channel.connect(address)` completes at once depends on the network. It is a parameter, `immediate`, one value per queued request. The connection's later outcome is the `ConnectResult` given to `OnSelected`.
- Cancelled keys stay in the selector's key map: deregistration at the next select is not modelled.
- The `wrote < 0` test of `handleWrite` (NioClient.java:131-135) and the `write < 0` tests of the servers (Server.java:62-65, WorkerReactor.java:108-111) are never true, because `SocketChannel.write` does not return a negative count. A reset connection is modelled as the `IOException` it throws instead.

## Findings

| source | as written | input that shows it | evidently intended | confidence | as-written member | corrected member |
|---|---|---|---|---|---|---|
| server/src/main/java/se/edinjakupovic/utils/PayloadUtils.java:16 | the body length is narrowed with `(byte)` before it sizes the buffer and fills the four-byte length field | a body of 128 bytes: the length becomes -128, so `allocate(5 - 128)` throws `IllegalArgumentException` | the length field holds the full `int` length, as the decoders read it | high (not executed) | PayloadUtils.PayloadRejects128ByteBody | PayloadUtils.EncodeFrame |
| server/src/main/java/se/edinjakupovic/multi_reactor/Acceptor.java:60 | `index.getAndIncrement() % workers.length` on a counter that wraps to `Integer.MIN_VALUE` | with three workers, after 2^31 accepted clients the counter is -2^31, whose remainder is -2, so the array index throws `ArrayIndexOutOfBoundsException` | `Math.floorMod`, which keeps the round-robin going for every counter value | high (not executed) | RoundRobin.CounterOverflowBreaksPick | RoundRobin.FloorPick |
| server/src/main/java/se/edinjakupovic/Server.java:103 | in the body branch, `if (read == 0) return;` comes before the `hasRemaining()` test (likewise WorkerReactor.java:96) | a frame with an empty body, such as the error frame of type 127: the body buffer has nothing remaining, every read of it returns 0, and the request is never dispatched, even at end of stream | test for a full body before returning on an empty read, so an empty body is dispatched at once | high (not executed) | Reactor.EmptyBodyStallsForever | Reactor.DeliverFrameCorrected |
| client/src/main/java/se/edinjakupovic/NioClient.java:186 | in the body branch, `if (read == 0) return;` comes before the `hasRemaining()` test | a response with an empty body, such as the server's error frame: the request stays reading its body and its future is never completed | test for a full body before returning on an empty read, so an empty response completes its request | high (not executed) | Client.EmptyBodyWaitsForever | Client.WholeResponseCompletesCorrected |
