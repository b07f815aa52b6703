# OmegaStreamer: the RTMP receive and send path

A Dafny 4.11 model, with proofs, of the part of the server that stands between
the socket and the message handlers:

* the receive buffer (`MsgBuffer.dfy`);
* the incremental chunk parser, as a step function on values (`ChunkStep.dfy`)
  and as the class that updates its maps in place (`ChunkParse.dfy`);
* the server handshake with its digests (`Digest.dfy`, `HandShake.dfy`,
  `RtmpHandShake.dfy`), and its packets in literal bytes (`HandShakeWire.dfy`);
* the write queue of a connection (`TcpQueue.dfy`, `TcpConnection.dfy`);
* the connection context that composes them (`Server.dfy`, `RtmpContext.dfy`)
  and the encoders of control messages (`SendChunk.dfy`);
* the fan-out of a published stream with its GOP cache (`Source.dfy`,
  `MediaSource.dfy`) and the documented cut of a message into chunks
  (`RtmpConsumer.dfy`).

Each class is proved to compute a function of its old state; what matters is
then proved about those functions, over all byte streams, all schedules of a
sender, or all runs of the event loop. `ChunkWriter.dfy` is the sending side the
parser is measured against: any number of csids, messages interleaved at chunk
boundaries, every chunk in any of the four formats and with or without an
extended timestamp, Set Chunk Size anywhere and by a rule of the sender's own.
The protocol is
Adobe's RTMP Specification 1.0 (handshake in section 5.2, chunks in section 5.3,
Set Chunk Size in section 5.4.1).

`dafny verify dfyconfig.toml` checks the project.

## What the code does that one might not expect

The model follows the code in all of these, and the theorems state their exact
reach.

* A fmt-1 chunk in mid-message may set the length below what has already
  arrived. The uint32 subtraction then wraps, `std::string::append` gets a
  negative length and throws, and nothing catches it. `ThrowsExactlyWhenShrunk`,
  `ThrowsIff` and `OverrunThrows` say exactly when; fragmentation independence
  and the invariants of reachable states cover such streams too.
* The flag for extended timestamps is copied from chunk to chunk and never
  cleared, while section 5.3.1.3 of Adobe's RTMP Specification lets a fmt-3 chunk
  carry one exactly if the latest fmt 0, 1 or 2 chunk of the csid announced one. After
  one extended timestamp on a csid, a long message that needs none is misread:
  one at a small time, and one at a large time begun by a small delta.
  `AlignedIff` gives the exact condition for any sender, `ConformingAlignedIff`
  for senders that follow the specification, `TwoMessagesIff` and
  `StaleFlagMisaligns` streams of both kinds and one that is read.
* A 24-bit delta is compared with `>` against 0xFFFFFF, so the parser never
  looks for an extended timestamp in a fmt-1 or fmt-2 chunk. `DeltaChunkIff`
  says that such a chunk is taken exactly if it carries none;
  `ExtendedDeltaMisread` is a stream with a delta of 0xFFFFFF.
* A fmt-3 chunk that begins a message repeats the timestamp; section 5.3.1.2.4
  of Adobe's RTMP Specification repeats the delta. `CompressionIff` shows which
  compressed starts are understood; `SameDeltaMisread` is a pair of messages of
  which the second arrives with the time of the first.
* The version field of S1 holds the first four bytes of the key; the version
  constants declared beside the keys are not used.
* More than 2048 packets since the last keyframe leave a gap for a late joiner;
  `ContinuousIff` says when, `LongGopGap` is a run with 2048 and one with 2049.

## Model

| member | source | states |
|---|---|---|
| Resume.FragmentationIndependence | src/media/rtmp/RtmpChunkParse.cpp:25-43 | For every byte stream and every way of cutting it into reads: same messages in the same order, same history, messages in progress, chunk size and unread bytes, and the same exception, as one Parse over the whole stream |
| Resume.Restart | src/media/rtmp/RtmpChunkParse.cpp:64-230 | Every "need more data" exit is restartable: retrying on a longer buffer from the state it left gives what a first attempt on that buffer gives, although history and message in progress were already touched |
| Resume.Settled | src/media/rtmp/RtmpChunkParse.cpp:225-258 | An attempt that took its chunk, or threw, did not depend on the bytes behind the chunk |
| Resume.AttemptOk | src/media/rtmp/RtmpChunkParse.cpp:202-256 | One attempt keeps the reassembly invariant unless it throws, and delivers at most one message, exactly as long as announced |
| Reassembly.ReachableReceiver | src/media/rtmp/RtmpChunkParse.cpp:25-43 | After any reads: chunk size in 1..65535, every message in progress fresh or strictly short of its length <= 0xFFFFFF, every delivered message exactly full, at most 17 + chunk size bytes unread, and a retry without new bytes changes nothing |
| Reassembly.ThrowsExactlyWhenShrunk | src/media/rtmp/RtmpChunkParse.cpp:225-234 | An attempt throws if and only if it meets a fmt-1 chunk in mid-message whose length is below what has arrived |
| Reassembly.ThrowsIff | src/media/rtmp/RtmpChunkParse.cpp:214-234 | A stream makes the parser throw if and only if at some chunk boundary it shrinks an open message |
| Reassembly.OverrunThrows | src/media/rtmp/RtmpChunkParse.cpp:214-234 | A concrete 148-byte stream that throws |
| ChunkStep.AttemptProgress | src/media/rtmp/RtmpChunkParse.cpp:27-41 | A successful attempt consumes at least one byte and no more than there are, which makes Parse terminate |
| RoundTrip.InterleavedRoundTrip | src/media/rtmp/RtmpChunkParse.cpp:57-259 | Any schedule of messages in which each chunk carries an extended timestamp exactly if the parser looks for one, interleaved over any csids, with chunks of all four formats at the start of a message, on a csid used for the first time, and within a message, with abandoned messages and Set Chunk Size in between, in any cutting into reads: exactly the finished messages are delivered, in order of last chunk, with payload, length, type, stream id, csid and timestamp intact, nothing is left, and the chunk size is the one the sender's own Set Chunk Size rule gives |
| RoundTrip.ChunkBack | src/media/rtmp/RtmpChunkParse.cpp:100-256 | One chunk of a sender is consumed exactly, delivered if it is the last of its message, and keeps parser and sender in step on every csid |
| RoundTrip.CompressionIff | src/media/rtmp/RtmpChunkParse.cpp:96-192 | A chunk header is read back as its message's if and only if the fields it leaves out are those of the message before, or of an empty one at time 0 on a csid not used before (delta below 2^24 for fmt 1 and 2; same timestamp, or an extended one sent along, for fmt 3) |
| RoundTrip.LongFormAgrees | src/media/rtmp/RtmpChunkParse.cpp:277-306 | For csids 64..319 the parser does the same with a chunk whose basic header has two bytes and with one whose has three, in every state and whatever follows |
| Alignment.AlignedIff | src/media/rtmp/RtmpChunkParse.cpp:151-183 | For every schedule, each chunk with or without an extended timestamp: the parser takes exactly one chunk of the sender after the other if and only if each chunk carries one exactly when the parser looks for it (fmt 0: when the field announces it; fmt 1 and 2: never; fmt 3: when some earlier fmt-0 chunk of the csid carried one) |
| Alignment.TakesChunkIff | src/media/rtmp/RtmpChunkParse.cpp:151-183 | The same for a single chunk in any state in which sender and parser are in step |
| Alignment.DeltaChunkIff | src/media/rtmp/RtmpChunkParse.cpp:160-169 | A fmt-1 or fmt-2 chunk, at the start of a message or within it, is taken exactly if it carries no extended timestamp |
| Alignment.ConformingAlignedIff | src/media/rtmp/RtmpChunkParse.cpp:151-183 | For every schedule of a sender that follows section 5.3.1.3: the parser stays aligned if and only if no delta reaches 0xFFFFFF and, at every fmt-3 chunk, the latest fmt 0, 1 or 2 chunk of the csid carried an extended timestamp exactly when some earlier fmt-0 chunk did |
| Alignment.RecordsAreHistory | src/media/rtmp/RtmpChunkParse.cpp:96-98 | The two records of the sender these conditions speak of are what the schedule says: an earlier fmt-0 chunk with an extended timestamp, and the latest fmt 0, 1 or 2 chunk |
| Alignment.TwoMessagesIff | src/media/rtmp/RtmpChunkParse.cpp:96-183 | A conforming sender's message and then a long one, begun in full or by a small delta: taken chunk by chunk if and only if the first time is below 0xFFFFFF |
| Alignment.StaleFlagMisaligns | src/media/rtmp/RtmpChunkParse.cpp:96-98 | Three concrete conforming streams on one csid: after an extended timestamp, a long message at time 0 and a long message 40 ms later are not taken chunk by chunk; one that a small delta carries past 0xFFFFFF is |
| Misreadings.ExtendedDeltaMisread | src/media/rtmp/RtmpChunkParse.cpp:160-169 | A concrete stream with a delta of 0xFFFFFF and its extended timestamp, whose message arrives with a byte of the timestamp as its payload |
| Misreadings.SameDeltaMisread | src/media/rtmp/RtmpChunkParse.cpp:138-142 | A concrete pair of messages, the second begun by fmt 3, that both arrive at the time of the first |
| ChunkRuns.StreamIsChunks | src/media/rtmp/RtmpChunkParse.cpp:25-43 | Every byte stream is a run of whole chunks and a rest that is no whole chunk; parsing it is parsing the rest in the state, and behind the messages, that the chunks leave |
| ChunkRuns.Demultiplex | src/media/rtmp/RtmpChunkParse.cpp:85-255 | At a fixed chunk size, a csid's messages, history header and partial payload after any interleaved run are those its own chunks give alone |
| ChunkRuns.DemultiplexStream | src/media/rtmp/RtmpChunkParse.cpp:85-255 | The same for any byte stream, its incomplete last chunk and the exception included: a parser of its own, fed the bytes of one csid, delivers that csid's messages and ends knowing about the csid what the stream's parser knows |
| ChunkRuns.TimestampAccumulates | src/media/rtmp/RtmpChunkParse.cpp:96-142 | On a csid without extended timestamps a message carries the last fmt-0 time plus all fmt-1 and fmt-2 deltas since, modulo 2^32; fmt-3 chunks and other csids do not matter |
| ChunkSizes.ChunkSizeIsAnnounced | src/media/rtmp/RtmpContext.cpp:113-155 | After any reads of any bytes the chunk size is that announced by the last delivered message of type 1 whose first four bytes, without the top bit, lie in 1..65535, and 128 if there was none; no other message changes it |
| ChunkSizes.AttemptChunkSize | src/media/rtmp/RtmpContext.cpp:590-604 | One attempt on any bytes changes the chunk size only by delivering such a message, and to its size |
| ChunkParse.RtmpChunkParse.ParseBasicHeader | src/media/rtmp/RtmpChunkParse.cpp:277-306 | Succeeds exactly if the bytes suffice, with format, csid and length as specified |
| ChunkParse.RtmpChunkParse.ReadHeader | src/media/rtmp/RtmpChunkParse.cpp:64-192 | Reads the header as far as the bytes allow and leaves in the history map exactly the entry the source leaves |
| ChunkParse.RtmpChunkParse.ParseOneChunk | src/media/rtmp/RtmpChunkParse.cpp:57-259 | The in-place method changes maps, buffer and chunk size, and calls the callback, exactly as the specified attempt does, on all of its exits |
| ChunkParse.RtmpChunkParse.Parse | src/media/rtmp/RtmpChunkParse.cpp:25-43 | The loop terminates and leaves parser, buffer and deliveries as specified |
| ChunkParse.RtmpChunkParse.HandleSetChunkSize | src/media/rtmp/RtmpContext.cpp:590-604 | Takes sizes 1..65535 after masking the top bit, ignores short payloads and other sizes |
| Bytes.ByteOrder | src/media/base/BytesWriter.h:11-33 | Which of the three codecs stores which byte where, against one another and on 0x01020304 |
| Bytes.WriteUint24BE | src/media/base/BytesWriter.h:15-17 | Stores the field in place and leaves every other byte alone |
| MsgBuffers.MsgBuffer.EnsureWritableBytes | src/network/base/MsgBuffer.h:50-58 | Offers the room through compaction and growth and keeps the readable bytes |
| MsgBuffers.MsgBuffer.Append | src/network/base/MsgBuffer.h:41-45 | The readable bytes grow by exactly the data; in every state what was appended is what was retrieved followed by what is readable |
| MsgBuffers.MsgBuffer.Retrieve | src/network/base/MsgBuffer.h:23-27 | Takes exactly the first n readable bytes |
| MsgBuffers.MsgBuffer.HasWritten | src/network/base/MsgBuffer.h:39 | The bytes stored behind the tail become readable, in order |
| TcpQueue.WriteFifo | src/network/net/TcpConnection.cpp:38-96 | In every run, whatever the write-complete callback sends: sends = completed writes followed by the queue; at most one write is in flight, that of the front; while open, "queue not empty", "writing" and "write in flight" coincide; an open idle connection has written everything |
| TcpQueue.ClosedStartsNothing | src/network/net/TcpConnection.cpp:77-95 | In every run from a closed connection, whatever is sent: only the write under way can still complete, and none is started |
| TcpQueue.WriteDoneOk | src/network/net/TcpConnection.cpp:83-95 | A completion moves exactly the front to the wire or closes; the callback fires only on a drained, idle queue |
| TcpConnections.TcpConnection.Send | src/network/net/TcpConnection.cpp:38-46 | Queues the buffer and starts a write only if the queue was empty and none was under way |
| TcpConnections.TcpConnection.OnWriteDone | src/network/net/TcpConnection.cpp:83-95 | The completion handler takes the specified step and reports whether the callback is due |
| HandShakeDigest.DigestRoundTrip | src/media/rtmp/RtmpHandShake.cpp:48-150 | For every keyed hash and all random bytes, the other role accepts a signed packet and finds the digest where it was put, for both schemes (for the second, unless the first verifies) |
| HandShakeDigest.SpliceSeen | src/media/rtmp/RtmpHandShake.cpp:105-122 | Writing the digest disturbs neither the offset bytes nor what the digest was computed from |
| HandShakeDigest.AnswerSigned | src/media/rtmp/RtmpHandShake.cpp:157-176 | C2 or S2 starts with the time, most significant byte first, echoes the other side's version bytes, goes on with the random bytes, and is signed with a key derived from the digest found in the packet it answers |
| HandShakeWire.CheckMeans | src/media/rtmp/RtmpHandShake.cpp:48-150 | For all bytes, with positions, lengths and names as literals: refused if and only if the length is not 1537 or the version not 3; simple if the version field is zero; else the place of the peer's signature, looked for where the sum of bytes 9..12, then of bytes 773..776, modulo 728 puts it; simple if it is in neither |
| HandShakeWire.CreatedMeans | src/media/rtmp/RtmpHandShake.cpp:96-124 | What is sent as C0C1 or S0S1, in literals: version 3, time zero, the first letters of the key, random bytes, and in the first place the 32-byte hash of all the others under the role's name |
| HandShakeWire.AnswerMeans | src/media/rtmp/RtmpHandShake.cpp:157-176 | What is sent as C2 or S2, in literals: the time, the version answered, random bytes, and the hash of the first 1504 bytes keyed by the hash of the peer's digest under the whole key |
| HandShakeWire.TailWords | src/media/rtmp/RtmpHandShake.cpp:33-45 | The 32 bytes behind the name in both whole keys |
| HandShakeWire.ServerAnswers | src/media/rtmp/RtmpHandShake.cpp:188-210 | 1537 bytes with version 3 are taken and S0S1 is sent; the S2 kept for later holds the clock's time and the client's version and is signed if and only if the client's signature was found; another version is refused |
| RtmpHandShakes.RtmpHandShake.CreateC1S1 | src/media/rtmp/RtmpHandShake.cpp:96-124 | Fills the buffer in place with the specified packet in both modes |
| RtmpHandShakes.RtmpHandShake.CheckC1S1 | src/media/rtmp/RtmpHandShake.cpp:126-150 | Result and mode flag for refused, simple and both complex cases |
| RtmpHandShakes.RtmpHandShake.CreateC2S2 | src/media/rtmp/RtmpHandShake.cpp:157-176 | Fills the answer in place as specified in both modes |
| RtmpHandShakes.RtmpHandShake.HandShake | src/media/rtmp/RtmpHandShake.cpp:188-266 | Result, bytes retrieved, new state and what is sent, in every server state |
| RtmpHandShakes.RtmpHandShake.WriteComplete | src/media/rtmp/RtmpHandShake.cpp:268-279 | Next state and what is sent, in every server state |
| Server.RunOk | src/media/rtmp/RtmpContext.cpp:39-108 | In every run, for all read sizes, completion timings, errors and replies: queue, wire, handshake state, receive buffer and parser stand to each other as the invariant says |
| Server.PhaseSplit | src/media/rtmp/RtmpContext.cpp:39-65 | The handshake takes exactly the first 1537 + 1536 bytes, the parser has been fed exactly the rest, and two finished runs over the same bytes agree in parser state and deliveries however the bytes were cut and writes timed |
| Server.HandshakeFirst | src/media/rtmp/RtmpHandShake.cpp:188-279 | While open, PostS0S1 means just S0S1 is being written, PostS2 means S0S1 is written and S2 is under way, WaitC2 means both are on the wire; nothing else is sent before C2 has come in, and then the three control messages follow |
| Server.RefusalIff | src/media/rtmp/RtmpHandShake.cpp:194-208 | Once 1537 bytes are in, the server still waits for C0C1 if and only if its check refuses them, and then the connection has been closed |
| Server.C2Accepted | src/media/rtmp/RtmpHandShake.cpp:211-227 | Every C2 is accepted: from any reachable connection that waits for it, a read ends in Done if and only if 1537 + 1536 bytes have come in with it, and no such read closes the connection |
| Server.ClosedIff | src/network/net/TcpConnection.cpp:59-95 | In every run a connection is closed if and only if a read or a write has failed or the first 1537 bytes were refused |
| Server.ClientAccepts | src/media/rtmp/RtmpHandShake.cpp:126-181 | In every run the first packet on the wire passes a client's digest check, and the second is signed for the digest of the C1 that was read, if it had one |
| Server.EndToEnd | src/media/rtmp/RtmpContext.cpp:39-108 | A server that finished the handshake and read an interleaved chunk stream behind it has delivered exactly the finished messages and holds no unread byte |
| RtmpContexts.RtmpContext.OnRead | src/network/net/TcpConnection.cpp:59-75 | The read handler, with buffer, handshake and parser updated in place, takes the specified step |
| RtmpContexts.RtmpContext.OnMessage | src/media/rtmp/RtmpContext.cpp:39-65 | The phase switch, in place, as specified |
| RtmpContexts.RtmpContext.OnWriteDone | src/media/rtmp/RtmpContext.cpp:67-69 | A write completion and its callback take the specified step |
| RtmpContexts.RtmpContext.OnHandShakeDone | src/media/rtmp/RtmpContext.cpp:93-108 | Queues the three control messages in order and sets the outgoing chunk size |
| RtmpContexts.RtmpContext.SendOneChunk | src/media/rtmp/RtmpContext.cpp:667-695 | Sends one buffer: the 12-byte header built in place, then the data |
| RtmpContexts.RtmpContext.SendUserControlStreamBegin | src/media/rtmp/RtmpContext.cpp:751-760 | Sends the event type and the stream id as one control packet |
| SendChunk.PacketArrivesIff | src/media/rtmp/RtmpContext.cpp:667-695 | For any well-formed parser and csids 2..63, a packet of sendChunk arrives as its message with nothing left over if and only if its data fits the parser's chunk size |
| SendChunk.ChunkSizeAnnounced | src/media/rtmp/RtmpContext.cpp:590-633 | An announced chunk size, top bit masked, is taken over if it lies in 1..65535 and ignored otherwise |
| SendChunk.PacketsParseBack | src/media/rtmp/RtmpContext.cpp:627-695 | Any sequence of packets that fit parses back to exactly its messages with no byte left, in any cutting, with chunk sizes changing on the way |
| SendChunk.GreetingSetsChunkSize | src/media/rtmp/RtmpContext.cpp:93-108 | A peer with chunk size 128 that reads the three control messages, in any cutting, is delivered exactly those and ends with 4096, the server's outgoing chunk size |
| RtmpConsumers.CutSize | src/media/rtmp/RtmpConsumer.cpp:67-90 | The documented cut of a non-empty message has ceil(len / chunk size) chunks and 12 + len + (chunks - 1) bytes, and is a schedule that finishes just that message |
| RtmpConsumers.CutArrives | src/media/rtmp/RtmpConsumer.cpp:67-80 | A parser in step with the sender delivers a cut message whole |
| RtmpConsumers.SendMessageRoom | src/media/rtmp/RtmpConsumer.cpp:82-91 | The reserved room is one byte more than the cut; nothing is reserved for an empty message |
| Source.GopCacheRefinesHistory | src/media/base/MediaSource.cpp:43-72 | In every run the cache is the first 2048 packets since the last keyframe, or since the beginning; after a keyframe its head is the latest one |
| Source.HeadersAfter | src/media/base/MediaSource.cpp:24-39 | In every run the stored metadata and headers are the last ones published of each kind |
| Source.EveryConsumer | src/media/base/MediaSource.cpp:24-152 | In every run, with any joins and leaves by anyone, a consumer has received exactly what the events owe it: at each join the last metadata, video header and audio header and the first 2048 packets since the last keyframe, and each later packet once for each place it has on the list |
| Source.LateJoiner | src/media/base/MediaSource.cpp:88-152 | In every run a consumer gets the last published headers, the cached packets and everything published while it is on the list, and nothing after its removal |
| Source.ContinuousIff | src/media/base/MediaSource.cpp:46-72 | In every run, a joiner receives the last published headers and then the unbroken stream from the last keyframe until its removal if and only if at most 2048 packets had been published since that keyframe when it joined |
| Source.LongGopGap | src/media/base/MediaSource.cpp:46-72 | Two concrete runs: who joins 2048 packets after a keyframe receives the unbroken stream, who joins after 2049 does not |
| Source.RunReceived | src/media/base/MediaSource.cpp:117-122 | From any state: while on the list once a consumer receives exactly what is published, in order; off the list, nothing; other consumers coming and going do not matter |
| MediaSources.MediaSource.OnVideo | src/media/base/MediaSource.cpp:63-82 | Cache and all consumers change as specified, consumers named twice included |
| MediaSources.MediaSource.DispatchPacket | src/media/base/MediaSource.cpp:117-122 | The loop gives the packet to every consumer once for each place on the list |
| MediaSources.MediaSource.AddConsumer | src/media/base/MediaSource.cpp:88-156 | The joiner alone receives headers and cache, in order, and is put at the end of the list |
| MediaSources.MediaSource.RemoveConsumer | src/media/base/MediaSource.cpp:98-106 | Takes out the first place of the consumer, if there is one |

## Left out

- Messages in progress are values in a map, not shared heap objects; the callback gets the value and the source's object is not touched again after it.
- Byte counts are unbounded: buffers of 2^31 bytes and more, where the casts to `int` matter, are not modelled.
- After the exception out of the parser the connection takes no more steps; what the rest of the process does is not modelled.
- Demultiplex: states the fixed chunk size as a hypothesis, since the chunk size is shared by all csids.
- The writer uses the shortest basic header for each csid; that csids 64..319 read the same in the three-byte form is `RoundTrip.LongFormAgrees`.
- SendMessageRoom: the body of `sendMessage` stops after reserving, so the layout of the cut is taken from its comment, for one-byte csids and timestamps below 0xFFFFFF.
- AMF0 and the commands (connect, createStream, publish, play): `AMF/AMF0.h` is not part of this model; their replies are arbitrary buffers, sent in steps of their own once the handshake is done.
- The keyed hash is any function to 32 bytes; random bytes and the clock are arguments.
- The client path of the handshake: the server never constructs a client.
- Handshake progress: C2 bytes that arrive before S2 is written wait for the next read; only safety and byte accounting are proved.
- Asynchronous operations are steps on one loop thread; threads, timers and sockets are not modelled, and `AddConsumer` is one step.
- Logging, counters, the audio and video tag bytes, `RtmpConsumer::OnPacket`'s choice of csids, `MediaSourceMgr` and the wiring of `m_media_source` would only add easy members.
