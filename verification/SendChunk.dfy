/**
 The packets of `RtmpContext::sendChunk` and the control messages built on it,
 and what a peer's parser makes of them.
 */
module SendChunk {
  import opened Bytes
  import opened RtmpHeader
  import opened ChunkStep
  import opened ChunkWriter
  import opened Resume
  import opened RoundTrip

  /** One fmt-0 chunk at time 0; the csid keeps 6 bits and the length 24. */
  function Packet(csid: int, msgType: Byte, streamId: U32, data: Octets): (r: Octets)
    ensures |r| == 12 + |data|
  {
    [csid % 64] + U24BE(0) + U24BE(|data| % 0x1_0000_0000) + [msgType] + U32LE(streamId) + data
  }

  const OUT_CHUNK_SIZE := 4096

  const WINDOW_ACK_SIZE: Octets := Packet(CSID_CONTROL, MSG_TYPE_WINDOW_ACK_SIZE, 0, U32BE(2500000))
  const PEER_BANDWIDTH: Octets := Packet(CSID_CONTROL, MSG_TYPE_PEER_BANDWIDTH, 0, U32BE(2500000) + [2])
  const SET_CHUNK_SIZE: Octets := Packet(CSID_CONTROL, MSG_TYPE_SET_CHUNK_SIZE, 0, U32BE(OUT_CHUNK_SIZE))

  /** What the server sends when the handshake is done. */
  const GREETING: seq<Octets> := [WINDOW_ACK_SIZE, PEER_BANDWIDTH, SET_CHUNK_SIZE]

  /** The packet as a message of its sender. */
  function AsSent(csid: int, msgType: Byte, streamId: U32, data: Octets): Sent
    requires csid >= 0
  {
    Sent(csid, 0, msgType, streamId, data)
  }

  /** Within its domain, `sendChunk` emits what the reference sender emits for a message begun in full. */
  lemma PacketIsChunk(s: Sender, csid: int, msgType: Byte, streamId: U32, data: Octets)
    requires SenderOk(s) && 2 <= csid <= 63 && |data| <= 0xFFFFFF
    ensures
      var a := Put(AsSent(csid, msgType, streamId, data), 0, false);
      && Enabled(s, a) && Disciplined(s, a)
      && (|data| <= s.chunkSize ==> Emit(s, a) == Packet(csid, msgType, streamId, data) && Completed(s, a) == [a.msg])
      && (|data| > s.chunkSize ==>
            Emit(s, a) == Packet(csid, msgType, streamId, data)[..12 + s.chunkSize] && Completed(s, a) == [])
  {
    hide U24BE, U32LE;
    var msg := AsSent(csid, msgType, streamId, data);
    var a := Put(msg, 0, false);
    var n := Min(|data|, s.chunkSize);
    var header := HeaderBytes(LastOn(s, csid), msg, 0, false);
    PacketLayout(csid, msgType, streamId, data);
    assert header == HeaderBytes(msg, msg, 0, false);
    var packet := Packet(csid, msgType, streamId, data);
    assert Emit(s, a) == header + data[..n];
    assert packet[..12 + n] == header + data[..n];
    assert data[..|data|] == data;
  }

  /** Any well-formed parser takes as much of a packet as its chunk size allows, whatever it has in progress. */
  lemma PacketTaken(p: Parser, csid: int, msgType: Byte, streamId: U32, data: Octets)
    requires ParserOk(p) && 2 <= csid <= 63 && |data| <= 0xFFFFFF
    ensures
      var o := Attempt(p, Packet(csid, msgType, streamId, data));
      && o.Chunk? && o.used == 12 + Min(|data|, p.chunkSize)
      && (|data| > p.chunkSize ==> o.out == [])
      && (|data| <= p.chunkSize ==> |o.out| == 1 && Delivers(o.out[0], AsSent(csid, msgType, streamId, data)))
  {
    hide ParseHeader, HeaderBytes, Packet, DataSize, NextChunkSize;
    var msg := AsSent(csid, msgType, streamId, data);
    PacketLayout(csid, msgType, streamId, data);
    CompressionIff(p.prevs, msg, msg, 0, false, data);
    var packet := Packet(csid, msgType, streamId, data);
    var r := ParseHeader(p.prevs, packet);
    var n := Min(|data|, p.chunkSize);
    DataSizeIs(Message(r.header, []), p.chunkSize);
    assert packet[12..12 + n] == data[..n];
    assert [] + data[..n] == data[..n];
    assert n == |data| ==> data[..n] == data;
  }

  lemma PacketLayout(csid: int, msgType: Byte, streamId: U32, data: Octets)
    requires 2 <= csid <= 63 && |data| <= 0xFFFFFF
    ensures
      var msg := AsSent(csid, msgType, streamId, data); var header := HeaderBytes(msg, msg, 0, false);
      |header| == 12 && Packet(csid, msgType, streamId, data) == header + data
  {
    hide U24BE, U32LE;
    var msg := AsSent(csid, msgType, streamId, data);
    assert HeaderBytes(msg, msg, 0, false)
        == [csid] + (U24BE(0) + U24BE(|data|) + [msgType] + U32LE(streamId)) + [];
  }

  /**
   For csids in 2..63, a packet arrives as its message, with nothing left over,
   if and only if the data fits the receiver's chunk size.
   */
  lemma PacketArrivesIff(p: Parser, csid: int, msgType: Byte, streamId: U32, data: Octets)
    requires ParserOk(p) && 2 <= csid <= 63
    ensures
      var o := Attempt(p, Packet(csid, msgType, streamId, data));
      (o.Chunk? && o.used == 12 + |data| && |o.out| == 1 && Delivers(o.out[0], AsSent(csid, msgType, streamId, data)))
      <==> |data| <= p.chunkSize
  {
    hide Attempt, Packet;
    if |data| <= 0xFFFFFF {
      PacketTaken(p, csid, msgType, streamId, data);
    } else {
      UsesAtMost(p, Packet(csid, msgType, streamId, data));
    }
  }

  lemma UsesAtMost(p: Parser, b: Octets)
    ensures var o := Attempt(p, b); o.Chunk? ==> o.used <= 18 + p.chunkSize
  {
    hide ParseHeader, Prepare, NextChunkSize;
  }

  /** What `sendSetChunkSize` announces, with anything behind it, is what the receiver takes, within 1..65535. */
  lemma ChunkSizeAnnounced(chunkSize: int, size: U32, rest: Octets)
    ensures
      NextChunkSize(chunkSize, 1, U32BE(size) + rest)
      == if 1 <= size % 0x8000_0000 <= 65535 then size % 0x8000_0000 else chunkSize
  {
    hide ReadU32BE, U32BE;
    var payload := U32BE(size) + rest;
    assert payload[0..4] == U32BE(size);
    ReadWrittenU32(payload, 0, size);
  }

  // ----- Sequences of packets -----

  datatype Send = Send(csid: nat, msgType: Byte, streamId: U32, data: Octets) {
    function Bytes(): Octets {
      Packet(csid, msgType, streamId, data)
    }

    function Msg(): Sent {
      AsSent(csid, msgType, streamId, data)
    }
  }

  /** Every packet fits the receiver's chunk size at its turn, which Set Chunk Size packets among them change. */
  predicate AllFit(chunkSize: int, sends: seq<Send>)
    decreases |sends|
  {
    sends == [] ||
    (var d := sends[0];
     && 2 <= d.csid <= 63 && |d.data| <= Min(chunkSize, 0xFFFFFF)
     && AllFit(SizeBehind(chunkSize, d.msgType, d.data), sends[1..]))
  }

  /** The receiver's chunk size behind the packets. */
  function SizeAfter(chunkSize: int, sends: seq<Send>): int
    decreases |sends|
  {
    if sends == [] then chunkSize
    else SizeAfter(SizeBehind(chunkSize, sends[0].msgType, sends[0].data), sends[1..])
  }

  function Packets(sends: seq<Send>): seq<Octets> {
    seq(|sends|, i requires 0 <= i < |sends| => sends[i].Bytes())
  }

  function Msgs(sends: seq<Send>): seq<Sent> {
    seq(|sends|, i requires 0 <= i < |sends| => sends[i].Msg())
  }

  lemma {:induction false} SendsAreSchedule(s: Sender, sends: seq<Send>) returns (acts: seq<Action>)
    requires SenderOk(s) && AllFit(s.chunkSize, sends)
    ensures Feasible(s, acts) && AllDisciplined(s, acts)
    ensures Wire(s, acts) == Concat(Packets(sends)) && Finished(s, acts) == Msgs(sends)
    ensures Final(s, acts).chunkSize == SizeAfter(s.chunkSize, sends)
    decreases |sends|
  {
    hide Enabled, Disciplined, Emit, Completed, Packet, SenderOk, Wire, Next, SizeBehind;
    if sends == [] {
      acts := [];
      WireCons(s, acts);
    } else {
      var d, rest := sends[0], sends[1..];
      var a := Put(d.Msg(), 0, false);
      PacketIsChunk(s, d.csid, d.msgType, d.streamId, d.data);
      NextOk(s, a);
      NextSize(s, a);
      var later := SendsAreSchedule(Next(s, a), rest);
      acts := [a] + later;
      WireCons(s, acts);
      assert acts[1..] == later;
      assert Packets(sends) == [d.Bytes()] + Packets(rest);
      assert Packets(sends)[1..] == Packets(rest);
      assert Msgs(sends) == [d.Msg()] + Msgs(rest);
    }
  }

  lemma NextSize(s: Sender, a: Action)
    requires SenderOk(s) && Enabled(s, a) && Completed(s, a) == [a.msg]
    ensures Next(s, a).chunkSize == SizeBehind(s.chunkSize, a.msg.msgType, a.msg.payload)
  {
  }

  /** Any packets that fit parse back, in any cutting into reads, to exactly their messages, with no byte left. */
  lemma PacketsParseBack(sends: seq<Send>, pieces: seq<Octets>)
    requires AllFit(DEFAULT_CHUNK_SIZE, sends) && Concat(pieces) == Concat(Packets(sends))
    ensures
      var e := FeedAll(INITIAL_RECEIVER, pieces);
      !e.faulted && e.unread == [] && AllDeliver(e.out, Msgs(sends))
      && e.parser.chunkSize == SizeAfter(DEFAULT_CHUNK_SIZE, sends)
  {
    var acts := SendsAreSchedule(INITIAL_SENDER, sends);
    InterleavedRoundTrip(acts, pieces);
  }

  /** A peer that starts with chunk size 128 and reads the greeting ends with the server's outgoing chunk size. */
  lemma GreetingSetsChunkSize(pieces: seq<Octets>)
    requires Concat(pieces) == Concat(GREETING)
    ensures
      var e := FeedAll(INITIAL_RECEIVER, pieces);
      && !e.faulted && e.unread == [] && AllDeliver(e.out, Msgs(GREETING_SENDS))
      && e.parser.chunkSize == 4096 == OUT_CHUNK_SIZE
  {
    hide FeedAll, Concat, Packet;
    GreetingFits();
    PacketsParseBack(GREETING_SENDS, pieces);
  }

  /** Window acknowledgement size and peer bandwidth 2500000, the latter dynamic, and chunk size 4096. */
  const GREETING_SENDS: seq<Send> :=
    [Send(2, 5, 0, [0x00, 0x26, 0x25, 0xA0]), Send(2, 6, 0, [0x00, 0x26, 0x25, 0xA0, 2]),
     Send(2, 1, 0, [0x00, 0x00, 0x10, 0x00])]

  lemma GreetingFits()
    ensures Packets(GREETING_SENDS) == GREETING
    ensures AllFit(DEFAULT_CHUNK_SIZE, GREETING_SENDS)
    ensures SizeAfter(DEFAULT_CHUNK_SIZE, GREETING_SENDS) == OUT_CHUNK_SIZE
  {
    hide Packet;
    var g := GREETING_SENDS;
    assert U32BE(2500000) == [0x00, 0x26, 0x25, 0xA0] && U32BE(4096) == [0x00, 0x00, 0x10, 0x00];
    assert U32BE(2500000) + [2] == [0x00, 0x26, 0x25, 0xA0, 2];
    assert Packets(g) == [g[0].Bytes(), g[1].Bytes(), g[2].Bytes()];
    assert g[1..] == [g[1], g[2]] && g[1..][1..] == [g[2]] && g[1..][1..][1..] == [];
    assert SizeBehind(DEFAULT_CHUNK_SIZE, g[2].msgType, g[2].data) == OUT_CHUNK_SIZE;
    assert SizeAfter(DEFAULT_CHUNK_SIZE, [g[2]]) == SizeAfter(OUT_CHUNK_SIZE, []);
    assert AllFit(DEFAULT_CHUNK_SIZE, [g[2]]);
    assert AllFit(DEFAULT_CHUNK_SIZE, g[1..]);
    assert SizeAfter(DEFAULT_CHUNK_SIZE, g[1..]) == SizeAfter(DEFAULT_CHUNK_SIZE, [g[2]]);
  }
}
