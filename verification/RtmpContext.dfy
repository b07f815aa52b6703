/**
 The server side of a connection, `RtmpContext.cpp`: the callbacks on the
 connection, the handshake and the chunk parser, and the encoders of control
 messages. It is proved to take the steps of `Server`.
 */
module RtmpContexts {
  import opened Bytes
  import opened RtmpHeader
  import opened ChunkStep
  import opened ChunkParse
  import opened HandShakeDigest
  import opened HandShakeSteps
  import opened RtmpHandShakes
  import opened SendChunk
  import opened TcpConnections
  import Server
  import TcpQueue

  class RtmpContext {
    const connection: TcpConnection
    const handShake: RtmpHandShake
    const chunkParse: RtmpChunkParse
    var outChunkSize: int

    // Set when an exception has left the parser and ended the event loop.
    ghost var faulted: bool

    ghost predicate Valid()
      reads connection.recvBuf, connection.recvBuf.buf
    {
      && connection.recvBuf.Valid()
      && handShake.Valid() && handShake.connection == connection
      && connection.recvBuf.buf != handShake.c1s1 && connection.recvBuf.buf != handShake.c2s2
    }

    ghost function Abs(): Server.Conn
      requires Valid()
      reads this, connection, connection.recvBuf, connection.recvBuf.buf
      reads handShake, handShake.c1s1, handShake.c2s2, chunkParse
    {
      Server.Conn(connection.Abs(), handShake.Abs(), chunkParse.Abs(connection.recvBuf, faulted), outChunkSize,
                  connection.recvBuf.appended)
    }

    constructor (hmac: Hmac, random: RandomC0C1)
      ensures Valid() && handShake.hmac == hmac && fresh(connection)
      ensures Abs() == Server.Accepted(hmac, random)
    {
      var conn := new TcpConnection();
      connection := conn;
      handShake := new RtmpHandShake(conn, hmac, random);
      chunkParse := new RtmpChunkParse();
      outChunkSize := DEFAULT_CHUNK_SIZE;
      faulted := false;
    }

    // ----- Events on the loop thread -----

    /** The read handler: the socket has put `bytes` into the room it was offered. */
    method OnRead(bytes: Octets, draw: Draw)
      requires Valid() && !faulted && |bytes| <= connection.recvBuf.WritableBytes()
      modifies this, connection, connection.recvBuf, connection.recvBuf.buf, handShake, handShake.c2s2, chunkParse
      ensures Valid()
      ensures Server.EventEnabled(old(Abs()), Server.Read(bytes, draw))
      ensures Abs() == Server.Step(handShake.hmac, old(Abs()), Server.Read(bytes, draw))
    {
      hide Server.OnMessage;
      var buf := connection.recvBuf;
      buf.Store(bytes);
      buf.HasWritten(|bytes|);
      assert Abs() == old(Abs()).(input := old(Abs()).input + bytes,
                                  receiver := old(Abs()).receiver.(unread := old(Abs()).receiver.unread + bytes));
      var threw := OnMessage(draw);
      label done:
      if !threw {
        buf.EnsureWritableBytes(4096);
      }
      assert Abs() == old@done(Abs());
    }

    /** `threw` tells of the exception that can leave `Parse`. */
    method OnMessage(draw: Draw) returns (threw: bool)
      requires Valid() && !faulted
      modifies this, connection, connection.recvBuf, handShake, handShake.c2s2, chunkParse
      ensures Valid() && connection.recvBuf.buf == old(connection.recvBuf.buf)
      ensures Abs() == Server.OnMessage(handShake.hmac, old(Abs()), draw) && threw == faulted
    {
      hide HandShakeSteps.HandShake, ParseAll, TcpQueue.Send, Server.OnHandShakeDone;
      threw := false;
      var buf := connection.recvBuf;
      if handShake.state != Done {
        var ret := handShake.HandShake(buf, draw);
        if ret < 0 {
          connection.Close();
          return;
        }
        if ret != 0 {
          return;
        }
        OnHandShakeDone();
        if buf.ReadableBytes() == 0 {
          EmptyParse(Abs().receiver);
          return;
        }
      }
      threw := chunkParse.Parse(buf);
      faulted := threw;
    }

    /** The completion handler of a write, ending in the write-complete callback. */
    method OnWriteDone(ok: bool)
      requires Valid() && !faulted && TcpQueue.MayComplete(connection.Abs())
      modifies connection, handShake
      ensures Valid()
      ensures Server.EventEnabled(old(Abs()), Server.Completion(ok))
      ensures Abs() == Server.Step(handShake.hmac, old(Abs()), Server.Completion(ok))
    {
      var drained := connection.OnWriteDone(ok);
      if drained && handShake.state != Done {
        handShake.WriteComplete();
      }
    }

    method OnReadError()
      requires Valid() && !faulted
      modifies connection
      ensures Valid()
      ensures Abs() == Server.Step(handShake.hmac, old(Abs()), Server.ReadError)
    {
      connection.Close();
    }

    // ----- After the handshake -----

    method OnHandShakeDone()
      requires Valid()
      modifies this`outChunkSize, connection
      ensures Valid()
      ensures Abs() == Server.OnHandShakeDone(old(Abs()))
    {
      hide Packet, TcpQueue.Send;
      SendWindowAckSize(2500000);
      SendPeerBandwidth(2500000, 2);
      outChunkSize := OUT_CHUNK_SIZE;
      SendSetChunkSize(outChunkSize);
      ThreeSends(old(connection.Abs()), WINDOW_ACK_SIZE, PEER_BANDWIDTH, SET_CHUNK_SIZE);
    }

    // ----- Control messages -----

    method SendSetChunkSize(chunkSize: int)
      requires 0 <= chunkSize < 0x8000_0000
      modifies connection
      ensures connection.Abs() == TcpQueue.Send(old(connection.Abs()),
                                                Packet(CSID_CONTROL, MSG_TYPE_SET_CHUNK_SIZE, 0, U32BE(chunkSize)))
    {
      var payload := new Byte[4](_ => 0);
      WriteUint32BE(payload, 0, chunkSize);
      assert payload[..] == U32BE(chunkSize);
      SendOneChunk(CSID_CONTROL, MSG_TYPE_SET_CHUNK_SIZE, 0, payload[..]);
    }

    method SendWindowAckSize(ackSize: int)
      requires 0 <= ackSize < 0x8000_0000
      modifies connection
      ensures connection.Abs() == TcpQueue.Send(old(connection.Abs()),
                                                Packet(CSID_CONTROL, MSG_TYPE_WINDOW_ACK_SIZE, 0, U32BE(ackSize)))
    {
      var payload := new Byte[4](_ => 0);
      WriteUint32BE(payload, 0, ackSize);
      assert payload[..] == U32BE(ackSize);
      SendOneChunk(CSID_CONTROL, MSG_TYPE_WINDOW_ACK_SIZE, 0, payload[..]);
    }

    method SendPeerBandwidth(size: int, limitType: Byte)
      requires 0 <= size < 0x8000_0000
      modifies connection
      ensures connection.Abs() == TcpQueue.Send(old(connection.Abs()),
                                                Packet(CSID_CONTROL, MSG_TYPE_PEER_BANDWIDTH, 0, U32BE(size) + [limitType]))
    {
      var payload := new Byte[5](_ => 0);
      WriteUint32BE(payload, 0, size);
      payload[4] := limitType;
      assert payload[..] == U32BE(size) + [limitType];
      SendOneChunk(CSID_CONTROL, MSG_TYPE_PEER_BANDWIDTH, 0, payload[..]);
    }

    method SendUserControlStreamBegin(streamId: U32)
      modifies connection
      ensures connection.Abs() == TcpQueue.Send(old(connection.Abs()),
                                                Packet(CSID_CONTROL, MSG_TYPE_USER_CONTROL, 0, [0, 0] + U32BE(streamId)))
    {
      var payload := new Byte[6](_ => 0);
      WriteUint16BE(payload, 0, 0);
      WriteUint32BE(payload, 2, streamId);
      assert payload[..] == [0, 0] + U32BE(streamId);
      SendOneChunk(CSID_CONTROL, MSG_TYPE_USER_CONTROL, 0, payload[..]);
    }

    /** `sendChunk`: a 12-byte header built in place, and the data behind it. */
    method SendOneChunk(csid: int, msgType: Byte, streamId: U32, data: Octets)
      modifies connection
      ensures connection.Abs() == TcpQueue.Send(old(connection.Abs()), Packet(csid, msgType, streamId, data))
    {
      var header := new Byte[12](_ => 0);
      header[0] := csid % 64;
      WriteUint24BE(header, 1, 0);
      WriteUint24BE(header, 4, |data| % 0x1_0000_0000);
      header[7] := msgType;
      WriteUint32LE(header, 8, streamId);
      assert header[..] == [csid % 64] + U24BE(0) + U24BE(|data| % 0x1_0000_0000) + [msgType] + U32LE(streamId);
      var packet := header[..] + data;
      connection.Send(packet);
    }
  }

  lemma ThreeSends(t: TcpQueue.Tcp, a: Octets, b: Octets, c: Octets)
    ensures TcpQueue.SendAll(t, [a, b, c]) == TcpQueue.Send(TcpQueue.Send(TcpQueue.Send(t, a), b), c)
  {
    hide TcpQueue.Send;
    var t1 := TcpQueue.Send(t, a);
    var t2 := TcpQueue.Send(t1, b);
    assert [a, b, c][1..] == [b, c] && [b, c][1..] == [c] && [c][1..] == [];
    assert TcpQueue.SendAll(t1, [b, c]) == TcpQueue.SendAll(t2, [c]);
    assert TcpQueue.SendAll(TcpQueue.Send(t2, c), []) == TcpQueue.Send(t2, c);
  }

  lemma EmptyParse(r: Receiver)
    requires r.unread == []
    ensures ParseAll(r) == r
  {
  }
}
