/**
 The chunk parser of `RtmpChunkParse.cpp` as the class it is: maps updated in
 place, a buffer that is peeked at and then retrieved from, and a callback that
 may change the chunk size. It is proved to do what `ChunkStep` says.
 */
module ChunkParse {
  import opened Bytes
  import opened RtmpHeader
  import opened ChunkStep
  import opened MsgBuffers

  /** 1, 0, or an exception leaving `parseOneChunk`; it never returns -1. */
  datatype Ret = Again | Parsed | Threw

  class RtmpChunkParse {
    var prevHeaders: map<int, Header>
    var inProgress: map<int, Message>
    var inChunkSize: int

    // The messages the callback has been given, in order.
    var delivered: seq<Message>

    ghost function State(): Parser
      reads this
    {
      Parser(prevHeaders, inProgress, inChunkSize)
    }

    ghost function Abs(buf: MsgBuffer, faulted: bool): Receiver
      requires buf.Valid()
      reads this, buf, buf.buf
    {
      Receiver(State(), buf.Readable(), delivered, faulted)
    }

    constructor ()
      ensures State() == INITIAL_PARSER && delivered == []
    {
      prevHeaders, inProgress, inChunkSize, delivered := map[], map[], DEFAULT_CHUNK_SIZE, [];
    }

    method SetInChunkSize(size: int)
      modifies this`inChunkSize
      ensures inChunkSize == size
    {
      inChunkSize := size;
    }

    /** The callback installed by `onHandShakeDone`: of the message types, only Set Chunk Size acts on the parser. */
    method MessageCallback(msg: Message)
      modifies this`inChunkSize, this`delivered
      ensures delivered == old(delivered) + [msg]
      ensures inChunkSize == NextChunkSize(old(inChunkSize), msg.header.msgType, msg.payload)
    {
      delivered := delivered + [msg];
      if msg.header.msgType == MSG_TYPE_SET_CHUNK_SIZE {
        HandleSetChunkSize(msg);
      }
    }

    method HandleSetChunkSize(msg: Message)
      requires msg.header.msgType == MSG_TYPE_SET_CHUNK_SIZE
      modifies this`inChunkSize
      ensures inChunkSize == NextChunkSize(old(inChunkSize), msg.header.msgType, msg.payload)
    {
      if |msg.payload| < 4 {
        return;
      }
      var newSize: int := ReadU32BE(msg.payload, 0);
      newSize := newSize % 0x8000_0000;
      if newSize == 0 || newSize > MAX_CHUNK_SIZE {
        return;
      }
      SetInChunkSize(newSize);
    }

    method ParseBasicHeader(buf: MsgBuffer) returns (ok: bool, fmt: Fmt, csid: nat, headerLen: nat)
      requires buf.Valid()
      ensures ok <==> ChunkStep.ParseBasicHeader(buf.Readable()).Basic?
      ensures ok ==> ChunkStep.ParseBasicHeader(buf.Readable()) == Basic(fmt, csid, headerLen)
    {
      ok, fmt, csid, headerLen := false, 0, 0, 0;
      if buf.ReadableBytes() < 1 {
        return;
      }
      var p := buf.Peek();
      fmt, csid := p[0] as int / 64, p[0] as int % 64;
      if csid == 0 {
        if buf.ReadableBytes() < 2 {
          return;
        }
        csid, headerLen := p[1] as int + 64, 2;
      } else if csid == 1 {
        if buf.ReadableBytes() < 3 {
          return;
        }
        csid, headerLen := p[2] as int * 256 + p[1] as int + 64, 3;
      } else {
        headerLen := 1;
      }
      ok := true;
    }

    /** Steps 3 to 5: the history entry is made if it is missing, and the header is read as far as the bytes allow. */
    method ReadHeader(buf: MsgBuffer) returns (r: ChunkHeader)
      requires buf.Valid()
      modifies this`prevHeaders
      ensures r == ParseHeader(old(prevHeaders), buf.Readable())
      ensures r.ShortOfMessageHeader? ==> prevHeaders == old(prevHeaders)
      ensures !r.ShortOfMessageHeader? ==>
                var c := if r.Full? then r.header.csid else r.csid;
                c in prevHeaders && prevHeaders == old(prevHeaders[c := PrevOf(prevHeaders, c)])
    {
      var ok, fmt, csid, basicLen := ParseBasicHeader(buf);
      if !ok {
        return ShortOfMessageHeader;
      }
      var need := basicLen + MsgHeaderSize(fmt);
      if buf.ReadableBytes() < need {
        return ShortOfMessageHeader;
      }
      if csid !in prevHeaders {
        prevHeaders := prevHeaders[csid := BLANK_HEADER];
      }
      var prev := prevHeaders[csid];
      assert prev == PrevOf(old(prevHeaders), csid);
      assert prevHeaders == old(prevHeaders)[csid := prev];

      var p := buf.Peek();
      var header := prev.(fmt := fmt, csid := csid);
      if fmt == 0 {
        header := header.(timestamp := ReadU24BE(p, basicLen), msgLen := ReadU24BE(p, basicLen + 3),
                          msgType := p[basicLen + 6], streamId := ReadU32LE(p, basicLen + 7));
      } else if fmt == 1 {
        var delta := ReadU24BE(p, basicLen);
        header := header.(msgLen := ReadU24BE(p, basicLen + 3), msgType := p[basicLen + 6]);
        header := header.(timestamp := (prev.timestamp as int + delta) % 0x1_0000_0000);
      } else if fmt == 2 {
        var delta := ReadU24BE(p, basicLen);
        header := header.(timestamp := (prev.timestamp as int + delta) % 0x1_0000_0000);
      }

      var extTsLen := 0;
      if fmt == 0 {
        if header.timestamp >= MAX_TIMESTAMP_IN_HEADER {
          extTsLen := 4;
          header := header.(hasExtTs := true);
        }
      } else if fmt == 1 || fmt == 2 {
        if ReadU24BE(p, basicLen) > MAX_TIMESTAMP_IN_HEADER {
          extTsLen := 4;
          header := header.(hasExtTs := true);
        }
      } else if prev.hasExtTs {
        extTsLen := 4;
        header := header.(hasExtTs := true);
      }

      var total := need + extTsLen;
      if buf.ReadableBytes() < total {
        return ShortOfExtTs(csid);
      }
      if extTsLen == 4 {
        header := header.(timestamp := ReadU32BE(p, need));
      }
      return Full(header, total);
    }

    method ParseOneChunk(buf: MsgBuffer) returns (ret: Ret)
      requires buf.Valid()
      modifies this, buf
      ensures buf.Valid() && buf.buf == old(buf.buf) && buf.appended == old(buf.appended)
      ensures
        var o := Attempt(old(State()), old(buf.Readable()));
        && State() == o.parser
        && match o
           case NeedMore(_) => ret == Again && buf.Readable() == old(buf.Readable()) && delivered == old(delivered)
           case Fault(_) => ret == Threw && buf.Readable() == old(buf.Readable()) && delivered == old(delivered)
           case Chunk(_, used, out) =>
             && ret == Parsed && used <= |old(buf.Readable())|
             && buf.Readable() == old(buf.Readable())[used..] && delivered == old(delivered) + out
    {
      hide ParseHeader, Accept, Prepare;
      ghost var p0 := State();
      var r := ReadHeader(buf);
      if !r.Full? {
        return Again;
      }
      var header, total := r.header, r.total;
      var msg := PrepareMessage(header);
      assert State() == Touched(p0, header.csid).(inProgress := p0.inProgress[header.csid := msg]);

      var remaining := (msg.header.msgLen as int - |msg.payload|) % 0x1_0000_0000;
      var dataSize := Min(ToInt32(remaining), inChunkSize);
      if buf.ReadableBytes() < total + dataSize {
        return Again;
      }
      if dataSize < 0 {
        return Threw;
      }
      ret := Take(buf, header, total, dataSize, msg, p0);
    }

    /** The message in progress is prepared before it is known whether the chunk's data has arrived. */
    method PrepareMessage(header: Header) returns (msg: Message)
      modifies this`inProgress
      ensures msg == Prepare(old(State().Msg(header.csid)), header)
      ensures inProgress == old(inProgress)[header.csid := msg]
    {
      var csid := header.csid;
      if csid !in inProgress {
        inProgress := inProgress[csid := FRESH_MESSAGE];
      }
      msg := inProgress[csid];
      if header.fmt == 0 || msg.IsComplete() {
        msg := Message(header, []);
      } else {
        msg := msg.(header := msg.header.(timestamp := header.timestamp, fmt := header.fmt));
        if header.fmt == 1 {
          msg := msg.(header := msg.header.(msgLen := header.msgLen, msgType := header.msgType));
        }
      }
      inProgress := inProgress[csid := msg];
      assert inProgress == old(inProgress)[csid := msg];
    }

    /** Steps 7 to 9: append the data, retrieve the chunk, remember the header, deliver a complete message. */
    method Take(buf: MsgBuffer, header: Header, total: nat, dataSize: nat, msg: Message, ghost p0: Parser)
      returns (ret: Ret)
      requires buf.Valid() && total + dataSize <= |buf.Readable()|
      requires header.csid in inProgress && inProgress == p0.inProgress[header.csid := msg]
      requires prevHeaders == p0.prevs[header.csid := p0.Prev(header.csid)] && inChunkSize == p0.chunkSize
      modifies this, buf
      ensures buf.Valid() && buf.buf == old(buf.buf) && buf.appended == old(buf.appended)
      ensures ret == Parsed && buf.Readable() == old(buf.Readable())[total + dataSize..]
      ensures
        var o := Accept(p0, header, msg, old(buf.Readable())[total..total + dataSize], total + dataSize);
        o.Chunk? && o.used == total + dataSize && State() == o.parser && delivered == old(delivered) + o.out
    {
      var view := buf.Peek();
      var full := msg.(payload := msg.payload + view[total..total + dataSize]);
      buf.Retrieve(total + dataSize);
      prevHeaders := prevHeaders[header.csid := header];
      assert prevHeaders == p0.prevs[header.csid := header];
      if full.IsComplete() {
        MessageCallback(full);
        inProgress := inProgress[header.csid := FRESH_MESSAGE];
        assert inProgress == p0.inProgress[header.csid := FRESH_MESSAGE];
      } else {
        inProgress := inProgress[header.csid := full];
        assert inProgress == p0.inProgress[header.csid := full];
      }
      return Parsed;
    }

    /** Parses as many chunks as the buffer holds; `threw` tells of the exception that can leave the loop. */
    method Parse(buf: MsgBuffer) returns (threw: bool)
      requires buf.Valid()
      modifies this, buf
      ensures buf.Valid() && buf.buf == old(buf.buf) && buf.appended == old(buf.appended)
      ensures Abs(buf, threw) == ParseAll(old(Abs(buf, false)))
    {
      threw := false;
      while buf.ReadableBytes() > 0
        invariant buf.Valid() && buf.buf == old(buf.buf) && buf.appended == old(buf.appended)
        invariant ParseAll(Abs(buf, false)) == ParseAll(old(Abs(buf, false)))
        decreases |buf.Readable()|
      {
        AttemptProgress(State(), buf.Readable());
        var ret := ParseOneChunk(buf);
        if ret == Again {
          return;
        }
        if ret == Threw {
          return true;
        }
      }
    }
  }
}
