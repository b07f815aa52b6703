/**
 The parser inverts the interleaved chunk stream of `ChunkWriter`, and stays
 aligned with it exactly under the extended-timestamp discipline.
 */
module RoundTrip {
  import opened Bytes
  import opened RtmpHeader
  import opened ChunkStep
  import opened ChunkWriter
  import opened Resume

  // ----- Reading one header back -----

  lemma BasicHeaderBack(fmt: Fmt, csid: nat, rest: Octets)
    requires 2 <= csid <= 65599
    ensures ParseBasicHeader(BasicHeaderBytes(fmt, csid) + rest)
         == Basic(fmt, csid, |BasicHeaderBytes(fmt, csid)|)
  {
  }

  predicate HeaderFor(h: Header, msg: Sent) {
    h == Header(msg.csid, msg.timestamp, |msg.payload| % 0x1_0000_0000, msg.msgType, msg.streamId, h.fmt, h.hasExtTs)
  }

  /** Where the fields of a message header stand behind a prefix of `at` bytes. */
  lemma FieldsBack(last: Sent, msg: Sent, fmt: Fmt, ext: bool, b: Octets, at: nat)
    requires msg.Fits()
    requires at + MsgHeaderSize(fmt) <= |b|
    requires b[at..at + MsgHeaderSize(fmt)] == MsgHeaderBytes(last, msg, fmt, ext)
    ensures fmt <= 2 ==> ReadU24BE(b, at) == TimeField(last, msg, fmt, ext) % 0x100_0000
    ensures fmt <= 1 ==> ReadU24BE(b, at + 3) == |msg.payload| && b[at + 6] == msg.msgType
    ensures fmt == 0 ==> ReadU32LE(b, at + 7) == msg.streamId
  {
    hide ReadU24BE, ReadU32LE, U24BE, U32LE;
    var n := MsgHeaderSize(fmt);
    if fmt <= 2 {
      var time, tail := U24BE(TimeField(last, msg, fmt, ext)), MsgHeaderBytes(last, msg, fmt, ext)[3..];
      Middle(b, at, n, [], time, tail);
      ReadWrittenU24(b, at, TimeField(last, msg, fmt, ext));
      if fmt <= 1 {
        var len := U24BE(|msg.payload|);
        Middle(b, at, n, time, len, tail[3..]);
        ReadWrittenU24(b, at + 3, |msg.payload|);
        Middle(b, at, n, time + len, [msg.msgType], tail[4..]);
        if fmt == 0 {
          Middle(b, at, n, time + len + [msg.msgType], U32LE(msg.streamId), []);
          ReadWrittenU32LE(b, at + 7, msg.streamId);
        }
      }
    }
  }

  lemma Middle(b: Octets, at: nat, n: nat, pre: Octets, mid: Octets, post: Octets)
    requires at + n <= |b| && b[at..at + n] == pre + mid + post
    ensures at + |pre| + |mid| <= |b| && b[at + |pre|..at + |pre| + |mid|] == mid
  {
    var f := b[at..at + n];
    assert |f| == |pre| + |mid| + |post|;
    assert f[|pre|..|pre| + |mid|] == mid;
    forall i | 0 <= i < |mid|
      ensures b[at + |pre| + i] == mid[i]
    {
      assert b[at + |pre| + i] == f[|pre| + i];
    }
  }

  /** The parser adds back the delta the writer subtracted, as far as 24 bits hold it. */
  lemma DeltaBack(last: Sent, msg: Sent)
    ensures (last.timestamp as int + Delta(last, msg) % 0x100_0000) % 0x1_0000_0000 == msg.timestamp
            <==> Delta(last, msg) <= 0xFFFFFF
  {
    var delta := Delta(last, msg);
    var low := delta % 0x100_0000;
    assert delta == msg.timestamp - last.timestamp || delta == msg.timestamp - last.timestamp + 0x1_0000_0000;
    assert low <= delta && (low == delta <==> delta <= 0xFFFFFF);
  }

  lemma ExpectsBack(prev: Header, last: Sent, msg: Sent, fmt: Fmt, ext: bool, b: Octets, at: nat)
    requires msg.Fits() && (fmt == 0 && !ext ==> !NeedsExtTs(msg))
    requires at + MsgHeaderSize(fmt) <= |b|
    requires b[at..at + MsgHeaderSize(fmt)] == MsgHeaderBytes(last, msg, fmt, ext)
    ensures ExpectsExtTs(prev, fmt, b, at) <==> LooksForExt(prev.hasExtTs, fmt, ext)
  {
    hide ReadU24BE, MsgHeaderBytes;
    FieldsBack(last, msg, fmt, ext, b, at);
  }

  /**
   The header the parser makes of a chunk header of `msg`, whatever its history
   says and whether or not the chunk carries what the parser looks for.
   */
  lemma HeaderShape(prevs: map<int, Header>, last: Sent, msg: Sent, fmt: Fmt, ext: bool, rest: Octets)
    requires msg.Fits() && (fmt == 0 && !ext ==> !NeedsExtTs(msg))
    ensures
      var basic, b := BasicHeaderBytes(fmt, msg.csid), HeaderBytes(last, msg, fmt, ext) + rest;
      var at, end := |basic|, |basic| + MsgHeaderSize(fmt);
      && end <= |b| && b[at..end] == MsgHeaderBytes(last, msg, fmt, ext)
      && |HeaderBytes(last, msg, fmt, ext)| == end + (if ext then 4 else 0)
      && var prev, r := PrevOf(prevs, msg.csid), ParseHeader(prevs, b);
         var h := ReadFields(prev, fmt, msg.csid, b, at);
         if !LooksForExt(prev.hasExtTs, fmt, ext) then r == Full(h, end)
         else if end + 4 > |b| then r == ShortOfExtTs(msg.csid)
         else
           && r.Full? && r.total == end + 4
           && r.header == h.(hasExtTs := true, timestamp := r.header.timestamp)
           && (ext ==> r.header.timestamp == msg.timestamp)
  {
    hide ParseBasicHeader, BasicHeaderBytes, MsgHeaderBytes, ReadFields, ExpectsExtTs, ReadU32BE, U32BE;
    var prev := PrevOf(prevs, msg.csid);
    var b := HeaderBytes(last, msg, fmt, ext) + rest;
    var basic, fields := BasicHeaderBytes(fmt, msg.csid), MsgHeaderBytes(last, msg, fmt, ext);
    var at, end := |basic|, |basic| + MsgHeaderSize(fmt);
    var extended := ExtTsBytes(last, msg, fmt, ext);
    assert b == basic + (fields + extended + rest);
    BasicHeaderBack(fmt, msg.csid, fields + extended + rest);
    assert b[at..end] == fields;
    ExpectsBack(prev, last, msg, fmt, ext, b, at);
    if ext && LooksForExt(prev.hasExtTs, fmt, ext) {
      assert b[end..end + 4] == U32BE(msg.timestamp);
      ReadWrittenU32(b, end, msg.timestamp);
    }
  }

  /** What the parser knows of the csid is the message before. */
  predicate Follows(prev: Header, last: Sent, msg: Sent) {
    last.Fits() && last.csid == msg.csid && HeaderFor(prev.(csid := msg.csid), last)
  }

  lemma FieldsRead(prev: Header, last: Sent, msg: Sent, fmt: Fmt, ext: bool, b: Octets, at: nat)
    requires msg.Fits() && (fmt > 0 ==> Follows(prev, last, msg)) && (fmt == 0 && !ext ==> !NeedsExtTs(msg))
    requires at + MsgHeaderSize(fmt) <= |b|
    requires b[at..at + MsgHeaderSize(fmt)] == MsgHeaderBytes(last, msg, fmt, ext)
    ensures
      var h := ReadFields(prev, fmt, msg.csid, b, at);
      && h.fmt == fmt && h.hasExtTs == prev.hasExtTs
      && (fmt == 0 || SameFields(last, msg, fmt) <==> HeaderFor(h.(timestamp := msg.timestamp), msg))
      && (!ext ==> (h.timestamp == msg.timestamp <==> SameTime(last, msg, fmt, ext)))
  {
    hide ReadU24BE, ReadU32LE, MsgHeaderBytes, Delta;
    FieldsBack(last, msg, fmt, ext, b, at);
    DeltaBack(last, msg);
  }

  /**
   A chunk header that carries an extended timestamp exactly if the parser
   looks for one is read back as its message's if and only if the fields it
   leaves out are those of the message before: for fmt 3, the same timestamp
   unless an extended one is sent along.
   */
  lemma CompressionIff(prevs: map<int, Header>, last: Sent, msg: Sent, fmt: Fmt, ext: bool, rest: Octets)
    requires msg.Fits() && (fmt == 0 && !ext ==> !NeedsExtTs(msg))
    requires ext <==> LooksForExt(PrevOf(prevs, msg.csid).hasExtTs, fmt, ext)
    requires fmt > 0 ==> Follows(PrevOf(prevs, msg.csid), last, msg)
    ensures
      var r := ParseHeader(prevs, HeaderBytes(last, msg, fmt, ext) + rest);
      && r.Full? && r.total == |HeaderBytes(last, msg, fmt, ext)| && r.header.fmt == fmt
      && (r.header.hasExtTs <==> PrevOf(prevs, msg.csid).hasExtTs || (fmt == 0 && ext))
      && (HeaderFor(r.header, msg) <==> fmt == 0 || MayCompress(last, msg, fmt, ext))
  {
    hide ParseHeader, ReadFields, BasicHeaderBytes, MsgHeaderBytes, HeaderBytes;
    HeaderShape(prevs, last, msg, fmt, ext, rest);
    var b := HeaderBytes(last, msg, fmt, ext) + rest;
    FieldsRead(PrevOf(prevs, msg.csid), last, msg, fmt, ext, b, |BasicHeaderBytes(fmt, msg.csid)|);
  }

  // ----- Sender and parser in step -----

  /** The sender's and the parser's view of one csid agree. */
  predicate LaneLinked(s: Sender, p: Parser, c: nat) {
    && (p.Prev(c).hasExtTs <==> c in s.ext)
    && HeaderFor(p.Prev(c).(csid := c), LastOn(s, c))
    && if c in s.open then
         var o := s.open[c];
         HeaderFor(p.Msg(c).header, o.msg) && o.done <= |o.msg.payload| && p.Msg(c).payload == o.msg.payload[..o.done]
       else p.Msg(c).IsComplete()
  }

  ghost predicate Linked(s: Sender, p: Parser) {
    && SenderOk(s)
    && p.chunkSize == s.chunkSize
    && forall c: nat :: LaneLinked(s, p, c)
  }

  predicate AllDeliver(out: seq<Message>, sent: seq<Sent>) {
    |out| == |sent| && forall i | 0 <= i < |out| :: Delivers(out[i], sent[i])
  }

  /** The chunk's header is understood, whatever follows it. */
  lemma EmittedHeader(s: Sender, p: Parser, a: Action, rest: Octets)
    requires Linked(s, p) && Enabled(s, a) && Disciplined(s, a)
    ensures
      var msg := a.msg;
      var r := ParseHeader(p.prevs, Emit(s, a) + rest);
      && r.Full? && HeaderFor(r.header, msg) && r.header.fmt == a.fmt
      && r.total == |HeaderBytes(LastOn(s, msg.csid), msg, a.fmt, a.ext)|
      && (r.header.hasExtTs <==> msg.csid in s.ext || (a.fmt == 0 && a.ext))
  {
    hide HeaderBytes, ParseHeader, MayCompress;
    var msg := a.msg;
    var last := LastOn(s, msg.csid);
    assert LaneLinked(s, p, msg.csid);
    var data := msg.payload[DoneBefore(s, a)..DoneAfter(s, a)];
    CompressionIff(p.prevs, last, msg, a.fmt, a.ext, data + rest);
    assert Emit(s, a) + rest == HeaderBytes(last, msg, a.fmt, a.ext) + (data + rest);
  }

  /** Preparing for the chunk keeps what has arrived, and the data size is what the sender puts into the chunk. */
  lemma PreparedFor(s: Sender, p: Parser, a: Action, header: Header)
    requires Linked(s, p) && Enabled(s, a)
    requires HeaderFor(header, a.msg) && header.fmt == a.fmt
    ensures
      var prepared := Prepare(p.Msg(header.csid), header);
      && HeaderFor(prepared.header, a.msg)
      && prepared.payload == a.msg.payload[..DoneBefore(s, a)]
      && DataSize(prepared, p.chunkSize) == DoneAfter(s, a) - DoneBefore(s, a)
  {
    hide SameTime, DataSize;
    assert LaneLinked(s, p, header.csid);
    DataSizeIs(Prepare(p.Msg(header.csid), header), p.chunkSize);
  }

  /** One chunk of a disciplined sender: consumed exactly, delivered if it is the last, and both sides stay in step. */
  lemma ChunkBack(s: Sender, p: Parser, a: Action, rest: Octets)
    requires Linked(s, p) && Enabled(s, a) && Disciplined(s, a)
    ensures
      var o := Attempt(p, Emit(s, a) + rest);
      && o.Chunk? && o.used == |Emit(s, a)| && AllDeliver(o.out, Completed(s, a)) && Linked(Next(s, a), o.parser)
  {
    hide ParseHeader, HeaderBytes, MayCompress, NextChunkSize, Prepare, DataSize, Completed, LaneLinked;
    EmittedHeader(s, p, a, rest);
    var b := Emit(s, a) + rest;
    var r := ParseHeader(p.prevs, b);
    var msg, from, to := a.msg, DoneBefore(s, a), DoneAfter(s, a);
    var data := msg.payload[from..to];
    var prepared := Prepare(p.Msg(msg.csid), r.header);
    PreparedFor(s, p, a, r.header);
    assert b[r.total..r.total + (to - from)] == data;
    assert msg.payload[..from] + data == msg.payload[..to];
    AcceptLinked(s, p, a, r.header, prepared, data);
  }

  /** The parser's rule for the chunk size is the sender's. */
  lemma SameSizeRule(chunkSize: int, msgType: Byte, payload: Octets)
    ensures NextChunkSize(chunkSize, msgType, payload) == SizeBehind(chunkSize, msgType, payload)
  {
    hide ReadU32BE, AnnouncedSize;
    if |payload| >= 4 {
      Masked(payload);
    }
  }

  lemma Masked(payload: Octets)
    requires |payload| >= 4
    ensures ReadU32BE(payload, 0) % 0x8000_0000 == AnnouncedSize(payload)
  {
    TopBit(payload[0], payload[1] as int * 65536 + payload[2] as int * 256 + payload[3] as int);
  }

  lemma TopBit(top: int, low: int)
    requires 0 <= top < 256 && 0 <= low < 16777216
    ensures (top * 16777216 + low) % 0x8000_0000 == top % 128 * 16777216 + low
  {
    assert top < 128 || top == 128 + top % 128;
  }

  lemma AcceptLinked(s: Sender, p: Parser, a: Action, header: Header, prepared: Message, data: Octets)
    requires Linked(s, p) && Enabled(s, a)
    requires
      var msg := a.msg;
      && HeaderFor(header, msg) && HeaderFor(prepared.header, msg)
      && prepared.payload + data == msg.payload[..DoneAfter(s, a)]
      && (header.hasExtTs <==> msg.csid in Next(s, a).ext)
    ensures
      var o := Accept(p, header, prepared, data, |Emit(s, a)|);
      AllDeliver(o.out, Completed(s, a)) && Linked(Next(s, a), o.parser)
  {
    hide HeaderBytes, MayCompress, NextChunkSize, SizeBehind, Emit;
    NextOk(s, a);
    var msg := a.msg;
    SameSizeRule(s.chunkSize, msg.msgType, msg.payload);
    var o := Accept(p, header, prepared, data, |Emit(s, a)|);
    var full := prepared.(payload := prepared.payload + data);
    assert full.IsComplete() <==> DoneAfter(s, a) == |msg.payload|;
    assert full.IsComplete() ==> full.payload == msg.payload;
    forall c: nat
      ensures LaneLinked(Next(s, a), o.parser, c)
    {
      assert LaneLinked(s, p, c);
      if c != msg.csid {
        OtherLane(s, p, a, header, prepared, data, c);
      }
    }
  }

  lemma OtherLane(s: Sender, p: Parser, a: Action, header: Header, prepared: Message, data: Octets, c: nat)
    requires SenderOk(s) && Enabled(s, a) && LaneLinked(s, p, c)
    requires HeaderFor(header, a.msg) && c != a.msg.csid
    ensures LaneLinked(Next(s, a), Accept(p, header, prepared, data, |Emit(s, a)|).parser, c)
  {
    hide HeaderBytes, MayCompress, NextChunkSize, SizeBehind, Emit;
    var q := Accept(p, header, prepared, data, |Emit(s, a)|).parser;
    assert q.Prev(c) == p.Prev(c) && q.Msg(c) == p.Msg(c);
  }

  // ----- Schedules -----

  lemma InitiallyLinked()
    ensures Linked(INITIAL_SENDER, INITIAL_PARSER)
  {
  }

  lemma {:induction false} ScheduleBack(s: Sender, acts: seq<Action>, r: Receiver)
    requires SenderOk(s) && Feasible(s, acts) && AllDisciplined(s, acts)
    requires !r.faulted && r.unread == [] && Linked(s, r.parser)
    ensures
      var e := Feed(r, Wire(s, acts));
      && !e.faulted && e.unread == []
      && |e.out| >= |r.out| && e.out[..|r.out|] == r.out
      && AllDeliver(e.out[|r.out|..], Finished(s, acts))
      && Linked(Final(s, acts), e.parser)
    decreases |acts|
  {
    hide Attempt, Emit, Enabled, Disciplined, Linked, Completed, Next, Wire;
    WireCons(s, acts);
    if acts == [] {
      assert r.unread + [] == [];
    } else {
      var a, rest := acts[0], acts[1..];
      NextOk(s, a);
      var t := Next(s, a);
      var b := Wire(s, acts);
      ChunkBack(s, r.parser, a, Wire(t, rest));
      FeedChunk(r, b);
      var o := Attempt(r.parser, b);
      var next := Receiver(o.parser, [], r.out + o.out, false);
      assert b[o.used..] == Wire(t, rest);
      ScheduleBack(t, rest, next);
      var e := Feed(next, Wire(t, rest));
      assert e.out[..|r.out|] == e.out[..|next.out|][..|r.out|] == r.out;
      assert e.out[|r.out|..] == o.out + e.out[|next.out|..];
      assert Finished(s, acts) == Completed(s, a) + Finished(t, rest);
    }
  }

  /**
   The interleaved round trip. Whatever messages are sent on whatever csids,
   interleaved at chunk boundaries and compressed as allowed, with Set Chunk
   Size messages among them, and however the bytes are cut into reads: the
   callback gets exactly the finished messages, in the order of their last
   chunks; no byte is left; and the receiver's chunk size follows the sender's.
   */
  lemma InterleavedRoundTrip(acts: seq<Action>, pieces: seq<Octets>)
    requires Feasible(INITIAL_SENDER, acts) && AllDisciplined(INITIAL_SENDER, acts)
    requires Concat(pieces) == Wire(INITIAL_SENDER, acts)
    ensures
      var e := FeedAll(INITIAL_RECEIVER, pieces);
      && !e.faulted && e.unread == []
      && AllDeliver(e.out, Finished(INITIAL_SENDER, acts))
      && e.parser.chunkSize == Final(INITIAL_SENDER, acts).chunkSize
  {
    hide Feed, FeedAll, Wire, Feasible, AllDisciplined, Finished, Final;
    FragmentationIndependence(pieces);
    InitiallyLinked();
    ScheduleBack(INITIAL_SENDER, acts, INITIAL_RECEIVER);
    var e := FeedAll(INITIAL_RECEIVER, pieces);
    assert e.out[0..] == e.out;
  }

  // ----- The long basic header -----

  /** A chunk of a csid from 64 to 319, with the csid in one byte or in two. */
  function ShortForm(fmt: Fmt, csid: nat, rest: Octets): Octets
    requires 64 <= csid < 320
  {
    [fmt * 64, csid - 64] + rest
  }

  function LongForm(fmt: Fmt, csid: nat, rest: Octets): Octets
    requires 64 <= csid < 320
  {
    [fmt * 64 + 1, csid - 64, 0] + rest
  }

  lemma LongHeader(prevs: map<int, Header>, fmt: Fmt, csid: nat, rest: Octets)
    requires 64 <= csid < 320
    ensures
      var r := ParseHeader(prevs, ShortForm(fmt, csid, rest));
      && (r.Full? ==> r.total >= 2)
      && ParseHeader(prevs, LongForm(fmt, csid, rest)) == if r.Full? then r.(total := r.total + 1) else r
  {
    var short, long := ShortForm(fmt, csid, rest), LongForm(fmt, csid, rest);
    assert ParseBasicHeader(short) == Basic(fmt, csid, 2) && ParseBasicHeader(long) == Basic(fmt, csid, 3);
    assert forall i | 2 <= i < |short| :: long[i + 1] == short[i];
  }

  /** Whatever follows, the parser makes the same of both forms, and uses one byte more of the long one. */
  lemma LongFormAgrees(p: Parser, fmt: Fmt, csid: nat, rest: Octets)
    requires 64 <= csid < 320
    ensures
      var o := Attempt(p, ShortForm(fmt, csid, rest));
      Attempt(p, LongForm(fmt, csid, rest)) == if o.Chunk? then o.(used := o.used + 1) else o
  {
    hide ParseHeader, Prepare, DataSize, Accept;
    var short, long := ShortForm(fmt, csid, rest), LongForm(fmt, csid, rest);
    LongHeader(p.prevs, fmt, csid, rest);
    var r := ParseHeader(p.prevs, short);
    if r.Full? {
      var msg := Prepare(p.Msg(r.header.csid), r.header);
      var size := DataSize(msg, p.chunkSize);
      if 0 <= size <= |short| - r.total {
        var data := short[r.total..r.total + size];
        assert forall i | 2 <= i < |short| :: long[i + 1] == short[i];
        assert data == long[r.total + 1..r.total + 1 + size];
        var used := r.total + size;
        assert Attempt(p, short) == Accept(p, r.header, msg, data, used);
        assert Attempt(p, long) == Accept(p, r.header, msg, data, used + 1);
        AcceptUsed(p, r.header, msg, data, used);
      }
    }
  }

  lemma AcceptUsed(p: Parser, header: Header, msg: Message, data: Octets, used: nat)
    ensures
      var o := Accept(p, header, msg, data, used);
      o.Chunk? && o.used == used && Accept(p, header, msg, data, used + 1) == o.(used := used + 1)
  {
  }
}
