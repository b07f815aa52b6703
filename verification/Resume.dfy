/**
 Parsing does not depend on how TCP cut the stream.

 An attempt that stops for lack of bytes has already touched the history and
 the message in progress. The central fact is that retrying from the touched
 state gives what a first attempt on the longer buffer would have given.
 */
module Resume {
  import opened Bytes
  import opened RtmpHeader
  import opened ChunkStep

  // ----- The invariant of reachable parsers -----

  /** As long as the length is not below what has arrived, the data size is the plain difference, capped. */
  lemma DataSizeIs(msg: Message, chunkSize: int)
    requires |msg.payload| <= msg.header.msgLen <= 0xFFFFFF
    ensures DataSize(msg, chunkSize) == Min(msg.header.msgLen - |msg.payload|, chunkSize)
  {
  }

  lemma PrepareOk(p: Parser, b: Octets)
    requires ParserOk(p) && ParseHeader(p.prevs, b).Full?
    ensures var h := ParseHeader(p.prevs, b).header; var m := Prepare(p.Msg(h.csid), h);
            && h.msgLen <= 0xFFFFFF && m.header.msgLen <= 0xFFFFFF && |m.payload| <= 0xFFFFFF
            && DataSize(m, p.chunkSize) == Min(m.header.msgLen - |m.payload|, p.chunkSize)
            && (DataSize(m, p.chunkSize) > 0 ==> MessageOk(m))
  {
  }

  /** Unless the attempt throws, reachable parsers stay well-formed; and a delivered message is exactly full. */
  lemma AttemptOk(p: Parser, b: Octets)
    requires ParserOk(p)
    ensures var o := Attempt(p, b);
            && (!o.Fault? ==> ParserOk(o.parser))
            && (o.Chunk? ==> |o.out| <= 1 && forall m | m in o.out :: |m.payload| == m.header.msgLen <= 0xFFFFFF)
  {
    hide ParseHeader, Prepare, DataSize;
    var r := ParseHeader(p.prevs, b);
    if r.Full? {
      PrepareOk(p, b);
    }
  }

  // ----- One attempt on a longer buffer -----

  lemma ReadsPrefix(b: Octets, more: Octets, at: nat)
    ensures at + 3 <= |b| ==> ReadU24BE(b + more, at) == ReadU24BE(b, at)
    ensures at + 4 <= |b| ==> ReadU32BE(b + more, at) == ReadU32BE(b, at)
    ensures at + 4 <= |b| ==> ReadU32LE(b + more, at) == ReadU32LE(b, at)
  {
  }

  lemma FieldsPrefix(prev: Header, fmt: Fmt, csid: nat, b: Octets, more: Octets, at: nat)
    requires at + MsgHeaderSize(fmt) <= |b|
    ensures ReadFields(prev, fmt, csid, b + more, at) == ReadFields(prev, fmt, csid, b, at)
    ensures ExpectsExtTs(prev, fmt, b + more, at) == ExpectsExtTs(prev, fmt, b, at)
  {
    ReadsPrefix(b, more, at);
    ReadsPrefix(b, more, at + 3);
    ReadsPrefix(b, more, at + 7);
  }

  lemma BasicHeaderPrefix(b: Octets, more: Octets)
    ensures ParseBasicHeader(b).Basic? ==> ParseBasicHeader(b + more) == ParseBasicHeader(b)
  {
  }

  /** More bytes never change a header that was already readable, nor the csid it belongs to. */
  lemma HeaderPrefix(prevs: map<int, Header>, b: Octets, more: Octets)
    ensures var r := ParseHeader(prevs, b); var r' := ParseHeader(prevs, b + more);
            && (r.Full? ==> r' == r)
            && (r.ShortOfExtTs? ==> (r'.ShortOfExtTs? && r'.csid == r.csid) || (r'.Full? && r'.header.csid == r.csid))
  {
    BasicHeaderPrefix(b, more);
    match ParseBasicHeader(b)
    case BasicShort =>
    case Basic(fmt, csid, len) =>
      var at := len + MsgHeaderSize(fmt);
      if at <= |b| {
        FieldsPrefix(PrevOf(prevs, csid), fmt, csid, b, more, len);
        ReadsPrefix(b, more, at);
      }
  }

  /** Dropping bytes behind a readable header leaves it readable. */
  lemma HeaderCut(prevs: map<int, Header>, b: Octets, n: nat)
    requires n <= |b| && ParseHeader(prevs, b).Full? && ParseHeader(prevs, b).total <= n
    ensures ParseHeader(prevs, b[..n]) == ParseHeader(prevs, b)
  {
    var cut := b[..n];
    assert cut + b[n..] == b;
    var r := ParseBasicHeader(b);
    assert ParseBasicHeader(cut) == r;
    var at := r.len + MsgHeaderSize(r.fmt);
    FieldsPrefix(PrevOf(prevs, r.csid), r.fmt, r.csid, cut, b[n..], r.len);
    ReadsPrefix(cut, b[n..], at);
  }

  // ----- Retrying from a touched state -----

  /** Touching the history of a csid is invisible to the header parser. */
  lemma HeaderTouched(p: Parser, csid: int, b: Octets)
    ensures ParseHeader(Touched(p, csid).prevs, b) == ParseHeader(p.prevs, b)
  {
    assert forall c :: PrevOf(Touched(p, csid).prevs, c) == PrevOf(p.prevs, c);
  }

  /** Preparing a message twice for the same header is preparing it once, as long as data is still wanted. */
  lemma PrepareIdempotent(msg: Message, header: Header)
    requires |msg.payload| <= 0xFFFFFF && header.msgLen <= 0xFFFFFF && msg.header.msgLen <= 0xFFFFFF
    requires DataSize(Prepare(msg, header), MAX_CHUNK_SIZE) > 0
    ensures Prepare(Prepare(msg, header), header) == Prepare(msg, header)
  {
  }

  lemma Overwrite<K, V>(m: map<K, V>, k: K, v: V, w: V)
    ensures m[k := v][k := w] == m[k := w]
  {
  }

  /** Taking the data does not see that the history entry was made, or the message prepared, before. */
  lemma TakeDataTouched(p: Parser, q: Parser, header: Header, total: nat, b: Octets)
    requires total <= |b|
    requires
      var c := header.csid; var t := Touched(p, c);
      || q == t
      || (q == t.(inProgress := p.inProgress[c := q.Msg(c)]) && Prepare(q.Msg(c), header) == Prepare(p.Msg(c), header))
    ensures TakeData(q, header, total, b) == TakeData(p, header, total, b)
  {
    var c := header.csid;
    var msg := Prepare(p.Msg(c), header);
    var size := DataSize(msg, p.chunkSize);
    assert q.prevs == p.prevs[c := p.Prev(c)];
    assert q.Msg(c) == p.Msg(c) || q.inProgress == p.inProgress[c := q.Msg(c)];
    Overwrite(p.prevs, c, p.Prev(c), header);
    Overwrite(p.prevs, c, p.Prev(c), q.Prev(c));
    Overwrite(p.inProgress, c, q.Msg(c), msg);
    Overwrite(p.inProgress, c, q.Msg(c), FRESH_MESSAGE);
    if 0 <= size && total + size <= |b| {
      var full := msg.(payload := msg.payload + b[total..total + size]);
      Overwrite(p.inProgress, c, q.Msg(c), full);
    }
  }

  /** Every "need more data" exit is restartable although it may have changed the parser. */
  lemma Restart(p: Parser, b: Octets, more: Octets)
    requires ParserOk(p) && Attempt(p, b).NeedMore?
    ensures Attempt(Attempt(p, b).parser, b + more) == Attempt(p, b + more)
  {
    HeaderPrefix(p.prevs, b, more);
    match ParseHeader(p.prevs, b)
    case ShortOfMessageHeader =>
    case ShortOfExtTs(csid) =>
      var q := Touched(p, csid);
      HeaderTouched(p, csid, b + more);
      assert q.prevs[csid := q.Prev(csid)] == q.prevs;
      var r := ParseHeader(p.prevs, b + more);
      if r.Full? {
        TakeDataTouched(p, q, r.header, r.total, b + more);
      }
    case Full(header, total) =>
      var q := Attempt(p, b).parser;
      PrepareOk(p, b);
      PrepareIdempotent(p.Msg(header.csid), header);
      HeaderTouched(p, header.csid, b + more);
      TakeDataTouched(p, q, header, total, b + more);
  }

  /** An attempt that got as far as taking data, or throwing, does not look at the bytes after its chunk. */
  lemma Settled(p: Parser, b: Octets, more: Octets)
    requires ParserOk(p) && !Attempt(p, b).NeedMore?
    ensures Attempt(p, b + more) == Attempt(p, b)
  {
    hide ParseHeader, Prepare;
    HeaderPrefix(p.prevs, b, more);
    PrepareOk(p, b);
    var r := ParseHeader(p.prevs, b);
    var size := DataSize(Prepare(p.Msg(r.header.csid), r.header), p.chunkSize);
    if size >= 0 {
      assert (b + more)[r.total..r.total + size] == b[r.total..r.total + size];
    }
  }

  /** The bytes an attempt used are a chunk by themselves. */
  lemma ChunkAlone(p: Parser, b: Octets)
    requires Attempt(p, b).Chunk?
    ensures var o := Attempt(p, b); 1 <= o.used <= |b| && Attempt(p, b[..o.used]) == o
  {
    hide ParseHeader, Prepare, DataSize;
    var o := Attempt(p, b);
    var r := ParseHeader(p.prevs, b);
    HeaderCut(p.prevs, b, o.used);
    assert b[..o.used][r.total..o.used] == b[r.total..o.used];
  }

  // ----- The whole stream -----

  predicate ReceiverOk(r: Receiver) {
    !r.faulted ==> ParserOk(r.parser)
  }

  lemma {:induction false} ParseAllOk(r: Receiver)
    requires ReceiverOk(r)
    ensures ReceiverOk(ParseAll(r))
    decreases |r.unread|
  {
    hide Attempt;
    if !r.faulted && r.unread != [] {
      AttemptOk(r.parser, r.unread);
      AttemptProgress(r.parser, r.unread);
      match Attempt(r.parser, r.unread)
      case NeedMore(p) =>
      case Fault(p) =>
      case Chunk(p, used, out) => ParseAllOk(Receiver(p, r.unread[used..], r.out + out, false));
    }
  }

  /** Parsing what is there, then appending and parsing again, is appending first and parsing once. */
  lemma {:induction false} ParseThenExtend(r: Receiver, more: Octets)
    requires ReceiverOk(r)
    ensures Feed(ParseAll(r), more) == Feed(r, more)
    decreases |r.unread|
  {
    hide Attempt;
    var whole := r.(unread := r.unread + more);
    if !r.faulted && r.unread != [] {
      AttemptOk(r.parser, r.unread);
      AttemptProgress(r.parser, r.unread);
      match Attempt(r.parser, r.unread)
      case NeedMore(p) =>
        Restart(r.parser, r.unread, more);
      case Fault(p) =>
        Settled(r.parser, r.unread, more);
      case Chunk(p, used, out) =>
        Settled(r.parser, r.unread, more);
        assert whole.unread[used..] == r.unread[used..] + more;
        ParseThenExtend(Receiver(p, r.unread[used..], r.out + out, false), more);
    }
  }

  /** Two reads deliver what one read of the joined bytes delivers, and leave the same state behind. */
  lemma FeedTwice(r: Receiver, a: Octets, b: Octets)
    requires ReceiverOk(r)
    ensures Feed(Feed(r, a), b) == Feed(r, a + b)
    ensures ReceiverOk(Feed(r, a))
  {
    hide Attempt, ParseAll;
    var first := r.(unread := r.unread + a);
    ParseAllOk(first);
    ParseThenExtend(first, b);
    assert r.unread + (a + b) == first.unread + b;
  }

  /**
   Fragmentation independence, for every byte stream and every way of cutting
   it into reads: the same messages in the same order, the same history, the
   same messages in progress, the same chunk size, the same unread bytes, and
   the exception thrown in one cutting exactly if it is thrown in the other.
   */
  lemma {:induction false} FragmentationIndependence(pieces: seq<Octets>)
    ensures FeedAll(INITIAL_RECEIVER, pieces) == Feed(INITIAL_RECEIVER, Concat(pieces))
  {
    if pieces != [] {
      assert INITIAL_RECEIVER.unread + pieces[0] == pieces[0];
      FragmentationFrom(Feed(INITIAL_RECEIVER, pieces[0]), pieces[1..], INITIAL_RECEIVER, pieces[0]);
    }
  }

  lemma {:induction false} FragmentationFrom(r: Receiver, pieces: seq<Octets>, start: Receiver, first: Octets)
    requires ReceiverOk(start) && r == Feed(start, first)
    ensures FeedAll(r, pieces) == Feed(start, first + Concat(pieces))
    decreases |pieces|
  {
    if pieces == [] {
      assert first + Concat(pieces) == first;
    } else {
      FeedTwice(start, first, pieces[0]);
      FragmentationFrom(Feed(r, pieces[0]), pieces[1..], start, first + pieces[0]);
      assert (first + pieces[0]) + Concat(pieces[1..]) == first + Concat(pieces);
    }
  }

  /** From an empty buffer, a stream that starts with a whole chunk: the chunk alone, and what follows it. */
  lemma FeedChunk(r: Receiver, b: Octets)
    requires !r.faulted && r.unread == [] && Attempt(r.parser, b).Chunk?
    ensures
      var o := Attempt(r.parser, b);
      var next := Receiver(o.parser, [], r.out + o.out, false);
      && 1 <= o.used <= |b|
      && Feed(r, b[..o.used]) == next
      && Feed(r, b) == Feed(next, b[o.used..])
  {
    hide Attempt;
    var o := Attempt(r.parser, b);
    ChunkAlone(r.parser, b);
    var next := Receiver(o.parser, [], r.out + o.out, false);
    var chunk := b[..o.used];
    assert r.unread + b == b && r.unread + chunk == chunk;
    assert next.unread + b[o.used..] == b[o.used..];
    assert chunk[o.used..] == [];
    assert ParseAll(next) == next;
  }

  /** What has been delivered stays delivered. */
  lemma {:induction false} OutGrows(r: Receiver)
    ensures r.out <= ParseAll(r).out
    decreases |r.unread|
  {
    hide Attempt;
    if !r.faulted && r.unread != [] {
      AttemptProgress(r.parser, r.unread);
      match Attempt(r.parser, r.unread)
      case NeedMore(p) =>
      case Fault(p) =>
      case Chunk(p, used, out) => OutGrows(Receiver(p, r.unread[used..], r.out + out, false));
    }
  }
}
