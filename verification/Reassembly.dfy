/**
 Invariants of reassembly over whole runs, the exact condition under which
 parsing throws, and the bound on what stays unread.
 */
module Reassembly {
  import opened Bytes
  import opened RtmpHeader
  import opened ChunkStep
  import opened Resume

  // ----- When an attempt throws -----

  /** The next chunk is a fmt-1 chunk in mid-message that shortens the message below what has arrived. */
  predicate ShrinksOpenMessage(p: Parser, b: Octets) {
    var r := ParseHeader(p.prevs, b);
    && r.Full? && r.header.fmt == 1
    && var msg := p.Msg(r.header.csid);
       && |msg.payload| < msg.header.msgLen
       && r.header.msgLen < |msg.payload|
  }

  /** The uint32 subtraction of the remaining length goes wrong in exactly this case. */
  lemma ThrowsExactlyWhenShrunk(p: Parser, b: Octets)
    requires ParserOk(p)
    ensures Attempt(p, b).Fault? <==> ShrinksOpenMessage(p, b)
  {
    var r := ParseHeader(p.prevs, b);
    if r.Full? {
      PrepareOk(p, b);
    }
  }

  // ----- What stays unread -----

  lemma StarvedIsShort(p: Parser, b: Octets)
    requires ParserOk(p) && Attempt(p, b).NeedMore?
    ensures |b| <= 17 + p.chunkSize && Attempt(p, b).parser.chunkSize == p.chunkSize
  {
  }

  /** `Parse` has returned: nothing is left, or the next chunk is incomplete and trying again changes nothing. */
  predicate AtRest(r: Receiver) {
    || r.unread == []
    || Attempt(r.parser, r.unread) == NeedMore(r.parser)
  }

  /** All messages handed to the callback are exactly as long as announced. */
  predicate OutOk(out: seq<Message>) {
    forall m | m in out :: |m.payload| == m.header.msgLen <= 0xFFFFFF
  }

  lemma {:induction false} ParseAllAtRest(r: Receiver)
    requires ReceiverOk(r) && OutOk(r.out)
    ensures var e := ParseAll(r);
            && OutOk(e.out)
            && (!e.faulted ==> ParserOk(e.parser) && AtRest(e) && |e.unread| <= 17 + e.parser.chunkSize)
    decreases |r.unread|
  {
    if !r.faulted && r.unread != [] {
      AttemptOk(r.parser, r.unread);
      AttemptProgress(r.parser, r.unread);
      match Attempt(r.parser, r.unread)
      case NeedMore(p) =>
        StarvedIsShort(r.parser, r.unread);
        Restart(r.parser, r.unread, []);
        assert r.unread + [] == r.unread;
      case Fault(p) =>
      case Chunk(p, used, out) =>
        ParseAllAtRest(Receiver(p, r.unread[used..], r.out + out, false));
    }
  }

  /**
   After any reads whatsoever: the chunk size is in 1..65535, every message in
   progress is fresh or strictly short of its length, every delivered message
   is exactly full, at most 17 + chunk size bytes stay unread, and retrying
   without new bytes changes nothing.
   */
  lemma ReachableReceiver(pieces: seq<Octets>)
    ensures var e := FeedAll(INITIAL_RECEIVER, pieces);
            && OutOk(e.out)
            && (!e.faulted ==> ParserOk(e.parser) && AtRest(e) && |e.unread| <= 17 + e.parser.chunkSize)
  {
    FragmentationIndependence(pieces);
    ParseAllAtRest(INITIAL_RECEIVER.(unread := [] + Concat(pieces)));
  }

  // ----- Streams that throw -----

  /** The parser has taken `stream[..k]` as whole chunks and now faces a chunk that shrinks an open message. */
  predicate ShrinksAt(r: Receiver, stream: Octets, k: nat) {
    && k <= |stream|
    && var e := Feed(r, stream[..k]);
       !e.faulted && e.unread == [] && ShrinksOpenMessage(e.parser, stream[k..])
  }

  /** A stream makes the parser throw if and only if, at some chunk boundary, it shrinks an open message. */
  lemma ThrowsIff(stream: Octets)
    ensures Feed(INITIAL_RECEIVER, stream).faulted <==> exists k: nat :: ShrinksAt(INITIAL_RECEIVER, stream, k)
  {
    hide Feed, ShrinksAt;
    if Feed(INITIAL_RECEIVER, stream).faulted {
      var k := ThrowingPoint(INITIAL_RECEIVER, stream);
    }
    forall k: nat | ShrinksAt(INITIAL_RECEIVER, stream, k)
      ensures Feed(INITIAL_RECEIVER, stream).faulted
    {
      ShrinkingThrows(INITIAL_RECEIVER, stream, k);
    }
  }

  lemma ShrinkingThrows(r: Receiver, stream: Octets, k: nat)
    requires ReceiverOk(r) && ShrinksAt(r, stream, k)
    ensures Feed(r, stream).faulted
  {
    hide Attempt, ShrinksOpenMessage, Feed;
    var e, rest := Feed(r, stream[..k]), stream[k..];
    FeedTwice(r, stream[..k], rest);
    assert stream[..k] + rest == stream;
    ThrowsExactlyWhenShrunk(e.parser, rest);
    ThrowingFeed(e, rest);
  }

  /** From an empty buffer, how the first attempt on a stream decides whether the stream throws. */
  lemma ThrowingFeed(r: Receiver, stream: Octets)
    requires !r.faulted && r.unread == []
    ensures
      var o := Attempt(r.parser, stream);
      && (o.Fault? ==> Feed(r, stream).faulted)
      && (o.NeedMore? ==> !Feed(r, stream).faulted)
  {
    assert stream == [] ==> Attempt(r.parser, stream).NeedMore?;
    hide Attempt;
    assert r.unread + stream == stream;
  }

  lemma {:induction false} ThrowingPoint(r: Receiver, stream: Octets) returns (k: nat)
    requires !r.faulted && ParserOk(r.parser) && r.unread == []
    requires Feed(r, stream).faulted
    ensures ShrinksAt(r, stream, k)
    decreases |stream|
  {
    hide Attempt, Feed, ShrinksAt;
    ThrowingFeed(r, stream);
    AttemptOk(r.parser, stream);
    var o := Attempt(r.parser, stream);
    if o.Chunk? {
      FeedChunk(r, stream);
      var next := Receiver(o.parser, [], r.out + o.out, false);
      var rest := ThrowingPoint(next, stream[o.used..]);
      k := o.used + rest;
      ShrinksLater(r, next, stream, o.used, rest);
    } else {
      k := 0;
      ShrinksFirst(r, stream);
    }
  }

  lemma ShrinksFirst(r: Receiver, stream: Octets)
    requires !r.faulted && ParserOk(r.parser) && r.unread == [] && Attempt(r.parser, stream).Fault?
    ensures ShrinksAt(r, stream, 0)
  {
    hide Attempt, ShrinksOpenMessage;
    ThrowsExactlyWhenShrunk(r.parser, stream);
    assert stream[0..] == stream && stream[..0] == [];
    assert r.unread + [] == r.unread;
  }

  lemma ShrinksLater(r: Receiver, next: Receiver, stream: Octets, used: nat, rest: nat)
    requires used <= |stream| && ReceiverOk(r) && Feed(r, stream[..used]) == next
    requires ShrinksAt(next, stream[used..], rest)
    ensures ShrinksAt(r, stream, used + rest)
  {
    hide ShrinksOpenMessage, Feed;
    var k := used + rest;
    FeedTwice(r, stream[..used], stream[used..][..rest]);
    assert stream[..k] == stream[..used] + stream[used..][..rest];
    assert stream[k..] == stream[used..][rest..];
  }

  /** 128 of 200 bytes on csid 3, then a fmt-1 chunk that sets the length to 100. */
  const OVERRUN: Octets :=
    [3, 0, 0, 0, 0, 0, 200, 9, 1, 0, 0, 0] + seq(128, _ => 7) + [0x43, 0, 0, 0, 0, 0, 100, 9]

  lemma OverrunThrows()
    ensures Feed(INITIAL_RECEIVER, OVERRUN).faulted
  {
    hide Attempt, Feed, ShrinksOpenMessage;
    var p := OverrunOpens();
    OverrunShrinks(p);
    ThrowsExactlyWhenShrunk(p, OVERRUN[140..]);
    FeedChunk(INITIAL_RECEIVER, OVERRUN);
    ThrowingFeed(Receiver(p, [], INITIAL_RECEIVER.out + [], false), OVERRUN[140..]);
  }

  lemma OverrunShrinks(p: Parser)
    requires p.Prev(3) == Header(3, 0, 200, 9, 1, 0, false)
    requires p.Msg(3).header == p.Prev(3) && |p.Msg(3).payload| == 128
    ensures ShrinksOpenMessage(p, OVERRUN[140..])
  {
    var last: Octets := [0x43, 0, 0, 0, 0, 0, 100, 9];
    assert OVERRUN[140..] == last;
    assert ParseHeader(p.prevs, last) == Full(Header(3, 0, 100, 9, 1, 1, false), 8);
  }

  lemma OverrunOpens() returns (p: Parser)
    ensures Attempt(INITIAL_PARSER, OVERRUN) == Chunk(p, 140, [])
    ensures ParserOk(p) && p.Prev(3) == Header(3, 0, 200, 9, 1, 0, false)
    ensures p.Msg(3).header == p.Prev(3) && |p.Msg(3).payload| == 128
  {
    var data: Octets := seq(128, _ => 7);
    var header := Header(3, 0, 200, 9, 1, 0, false);
    assert ParseHeader(map[], OVERRUN) == Full(header, 12);
    assert OVERRUN[12..140] == data;
    assert [] + data == data;
    p := Parser(map[3 := header], map[3 := Message(header, data)], 128);
  }
}
