/**
 Concrete streams of a sender that follows the specification and that the
 parser reads as something else.
 */
module Misreadings {
  import opened Bytes
  import opened RtmpHeader
  import opened ChunkStep
  import opened ChunkWriter
  import opened Resume

  /** The first two chunks a stream starts with, and that their messages are the first two delivered. */
  lemma FirstTwo(b: Octets, o1: Outcome, o2: Outcome)
    requires o1.Chunk? && o1 == Attempt(INITIAL_PARSER, b) && |o1.out| == 1 && o1.used <= |b|
    requires o2.Chunk? && o2 == Attempt(o1.parser, b[o1.used..]) && |o2.out| == 1
    ensures var out := Feed(INITIAL_RECEIVER, b).out; |out| >= 2 && out[0] == o1.out[0] && out[1] == o2.out[0]
  {
    hide Attempt;
    var r := INITIAL_RECEIVER;
    FeedChunk(r, b);
    var r1 := Receiver(o1.parser, [], r.out + o1.out, false);
    FeedChunk(r1, b[o1.used..]);
    var r2 := Receiver(o2.parser, [], r1.out + o2.out, false);
    OutGrows(r2.(unread := r2.unread + b[o1.used..][o2.used..]));
    assert r2.out == [o1.out[0], o2.out[0]];
  }

  // ----- A delta with an extended timestamp -----

  const BEFORE := Sent(3, 0, 9, 1, [])
  const LATER := Sent(3, 0xFFFFFF, 9, 1, [7])

  /** `BEFORE` in full, then `LATER` by its delta 0xFFFFFF, which takes an extended timestamp. */
  const EXTENDED_DELTA: Octets :=
    [3, 0, 0, 0, 0, 0, 0, 9, 1, 0, 0, 0] + [0x43, 0xFF, 0xFF, 0xFF, 0, 0, 1, 9, 0, 0xFF, 0xFF, 0xFF, 7]

  lemma ExtendedDeltaBytes()
    ensures EXTENDED_DELTA[..12] == HeaderBytes(BEFORE, BEFORE, 0, false) + BEFORE.payload
    ensures EXTENDED_DELTA[12..] == HeaderBytes(BEFORE, LATER, 1, true) + LATER.payload
    ensures Delta(BEFORE, LATER) >= MAX_TIMESTAMP_IN_HEADER
  {
    assert Delta(BEFORE, LATER) == 0xFFFFFF;
    assert U24BE(0xFFFFFF) == [0xFF, 0xFF, 0xFF] && U24BE(1) == [0, 0, 1] && U32BE(0xFFFFFF) == [0, 0xFF, 0xFF, 0xFF];
    assert MsgHeaderBytes(BEFORE, LATER, 1, true) == [0xFF, 0xFF, 0xFF, 0, 0, 1, 9];
    assert HeaderBytes(BEFORE, LATER, 1, true) == [0x43, 0xFF, 0xFF, 0xFF, 0, 0, 1, 9, 0, 0xFF, 0xFF, 0xFF];
  }

  /** The extended timestamp is taken for data: the second message arrives with a byte of it as its payload. */
  lemma ExtendedDeltaMisread()
    ensures
      var out := Feed(INITIAL_RECEIVER, EXTENDED_DELTA).out;
      |out| >= 2 && out[1].payload == [0] && !Delivers(out[1], LATER)
  {
    hide Feed;
    hide ParseHeader;
    var p1 := ExtendedDeltaFirst();
    var b := EXTENDED_DELTA[12..];
    assert b == [0x43, 0xFF, 0xFF, 0xFF, 0, 0, 1, 9, 0, 0xFF, 0xFF, 0xFF, 7];
    ExtendedDeltaHeader(p1.prevs, b);
    assert b[8..9] == [0] && [] + [0] == [0];
    FirstTwo(EXTENDED_DELTA, Attempt(INITIAL_PARSER, EXTENDED_DELTA), Attempt(p1, b));
  }

  lemma ExtendedDeltaHeader(prevs: map<int, Header>, b: Octets)
    requires PrevOf(prevs, 3) == Header(3, 0, 0, 9, 1, 0, false)
    requires b == [0x43, 0xFF, 0xFF, 0xFF, 0, 0, 1, 9, 0, 0xFF, 0xFF, 0xFF, 7]
    ensures ParseHeader(prevs, b) == Full(Header(3, 0xFFFFFF, 1, 9, 1, 1, false), 8)
  {
  }

  lemma ExtendedDeltaFirst() returns (p: Parser)
    ensures
      var o := Attempt(INITIAL_PARSER, EXTENDED_DELTA);
      o == Chunk(p, 12, [Message(Header(3, 0, 0, 9, 1, 0, false), [])])
    ensures p.Prev(3) == Header(3, 0, 0, 9, 1, 0, false) && p.Msg(3) == FRESH_MESSAGE && p.chunkSize == 128
  {
    var b := EXTENDED_DELTA;
    assert ParseHeader(map[], b) == Full(Header(3, 0, 0, 9, 1, 0, false), 12);
    p := Attempt(INITIAL_PARSER, b).parser;
  }

  // ----- A fmt-3 start -----

  const AT_40 := Sent(4, 40, 8, 1, [7])
  const AT_80 := Sent(4, 80, 8, 1, [7])

  /** `AT_40` in full, then `AT_80` by a fmt-3 start: the specification repeats the delta, which is 40. */
  const SAME_DELTA: Octets := [4, 0, 0, 40, 0, 0, 1, 8, 1, 0, 0, 0, 7] + [0xC4, 7]

  lemma SameDeltaBytes()
    ensures SAME_DELTA[..13] == HeaderBytes(AT_40, AT_40, 0, false) + AT_40.payload
    ensures SAME_DELTA[13..] == HeaderBytes(AT_40, AT_80, 3, false) + AT_80.payload
  {
  }

  /** Both messages arrive at time 40. */
  lemma SameDeltaMisread()
    ensures
      var out := Feed(INITIAL_RECEIVER, SAME_DELTA).out;
      && |out| >= 2 && Delivers(out[0], AT_40) && !Delivers(out[1], AT_80)
      && Delivers(out[1], AT_80.(timestamp := 40))
  {
    hide Feed;
    var p1 := SameDeltaFirst();
    var b := SAME_DELTA[13..];
    assert b == [0xC4, 7];
    assert ParseHeader(p1.prevs, b) == Full(Header(4, 40, 1, 8, 1, 3, false), 1);
    assert b[1..2] == [7] && [] + [7] == [7];
    FirstTwo(SAME_DELTA, Attempt(INITIAL_PARSER, SAME_DELTA), Attempt(p1, b));
  }

  lemma SameDeltaFirst() returns (p: Parser)
    ensures
      var o := Attempt(INITIAL_PARSER, SAME_DELTA);
      o == Chunk(p, 13, [Message(Header(4, 40, 1, 8, 1, 0, false), [7])])
    ensures p.Prev(4) == Header(4, 40, 1, 8, 1, 0, false) && p.Msg(4) == FRESH_MESSAGE && p.chunkSize == 128
  {
    var b := SAME_DELTA;
    assert ParseHeader(map[], b) == Full(Header(4, 40, 1, 8, 1, 0, false), 12);
    assert b[12..13] == [7] && [] + [7] == [7];
    p := Attempt(INITIAL_PARSER, b).parser;
  }
}
