/**
 Byte streams as sequences of whole chunks: every stream splits into chunks
 and an unread rest; a csid's chunks can be parsed alone; and timestamps
 accumulate per csid.
 */
module ChunkRuns {
  import opened Bytes
  import opened RtmpHeader
  import opened ChunkStep
  import opened Resume

  // ----- Runs over whole chunks -----

  predicate TakesExactly(p: Parser, x: Octets) {
    var o := Attempt(p, x);
    o.Chunk? && o.used == |x|
  }

  /** Each element is exactly one chunk for the parser that has taken the ones before. */
  predicate Exact(p: Parser, cs: seq<Octets>)
    decreases |cs|
  {
    cs == [] || (TakesExactly(p, cs[0]) && Exact(Attempt(p, cs[0]).parser, cs[1..]))
  }

  function After(p: Parser, cs: seq<Octets>): Parser
    requires Exact(p, cs)
    decreases |cs|
  {
    if cs == [] then p else After(Attempt(p, cs[0]).parser, cs[1..])
  }

  function Out(p: Parser, cs: seq<Octets>): seq<Message>
    requires Exact(p, cs)
    decreases |cs|
  {
    if cs == [] then [] else Attempt(p, cs[0]).out + Out(Attempt(p, cs[0]).parser, cs[1..])
  }

  /** The chunks a parser takes from a stream. */
  function Split(p: Parser, b: Octets): seq<Octets>
    decreases |b|
  {
    AttemptProgress(p, b);
    var o := Attempt(p, b);
    if o.Chunk? then [b[..o.used]] + Split(o.parser, b[o.used..]) else []
  }

  /** Every stream is a run of whole chunks, delivering what they deliver, and a rest that is not a whole chunk. */
  lemma {:induction false} StreamIsChunks(r: Receiver, b: Octets)
    requires !r.faulted && r.unread == []
    ensures
      var cs := Split(r.parser, b);
      && Exact(r.parser, cs) && |Concat(cs)| <= |b| && b[..|Concat(cs)|] == Concat(cs)
      && Feed(r, b) == Feed(Receiver(After(r.parser, cs), [], r.out + Out(r.parser, cs), false), b[|Concat(cs)|..])
      && !Attempt(After(r.parser, cs), b[|Concat(cs)|..]).Chunk?
    decreases |b|
  {
    hide Attempt;
    AttemptProgress(r.parser, b);
    var o := Attempt(r.parser, b);
    if o.Chunk? {
      FeedChunk(r, b);
      ChunkAlone(r.parser, b);
      var next := Receiver(o.parser, [], r.out + o.out, false);
      var x, rest := b[..o.used], b[o.used..];
      StreamIsChunks(next, rest);
      var cs := Split(next.parser, rest);
      assert Split(r.parser, b) == [x] + cs;
      assert ([x] + cs)[1..] == cs;
      assert b == x + rest;
      assert b[..o.used + |Concat(cs)|] == x + rest[..|Concat(cs)|];
      assert b[o.used + |Concat(cs)|..] == rest[|Concat(cs)|..];
      assert r.out + o.out + Out(next.parser, cs) == r.out + (o.out + Out(next.parser, cs));
    } else {
      assert b[..0] == [] && b[0..] == b;
      assert r.out + [] == r.out;
    }
  }

  /** Bytes that are not a whole chunk stay unread; the attempt on them may touch the parser, or throw. */
  lemma FeedRest(r: Receiver, x: Octets)
    requires !r.faulted && r.unread == [] && !Attempt(r.parser, x).Chunk?
    ensures
      var o := Attempt(r.parser, x);
      Feed(r, x) == Receiver(o.parser, x, r.out, o.Fault?)
  {
    assert x == [] ==> Attempt(r.parser, x) == NeedMore(r.parser);
    hide Attempt;
    assert r.unread + x == x;
  }

  /** Feeding whole chunks, joined, is running over them. */
  lemma {:induction false} FeedChunks(r: Receiver, cs: seq<Octets>)
    requires !r.faulted && r.unread == [] && ParserOk(r.parser) && Exact(r.parser, cs)
    ensures Feed(r, Concat(cs)) == Receiver(After(r.parser, cs), [], r.out + Out(r.parser, cs), false)
    decreases |cs|
  {
    hide Attempt;
    if cs == [] {
      assert r.unread + [] == [];
    } else {
      var x, rest := cs[0], cs[1..];
      AttemptOk(r.parser, x);
      Settled(r.parser, x, Concat(rest));
      FeedChunk(r, x + Concat(rest));
      var o := Attempt(r.parser, x);
      assert (x + Concat(rest))[o.used..] == Concat(rest);
      FeedChunks(Receiver(o.parser, [], r.out + o.out, false), rest);
      assert r.out + o.out + Out(o.parser, rest) == r.out + (o.out + Out(o.parser, rest));
    }
  }

  // ----- One csid alone -----

  function CsidOf(x: Octets): int {
    var r := ParseBasicHeader(x);
    if r.Basic? then r.csid else -1
  }

  function FmtOf(x: Octets): Fmt {
    var r := ParseBasicHeader(x);
    if r.Basic? then r.fmt else 3
  }

  /** The chunks of one csid, in order. */
  function Mine(cs: seq<Octets>, c: int): seq<Octets> {
    if cs == [] then []
    else if CsidOf(cs[0]) == c then [cs[0]] + Mine(cs[1..], c)
    else Mine(cs[1..], c)
  }

  /** The messages completed by chunks of one csid. */
  function OutOn(p: Parser, cs: seq<Octets>, c: int): seq<Message>
    requires Exact(p, cs)
    decreases |cs|
  {
    if cs == [] then []
    else
      var o := Attempt(p, cs[0]);
      (if CsidOf(cs[0]) == c then o.out else []) + OutOn(o.parser, cs[1..], c)
  }

  /** No message of the run changes the chunk size. */
  predicate Steady(p: Parser, cs: seq<Octets>)
    decreases |cs|
  {
    cs == [] || (Attempt(p, cs[0]).parser.chunkSize == p.chunkSize && Steady(Attempt(p, cs[0]).parser, cs[1..]))
  }

  /** Two parsers that know the same about csid `c`. */
  predicate SameLane(p: Parser, q: Parser, c: int) {
    p.chunkSize == q.chunkSize && p.Prev(c) == q.Prev(c) && p.Msg(c) == q.Msg(c)
  }

  /** A header belongs to the csid of its first bytes, and only that csid's history is consulted. */
  lemma HeaderLane(prevs: map<int, Header>, prevs': map<int, Header>, x: Octets)
    ensures ParseHeader(prevs, x).Full? ==> ParseHeader(prevs, x).header.csid == CsidOf(x)
    ensures PrevOf(prevs, CsidOf(x)) == PrevOf(prevs', CsidOf(x)) ==> ParseHeader(prevs, x) == ParseHeader(prevs', x)
  {
  }

  /** An attempt on bytes of another csid does not show on `c`. */
  lemma ForeignChunk(p: Parser, x: Octets, c: int)
    requires CsidOf(x) != c
    ensures
      var o := Attempt(p, x);
      && o.parser.Prev(c) == p.Prev(c) && o.parser.Msg(c) == p.Msg(c)
      && (!o.Chunk? ==> o.parser.chunkSize == p.chunkSize)
  {
    hide ParseHeader, Prepare, DataSize, NextChunkSize;
    TouchedLane(p, x);
    HeaderLane(p.prevs, p.prevs, x);
  }

  lemma TouchedLane(p: Parser, x: Octets)
    ensures var r := ParseHeader(p.prevs, x); r.ShortOfExtTs? ==> r.csid == CsidOf(x)
  {
  }

  /** An attempt on bytes of `c` goes alike for parsers that know the same about `c`. */
  lemma OwnChunk(p: Parser, q: Parser, x: Octets, c: int)
    requires SameLane(p, q, c) && CsidOf(x) == c
    ensures
      var o, o' := Attempt(p, x), Attempt(q, x);
      && (o.Chunk? <==> o'.Chunk?) && (o.Fault? <==> o'.Fault?)
      && (o.Chunk? ==> o.used == o'.used && o.out == o'.out)
      && SameLane(o.parser, o'.parser, c)
  {
    hide ParseHeader, CsidOf, Prepare, DataSize, NextChunkSize;
    TouchedLane(p, x);
    HeaderLane(p.prevs, q.prevs, x);
  }

  /**
   Demultiplexing: at a fixed chunk size, a csid's messages, history header
   and partial payload after any interleaved run are what its own chunks
   would have given alone.
   */
  lemma {:induction false} Demultiplex(p: Parser, q: Parser, cs: seq<Octets>, c: int)
    requires Exact(p, cs) && Steady(p, cs) && SameLane(p, q, c)
    ensures Exact(q, Mine(cs, c))
    ensures Out(q, Mine(cs, c)) == OutOn(p, cs, c)
    ensures SameLane(After(p, cs), After(q, Mine(cs, c)), c)
    decreases |cs|
  {
    hide Attempt, CsidOf;
    if cs != [] {
      var x, rest := cs[0], cs[1..];
      var o := Attempt(p, x);
      if CsidOf(x) == c {
        OwnChunk(p, q, x, c);
        Demultiplex(o.parser, Attempt(q, x).parser, rest, c);
        assert ([x] + Mine(rest, c))[1..] == Mine(rest, c);
      } else {
        ForeignChunk(p, x, c);
        Demultiplex(o.parser, q, rest, c);
      }
    }
  }

  /** The bytes of one csid in a stream: its whole chunks, and the unread rest if that is the start of one more. */
  function BytesOf(cs: seq<Octets>, rest: Octets, c: int): Octets {
    Concat(Mine(cs, c)) + if CsidOf(rest) == c then rest else []
  }

  /**
   The same for byte streams, incomplete last chunk and exception included: a
   parser of its own, fed the bytes of one csid, delivers that csid's messages
   and knows about the csid what the stream's own parser knows.
   */
  lemma DemultiplexStream(stream: Octets, c: int)
    requires Steady(INITIAL_PARSER, Split(INITIAL_PARSER, stream))
    ensures
      var cs := Split(INITIAL_PARSER, stream);
      var all := Feed(INITIAL_RECEIVER, stream);
      var alone := Feed(INITIAL_RECEIVER, BytesOf(cs, all.unread, c));
      && Exact(INITIAL_PARSER, cs)
      && stream == Concat(cs) + all.unread
      && all.out == Out(INITIAL_PARSER, cs)
      && alone.out == OutOn(INITIAL_PARSER, cs, c)
      && SameLane(all.parser, alone.parser, c)
      && (if CsidOf(all.unread) == c then alone.unread == all.unread && alone.faulted == all.faulted
          else alone.unread == [] && !alone.faulted)
  {
    hide Feed, Exact, Split, Attempt, CsidOf, Steady, After, Out, OutOn, Mine;
    StreamIsChunks(INITIAL_RECEIVER, stream);
    var cs := Split(INITIAL_PARSER, stream);
    var rest := stream[|Concat(cs)|..];
    Demultiplex(INITIAL_PARSER, INITIAL_PARSER, cs, c);
    FeedChunks(INITIAL_RECEIVER, Mine(cs, c));
    var end, end' := After(INITIAL_PARSER, cs), After(INITIAL_PARSER, Mine(cs, c));
    var r := Receiver(end, [], INITIAL_RECEIVER.out + Out(INITIAL_PARSER, cs), false);
    var r' := Receiver(end', [], INITIAL_RECEIVER.out + Out(INITIAL_PARSER, Mine(cs, c)), false);
    assert r.out == Out(INITIAL_PARSER, cs) && r'.out == Out(INITIAL_PARSER, Mine(cs, c));
    FeedRest(r, rest);
    if CsidOf(rest) == c {
      OwnChunk(end, end', rest, c);
      FeedRest(r', rest);
      FeedTwice(INITIAL_RECEIVER, Concat(Mine(cs, c)), rest);
    } else {
      ForeignChunk(end, rest, c);
      assert Concat(Mine(cs, c)) + [] == Concat(Mine(cs, c));
    }
  }

  // ----- Timestamps -----

  /** The 24-bit time field of a fmt 0, 1 or 2 chunk. */
  function TimeOf(x: Octets): U32 {
    var r := ParseBasicHeader(x);
    if r.Basic? && r.fmt <= 2 && r.len + 3 <= |x| then ReadU24BE(x, r.len) else 0
  }

  /** No chunk of the csid announces an extended timestamp. */
  predicate NoExtTs(xs: seq<Octets>) {
    forall x | x in xs :: FmtOf(x) == 0 ==> TimeOf(x) < MAX_TIMESTAMP_IN_HEADER
  }

  /** The delta a chunk carries: fmt 1 and 2 have one, fmt 3 adds nothing. */
  function DeltaOf(x: Octets): nat {
    if FmtOf(x) == 1 || FmtOf(x) == 2 then TimeOf(x) else 0
  }

  function DeltaSum(xs: seq<Octets>): nat {
    if xs == [] then 0 else DeltaOf(xs[0]) + DeltaSum(xs[1..])
  }

  /** The time of a csid after one more of its chunks. */
  function Tick(t: U32, x: Octets): U32 {
    if FmtOf(x) == 0 then TimeOf(x) else (t as int + DeltaOf(x)) % 0x1_0000_0000
  }

  function Advance(t: U32, xs: seq<Octets>): U32
    decreases |xs|
  {
    if xs == [] then t else Advance(Tick(t, xs[0]), xs[1..])
  }

  lemma ChunkTime(p: Parser, x: Octets)
    requires TakesExactly(p, x) && !p.Prev(CsidOf(x)).hasExtTs
    requires FmtOf(x) == 0 ==> TimeOf(x) < MAX_TIMESTAMP_IN_HEADER
    ensures
      var o := Attempt(p, x); var prev := o.parser.Prev(CsidOf(x));
      && !prev.hasExtTs
      && prev.timestamp == Tick(p.Prev(CsidOf(x)).timestamp, x)
      && (forall m | m in o.out :: m.header.timestamp == prev.timestamp)
  {
    hide ReadU24BE, DataSize, ReadU32LE;
    var r := ParseBasicHeader(x);
    assert r.fmt <= 2 ==> r.len + 3 <= |x|;
  }

  lemma {:induction false} RunTime(p: Parser, cs: seq<Octets>, c: int)
    requires Exact(p, cs) && NoExtTs(Mine(cs, c)) && !p.Prev(c).hasExtTs
    ensures After(p, cs).Prev(c).timestamp == Advance(p.Prev(c).timestamp, Mine(cs, c))
    ensures !After(p, cs).Prev(c).hasExtTs
    decreases |cs|
  {
    hide Attempt, CsidOf, FmtOf, TimeOf, Tick;
    if cs != [] {
      var x, rest := cs[0], cs[1..];
      var next := Attempt(p, x).parser;
      if CsidOf(x) == c {
        assert Mine(cs, c) == [x] + Mine(rest, c);
        assert x in Mine(cs, c) && forall y | y in Mine(rest, c) :: y in Mine(cs, c);
        ChunkTime(p, x);
        RunTime(next, rest, c);
        assert ([x] + Mine(rest, c))[1..] == Mine(rest, c);
      } else {
        ForeignChunk(p, x, c);
        RunTime(next, rest, c);
      }
    }
  }

  lemma WrapOnce(x: int, y: int)
    ensures (x % 0x1_0000_0000 + y) % 0x1_0000_0000 == (x + y) % 0x1_0000_0000
  {
  }

  /** Only the last fmt-0 chunk and the deltas after it count. */
  lemma {:induction false} AdvanceFrom(t: U32, xs: seq<Octets>)
    requires forall x | x in xs :: FmtOf(x) != 0
    ensures Advance(t, xs) == (t as int + DeltaSum(xs)) % 0x1_0000_0000
    decreases |xs|
  {
    hide FmtOf, TimeOf, DeltaOf;
    if xs != [] {
      AdvanceFrom(Tick(t, xs[0]), xs[1..]);
      WrapOnce(t as int + DeltaOf(xs[0]), DeltaSum(xs[1..]));
    }
  }

  lemma {:induction false} AdvancePast(t: U32, xs: seq<Octets>, k: nat)
    requires k < |xs| && FmtOf(xs[k]) == 0 && forall j | k < j < |xs| :: FmtOf(xs[j]) != 0
    ensures Advance(t, xs) == (TimeOf(xs[k]) as int + DeltaSum(xs[k + 1..])) % 0x1_0000_0000
    decreases k
  {
    hide FmtOf, TimeOf, DeltaOf, DeltaSum;
    if k == 0 {
      AdvanceFrom(TimeOf(xs[0]), xs[1..]);
    } else {
      AdvancePast(Tick(t, xs[0]), xs[1..], k - 1);
      assert xs[1..][k..] == xs[k + 1..];
    }
  }

  /**
   Timestamp accumulation: on a csid without extended timestamps, a message
   carries the last fmt-0 time plus all deltas since, modulo 2^32, whatever
   fmt-3 chunks and chunks of other csids lie between.
   */
  lemma TimestampAccumulates(p: Parser, cs: seq<Octets>, x: Octets, k: nat)
    requires Exact(p, cs) && TakesExactly(After(p, cs), x) && !p.Prev(CsidOf(x)).hasExtTs
    requires
      var xs := Mine(cs, CsidOf(x)) + [x];
      && NoExtTs(xs)
      && k < |xs| && FmtOf(xs[k]) == 0 && forall j | k < j < |xs| :: FmtOf(xs[j]) != 0
    ensures
      var xs := Mine(cs, CsidOf(x)) + [x];
      forall m | m in Attempt(After(p, cs), x).out ::
        m.header.timestamp == (TimeOf(xs[k]) as int + DeltaSum(xs[k + 1..])) % 0x1_0000_0000
  {
    hide Attempt, CsidOf, FmtOf, TimeOf, DeltaSum, Tick;
    var c := CsidOf(x);
    var mine := Mine(cs, c);
    assert forall y | y in mine :: y in mine + [x];
    RunTime(p, cs, c);
    assert x in mine + [x];
    ChunkTime(After(p, cs), x);
    AdvanceAppend(p.Prev(c).timestamp, mine, [x]);
    AdvancePast(p.Prev(c).timestamp, mine + [x], k);
  }

  lemma {:induction false} AdvanceAppend(t: U32, xs: seq<Octets>, ys: seq<Octets>)
    ensures Advance(t, xs + ys) == Advance(Advance(t, xs), ys)
    decreases |xs|
  {
    hide Tick;
    if xs == [] {
      assert xs + ys == ys;
    } else {
      AdvanceAppend(Tick(t, xs[0]), xs[1..], ys);
      assert (xs + ys)[1..] == xs[1..] + ys;
    }
  }
}
