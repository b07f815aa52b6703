/**
 The exact condition for the parser to stay aligned with an interleaved chunk
 stream: every chunk carries an extended timestamp exactly if the parser looks
 for one. For senders that follow section 5.3.1.3 of Adobe's RTMP Specification
 1.0 this fails in two ways: fmt 1 and 2 chunks with an extended timestamp are always
 misread, and the flag of a csid, never cleared, must agree with what the
 latest fmt 0, 1 or 2 chunk announced.
 */
module Alignment {
  import opened Bytes
  import opened RtmpHeader
  import opened ChunkStep
  import opened ChunkRuns
  import opened ChunkWriter
  import opened Resume
  import opened RoundTrip

  /** The data size depends on the announced length only. */
  lemma SizeFor(s: Sender, p: Parser, a: Action, header: Header)
    requires Linked(s, p) && Enabled(s, a) && header.csid == a.msg.csid
    requires header.msgLen == |a.msg.payload| && header.fmt == a.fmt
    ensures DataSize(Prepare(p.Msg(header.csid), header), p.chunkSize) == DoneAfter(s, a) - DoneBefore(s, a)
  {
    hide SameTime, DataSize;
    assert LaneLinked(s, p, header.csid);
    DataSizeIs(Prepare(p.Msg(header.csid), header), p.chunkSize);
  }

  /** Where the parser takes the chunk's header to end, and that it gets the length right even when that is wrong. */
  lemma HeaderEnd(s: Sender, p: Parser, a: Action)
    requires Linked(s, p) && Enabled(s, a)
    ensures
      var msg := a.msg;
      var r := ParseHeader(p.prevs, Emit(s, a));
      var header := |HeaderBytes(LastOn(s, msg.csid), msg, a.fmt, a.ext)|;
      var looks := LooksForExt(msg.csid in s.ext, a.fmt, a.ext);
      r.Full? ==>
        && r.header.csid == msg.csid && r.header.fmt == a.fmt && r.header.msgLen == |msg.payload|
        && r.total == header - (if a.ext then 4 else 0) + (if looks then 4 else 0)
  {
    hide ParseHeader, HeaderBytes, MsgHeaderBytes, BasicHeaderBytes, ReadFields, SameTime;
    var msg := a.msg;
    var last, fmt, data := LastOn(s, msg.csid), a.fmt, msg.payload[DoneBefore(s, a)..DoneAfter(s, a)];
    assert LaneLinked(s, p, msg.csid);
    HeaderShape(p.prevs, last, msg, fmt, a.ext, data);
    FieldsRead(p.Prev(msg.csid), last, msg, fmt, a.ext, Emit(s, a), |BasicHeaderBytes(fmt, msg.csid)|);
  }

  lemma UndisciplinedMisses(s: Sender, p: Parser, a: Action)
    requires Linked(s, p) && Enabled(s, a) && !Disciplined(s, a)
    ensures !TakesExactly(p, Emit(s, a))
  {
    hide ParseHeader, HeaderBytes, NextChunkSize, DataSize, Prepare, LaneLinked, MayCompress;
    HeaderEnd(s, p, a);
    var r := ParseHeader(p.prevs, Emit(s, a));
    if r.Full? {
      SizeFor(s, p, a, r.header);
    }
  }

  /**
   Chunk by chunk: the parser takes exactly the chunk if and only if the chunk
   carries an extended timestamp exactly when the parser looks for one.
   */
  lemma TakesChunkIff(s: Sender, p: Parser, a: Action)
    requires Linked(s, p) && Enabled(s, a)
    ensures TakesExactly(p, Emit(s, a)) <==> Disciplined(s, a)
  {
    hide Attempt, LaneLinked, Enabled, Disciplined, Emit;
    if Disciplined(s, a) {
      ChunkBack(s, p, a, []);
      assert Emit(s, a) + [] == Emit(s, a);
    } else {
      UndisciplinedMisses(s, p, a);
    }
  }

  /** A fmt-1 or fmt-2 chunk is taken if and only if it carries no extended timestamp. */
  lemma DeltaChunkIff(s: Sender, p: Parser, a: Action)
    requires Linked(s, p) && Enabled(s, a) && (a.fmt == 1 || a.fmt == 2)
    ensures TakesExactly(p, Emit(s, a)) <==> !a.ext
  {
    hide TakesExactly, Emit, Linked, Enabled;
    TakesChunkIff(s, p, a);
  }

  /**
   For every schedule: the parser takes exactly one chunk of the sender after
   the other if and only if the schedule is disciplined.
   */
  lemma {:induction false} AlignedIff(s: Sender, p: Parser, acts: seq<Action>)
    requires Linked(s, p) && Feasible(s, acts)
    ensures Exact(p, Chunks(s, acts)) <==> AllDisciplined(s, acts)
    decreases |acts|
  {
    hide Attempt, LaneLinked, Enabled, Disciplined, Emit, Next, TakesExactly;
    if acts != [] {
      var a := acts[0];
      NextOk(s, a);
      TakesChunkIff(s, p, a);
      var rest := Chunks(Next(s, a), acts[1..]);
      assert ([Emit(s, a)] + rest)[1..] == rest;
      if Disciplined(s, a) {
        ChunkBack(s, p, a, []);
        assert Emit(s, a) + [] == Emit(s, a);
        AlignedIff(Next(s, a), Attempt(p, Emit(s, a)).parser, acts[1..]);
      }
    }
  }

  // ----- Senders that follow the specification -----

  /**
   No delta needs an extended timestamp, and every fmt-3 chunk comes when the
   latest fmt 0, 1 or 2 chunk of its csid carried one exactly if some fmt-0
   chunk has.
   */
  predicate FlagAgrees(s: Sender, a: Action) {
    if a.fmt == 3 then a.msg.csid in s.announced <==> a.msg.csid in s.ext
    else a.fmt == 0 || Delta(LastOn(s, a.msg.csid), a.msg) < MAX_TIMESTAMP_IN_HEADER
  }

  /** For every schedule of a conforming sender: aligned if and only if the flags agree throughout. */
  lemma ConformingAlignedIff(acts: seq<Action>)
    requires Feasible(INITIAL_SENDER, acts) && Throughout(INITIAL_SENDER, acts, Conforming)
    ensures Exact(INITIAL_PARSER, Chunks(INITIAL_SENDER, acts)) <==> Throughout(INITIAL_SENDER, acts, FlagAgrees)
  {
    hide Exact, Chunks, Throughout, Feasible;
    InitiallyLinked();
    AlignedIff(INITIAL_SENDER, INITIAL_PARSER, acts);
    ConformingFlags(INITIAL_SENDER, acts);
  }

  lemma {:induction false} ConformingFlags(s: Sender, acts: seq<Action>)
    requires SenderOk(s) && Feasible(s, acts) && Throughout(s, acts, Conforming)
    ensures AllDisciplined(s, acts) <==> Throughout(s, acts, FlagAgrees)
    decreases |acts|
  {
    hide Enabled, Emit, Next, SenderOk;
    if acts != [] {
      NextOk(s, acts[0]);
      ConformingFlags(Next(s, acts[0]), acts[1..]);
    }
  }

  /** A fmt-0 chunk with an extended timestamp on the csid is among the actions. */
  predicate EverFull(acts: seq<Action>, c: nat) {
    exists i :: 0 <= i < |acts| && acts[i].msg.csid == c && acts[i].fmt == 0 && acts[i].ext
  }

  /** The latest fmt 0, 1 or 2 chunk on the csid carried an extended timestamp. */
  predicate LatestStart(acts: seq<Action>, c: nat) {
    exists i ::
      && 0 <= i < |acts| && acts[i].msg.csid == c && acts[i].fmt < 3 && acts[i].ext
      && forall j | i < j < |acts| :: acts[j].msg.csid == c ==> acts[j].fmt == 3
  }

  /** The sender's two records are what its actions say. */
  lemma RecordsAreHistory(acts: seq<Action>, c: nat)
    requires Feasible(INITIAL_SENDER, acts)
    ensures c in Final(INITIAL_SENDER, acts).ext <==> EverFull(acts, c)
    ensures c in Final(INITIAL_SENDER, acts).announced <==> LatestStart(acts, c)
  {
    RecordsFrom(INITIAL_SENDER, acts, c);
  }

  lemma {:induction false} RecordsFrom(s: Sender, acts: seq<Action>, c: nat)
    requires SenderOk(s) && Feasible(s, acts)
    ensures c in Final(s, acts).ext <==> c in s.ext || EverFull(acts, c)
    ensures c in Final(s, acts).announced
            <==> LatestStart(acts, c)
                 || (c in s.announced && forall j | 0 <= j < |acts| :: acts[j].msg.csid == c ==> acts[j].fmt == 3)
    decreases |acts|
  {
    hide Enabled, Emit, SenderOk, SizeBehind, Completed;
    if acts != [] {
      var a, rest := acts[0], acts[1..];
      NextOk(s, a);
      RecordsFrom(Next(s, a), rest, c);
      assert acts == [a] + rest;
      assert c in Next(s, a).ext <==> c in s.ext || (a.msg.csid == c && a.fmt == 0 && a.ext);
      assert c in Next(s, a).announced
        <==> if a.msg.csid == c && a.fmt < 3 then a.ext else c in s.announced;
    }
  }

  // ----- Streams of a conforming sender -----

  /** A schedule of a conforming sender that the parser takes chunk by chunk, or does not. */
  predicate TakenChunkByChunk(acts: seq<Action>, taken: bool) {
    && Feasible(INITIAL_SENDER, acts)
    && Throughout(INITIAL_SENDER, acts, Conforming)
    && (Exact(INITIAL_PARSER, Chunks(INITIAL_SENDER, acts)) <==> taken)
  }

  /**
   An empty message at `t0`, then one of 129 bytes at `t1` begun with the given
   format, cut in two; extended timestamps where the specification has them.
   */
  function TwoMessages(t0: U32, t1: U32, fmt: Fmt): seq<Action> {
    var long := Sent(3, t1, 9, 1, seq(129, _ => 7));
    [Put(Sent(3, t0, 9, 1, []), 0, t0 >= 0xFFFFFF), Put(long, fmt, false), Put(long, 3, false)]
  }

  lemma Unrolled(s: Sender, acts: seq<Action>, holds: (Sender, Action) -> bool)
    requires SenderOk(s) && acts != [] && Enabled(s, acts[0])
    ensures SenderOk(Next(s, acts[0]))
    ensures Feasible(Next(s, acts[0]), acts[1..]) ==> Feasible(s, acts)
    ensures Feasible(Next(s, acts[0]), acts[1..]) ==>
              (Throughout(s, acts, holds) <==> holds(s, acts[0]) && Throughout(Next(s, acts[0]), acts[1..], holds))
  {
    NextOk(s, acts[0]);
  }

  /** The three states of the sender. */
  lemma TwoMessagesStates(t0: U32, t1: U32, fmt: Fmt) returns (s1: Sender, s2: Sender)
    requires if fmt == 0 then t1 < 0xFFFFFF else fmt == 1 && (t1 as int - t0) % 0x1_0000_0000 < 0xFFFFFF
    ensures
      var acts := TwoMessages(t0, t1, fmt); var s0 := INITIAL_SENDER;
      && Enabled(s0, acts[0]) && s1 == Next(s0, acts[0]) && SenderOk(s1)
      && Enabled(s1, acts[1]) && s2 == Next(s1, acts[1]) && SenderOk(s2)
      && Enabled(s2, acts[2]) && Conforming(s0, acts[0]) && Conforming(s1, acts[1]) && Conforming(s2, acts[2])
      && Disciplined(s0, acts[0]) && Disciplined(s1, acts[1]) && (Disciplined(s2, acts[2]) <==> t0 < 0xFFFFFF)
  {
    var acts := TwoMessages(t0, t1, fmt);
    NextOk(INITIAL_SENDER, acts[0]);
    s1 := Next(INITIAL_SENDER, acts[0]);
    NextOk(s1, acts[1]);
    s2 := Next(s1, acts[1]);
  }

  lemma TwoMessagesThroughout(t0: U32, t1: U32, fmt: Fmt, holds: (Sender, Action) -> bool)
    returns (s1: Sender, s2: Sender)
    requires if fmt == 0 then t1 < 0xFFFFFF else fmt == 1 && (t1 as int - t0) % 0x1_0000_0000 < 0xFFFFFF
    ensures
      var acts := TwoMessages(t0, t1, fmt);
      && Feasible(INITIAL_SENDER, acts)
      && (Throughout(INITIAL_SENDER, acts, holds)
          <==> holds(INITIAL_SENDER, acts[0]) && holds(s1, acts[1]) && holds(s2, acts[2]))
      && Conforming(INITIAL_SENDER, acts[0]) && Conforming(s1, acts[1]) && Conforming(s2, acts[2])
      && Disciplined(INITIAL_SENDER, acts[0]) && Disciplined(s1, acts[1])
      && (Disciplined(s2, acts[2]) <==> t0 < 0xFFFFFF)
  {
    hide Next, Enabled, Conforming, Disciplined;
    s1, s2 := TwoMessagesStates(t0, t1, fmt);
    var acts := TwoMessages(t0, t1, fmt);
    assert acts[1..][1..] == [acts[2]] && acts[1..][0] == acts[1] && [acts[2]][1..] == [];
    Unrolled(s2, [acts[2]], holds);
    Unrolled(s1, acts[1..], holds);
    Unrolled(INITIAL_SENDER, acts, holds);
  }

  /** The parser takes these chunks one after the other if and only if the first message had no extended timestamp. */
  lemma TwoMessagesIff(t0: U32, t1: U32, fmt: Fmt)
    requires if fmt == 0 then t1 < 0xFFFFFF else fmt == 1 && (t1 as int - t0) % 0x1_0000_0000 < 0xFFFFFF
    ensures TakenChunkByChunk(TwoMessages(t0, t1, fmt), t0 < 0xFFFFFF)
  {
    hide Exact, Chunks, Throughout, Feasible, TwoMessages, Conforming, Disciplined;
    var s1, s2 := TwoMessagesThroughout(t0, t1, fmt, Conforming);
    s1, s2 := TwoMessagesThroughout(t0, t1, fmt, Disciplined);
    InitiallyLinked();
    AlignedIff(INITIAL_SENDER, INITIAL_PARSER, TwoMessages(t0, t1, fmt));
  }

  /**
   Three streams: after an extended timestamp, a long message at time 0 and a
   long message 40 ms later are misread; one that a small delta carries past
   0xFFFFFF is read.
   */
  lemma StaleFlagMisaligns()
    ensures TakenChunkByChunk(TwoMessages(0x100_0000, 0, 0), false)
    ensures TakenChunkByChunk(TwoMessages(0x100_0000, 0x100_0028, 1), false)
    ensures TakenChunkByChunk(TwoMessages(0xFF_FFF0, 0x100_0010, 1), true)
  {
    hide TakenChunkByChunk, TwoMessages;
    TwoMessagesIff(0x100_0000, 0, 0);
    TwoMessagesIff(0x100_0000, 0x100_0028, 1);
    TwoMessagesIff(0xFF_FFF0, 0x100_0010, 1);
  }
}
