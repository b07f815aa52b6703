/**
 A server connection: the write queue, the handshake, the receive buffer and
 the chunk parser, composed as `RtmpContext.cpp` composes them in its read,
 write-completion and close callbacks.
 */
module Server {
  import opened Bytes
  import opened ChunkStep
  import opened ChunkWriter
  import opened Resume
  import opened RoundTrip
  import opened HandShakeDigest
  import opened HandShakeSteps
  import opened Options
  import opened SendChunk
  import opened TcpQueue
  import RtmpHeader

  /**
   `receiver.unread` is the receive buffer, in all phases; `input` records all
   bytes ever read from the socket.
   */
  datatype Conn = Conn(tcp: Tcp, shake: Shake, receiver: Receiver, outChunkSize: int, input: Octets)

  function Accepted(hmac: Hmac, random: RandomC0C1): Conn {
    Conn(INITIAL_TCP, Started(hmac, random), INITIAL_RECEIVER, RtmpHeader.DEFAULT_CHUNK_SIZE, [])
  }

  // ----- Callbacks -----

  function SendIf(t: Tcp, data: Option<Octets>): Tcp {
    match data
    case None => t
    case Some(d) => TcpQueue.Send(t, d)
  }

  /** `onHandShakeDone`. */
  function OnHandShakeDone(s: Conn): Conn {
    s.(tcp := SendAll(s.tcp, GREETING), outChunkSize := OUT_CHUNK_SIZE)
  }

  /** `onMessage`, called when bytes have been put into the buffer. */
  function OnMessage(hmac: Hmac, s: Conn, draw: Draw): Conn {
    if s.shake.phase != Done then
      var r := HandShake(hmac, s.shake, s.receiver.unread, draw);
      var t := s.(shake := r.shake, tcp := SendIf(s.tcp, r.sent),
                  receiver := s.receiver.(unread := s.receiver.unread[r.taken..]));
      if r.ret < 0 then t.(tcp := Close(t.tcp))
      else if r.ret == 0 then
        var u := OnHandShakeDone(t);
        u.(receiver := ParseAll(u.receiver))
      else t
    else
      s.(receiver := ParseAll(s.receiver))
  }

  /** `onWriteComplete`. */
  function OnWriteComplete(s: Conn): Conn {
    if s.shake.phase != Done then
      var (shake, sent) := WriteComplete(s.shake);
      s.(shake := shake, tcp := SendIf(s.tcp, sent))
    else s
  }

  // ----- Steps of the event loop -----

  /**
   A read of any size (with the random bytes and clock a handshake answer may
   draw), a failed read, the completion of a write, and, once the handshake is
   done, a reply sent by a message handler, possibly just before the parser threw.
   */
  datatype Event = Read(bytes: Octets, draw: Draw) | ReadError | Completion(ok: bool) | Reply(data: Octets)

  /** An exception that left the parser has ended the event loop. */
  predicate EventEnabled(s: Conn, e: Event) {
    && (!s.receiver.faulted || e.Reply?)
    && (e.Completion? ==> MayComplete(s.tcp))
    && (e.Reply? ==> s.shake.phase == Done)
  }

  function Step(hmac: Hmac, s: Conn, e: Event): Conn
    requires EventEnabled(s, e)
  {
    match e
    case Read(bytes, draw) =>
      OnMessage(hmac, s.(input := s.input + bytes,
                         receiver := s.receiver.(unread := s.receiver.unread + bytes)), draw)
    case ReadError => s.(tcp := Close(s.tcp))
    case Completion(ok) =>
      var t := s.(tcp := WriteDone(s.tcp, ok));
      if Drains(s.tcp, ok) then OnWriteComplete(t) else t
    case Reply(data) => s.(tcp := TcpQueue.Send(s.tcp, data))
  }

  predicate Run(hmac: Hmac, s: Conn, events: seq<Event>)
    decreases |events|
  {
    events == [] || (EventEnabled(s, events[0]) && Run(hmac, Step(hmac, s, events[0]), events[1..]))
  }

  function RunEnd(hmac: Hmac, s: Conn, events: seq<Event>): Conn
    requires Run(hmac, s, events)
    decreases |events|
  {
    if events == [] then s else RunEnd(hmac, Step(hmac, s, events[0]), events[1..])
  }

  // ----- The invariant -----

  /** How many input bytes the handshake has taken in each phase. */
  function TakenIn(phase: Phase): nat {
    match phase
    case WaitC0C1 => 0
    case Done => C0C1_SIZE + PACKET_SIZE
    case _ => C0C1_SIZE
  }

  /** Until the handshake is done the buffer holds the rest of the input, and afterwards the parser has been fed it. */
  predicate InputOk(s: Conn) {
    && TakenIn(s.shake.phase) <= |s.input|
    && var rest := s.input[TakenIn(s.shake.phase)..];
       s.receiver == if s.shake.phase == Done then Feed(INITIAL_RECEIVER, rest)
                     else INITIAL_RECEIVER.(unread := rest)
  }

  /** What has been sent, what is queued, and what is on the wire in each phase. */
  predicate OutputOk(s: Conn) {
    var s0s1, s2 := s.shake.c1s1, s.shake.c2s2;
    && |s0s1| == C0C1_SIZE && |s2| == PACKET_SIZE
    && s.outChunkSize == (if s.shake.phase == Done then OUT_CHUNK_SIZE else RtmpHeader.DEFAULT_CHUNK_SIZE)
    && match s.shake.phase
       case WaitC0C1 => s.tcp.wire == [] && s.tcp.queue == []
       case PostS0S1 => s.tcp.wire == [] && s.tcp.queue == [s0s1]
       case PostS2 => s.tcp.wire == [s0s1] && s.tcp.queue == [s2]
       case WaitC2 => s.tcp.wire == [s0s1, s2] && s.tcp.queue == []
       case Done => [s0s1, s2] <= s.tcp.wire && [s0s1, s2] + GREETING <= s.tcp.sends
  }

  predicate ConnOk(s: Conn) {
    TcpOk(s.tcp) && InputOk(s) && OutputOk(s)
  }

  lemma AcceptedOk(hmac: Hmac, random: RandomC0C1)
    ensures ConnOk(Accepted(hmac, random))
  {
  }

  lemma ReadBeforeDone(hmac: Hmac, s: Conn, bytes: Octets, draw: Draw)
    requires ConnOk(s) && s.shake.phase != Done && s.shake.phase != WaitC2
    ensures ConnOk(Step(hmac, s, Read(bytes, draw)))
  {
    hide CheckC1S1, C2S2, ParseAll, GREETING;
    var input := s.input + bytes;
    var n := TakenIn(s.shake.phase);
    assert s.input[n..] + bytes == input[n..];
    var t := s.(input := input, receiver := INITIAL_RECEIVER.(unread := input[n..]));
    var r := HandShake(hmac, s.shake, input[n..], draw);
    assert input[n..][r.taken..] == input[n + r.taken..];
    if r.sent.Some? {
      SendOk(s.tcp, r.sent.value);
    }
  }

  lemma ReadC2(hmac: Hmac, s: Conn, bytes: Octets, draw: Draw)
    requires ConnOk(s) && s.shake.phase == WaitC2
    ensures ConnOk(Step(hmac, s, Read(bytes, draw)))
  {
    hide CheckC1S1, C2S2, ParseAll, GREETING;
    var input := s.input + bytes;
    assert s.input[C0C1_SIZE..] + bytes == input[C0C1_SIZE..];
    var r := HandShake(hmac, s.shake, input[C0C1_SIZE..], draw);
    assert input[C0C1_SIZE..][r.taken..] == input[C0C1_SIZE + r.taken..];
    if r.ret == 0 {
      SendAllOk(s.tcp, GREETING);
      assert INITIAL_RECEIVER.unread + input[C0C1_SIZE + PACKET_SIZE..] == input[C0C1_SIZE + PACKET_SIZE..];
    }
  }

  lemma ReadWhenDone(hmac: Hmac, s: Conn, bytes: Octets, draw: Draw)
    requires ConnOk(s) && s.shake.phase == Done && !s.receiver.faulted
    ensures ConnOk(Step(hmac, s, Read(bytes, draw)))
  {
    hide ParseAll, GREETING;
    var n := C0C1_SIZE + PACKET_SIZE;
    FeedTwice(INITIAL_RECEIVER, s.input[n..], bytes);
    assert s.input[n..] + bytes == (s.input + bytes)[n..];
  }

  lemma CompletionOk(hmac: Hmac, s: Conn, ok: bool)
    requires ConnOk(s) && EventEnabled(s, Event.Completion(ok))
    ensures ConnOk(Step(hmac, s, Event.Completion(ok)))
  {
    hide ParseAll, GREETING;
    WriteDoneOk(s.tcp, ok);
    var t := s.(tcp := WriteDone(s.tcp, ok));
    if Drains(s.tcp, ok) && s.shake.phase == PostS0S1 {
      SendOk(t.tcp, s.shake.c2s2);
    }
  }

  lemma ReplyOk(hmac: Hmac, s: Conn, data: Octets)
    requires ConnOk(s) && EventEnabled(s, Reply(data))
    ensures ConnOk(Step(hmac, s, Reply(data)))
  {
    hide ParseAll, GREETING;
    SendOk(s.tcp, data);
  }

  /**
   In every run of a server connection, whatever the read sizes, the timing of
   completions, the errors and the random bytes: the queue, the wire, the
   handshake and the parser stand to each other as `ConnOk` says.
   */
  lemma {:induction false} RunOk(hmac: Hmac, s: Conn, events: seq<Event>)
    requires ConnOk(s) && Run(hmac, s, events)
    ensures ConnOk(RunEnd(hmac, s, events))
    decreases |events|
  {
    hide ConnOk, EventEnabled, Step;
    if events != [] {
      StepOk(hmac, s, events[0]);
      RunOk(hmac, Step(hmac, s, events[0]), events[1..]);
    }
  }

  lemma StepOk(hmac: Hmac, s: Conn, e: Event)
    requires ConnOk(s) && EventEnabled(s, e)
    ensures ConnOk(Step(hmac, s, e))
  {
    hide ConnOk, EventEnabled, Step;
    match e
    case Read(bytes, draw) => ReadOk(hmac, s, bytes, draw);
    case ReadError => ReadErrorOk(hmac, s);
    case Completion(ok) => CompletionOk(hmac, s, ok);
    case Reply(data) => ReplyOk(hmac, s, data);
  }

  lemma ReadErrorOk(hmac: Hmac, s: Conn)
    requires ConnOk(s) && EventEnabled(s, ReadError)
    ensures ConnOk(Step(hmac, s, ReadError))
  {
    hide ParseAll, GREETING;
  }

  lemma ReadOk(hmac: Hmac, s: Conn, bytes: Octets, draw: Draw)
    requires ConnOk(s) && EventEnabled(s, Read(bytes, draw))
    ensures ConnOk(Step(hmac, s, Read(bytes, draw)))
  {
    hide ParseAll, GREETING, Step, TcpOk, OutputOk, InputOk;
    if s.shake.phase == Done {
      ReadWhenDone(hmac, s, bytes, draw);
    } else if s.shake.phase == WaitC2 {
      ReadC2(hmac, s, bytes, draw);
    } else {
      ReadBeforeDone(hmac, s, bytes, draw);
    }
  }

  // ----- What the invariant gives -----

  /**
   Phase split: two runs that have read the same bytes and finished the
   handshake have delivered the same messages and are in the same parser state,
   however the bytes were cut and whenever the writes completed; the handshake
   took exactly 1537 + 1536 bytes, and the parser was fed all the others, once
   and in order.
   */
  lemma PhaseSplit(hmac: Hmac, random: RandomC0C1, random': RandomC0C1, events: seq<Event>, events': seq<Event>)
    requires Run(hmac, Accepted(hmac, random), events) && Run(hmac, Accepted(hmac, random'), events')
    ensures
      var s := RunEnd(hmac, Accepted(hmac, random), events);
      && (s.shake.phase == Done ==>
            |s.input| >= 3073 && s.receiver == Feed(INITIAL_RECEIVER, s.input[3073..]))
      && (s.shake.phase != Done ==> s.receiver.parser == INITIAL_PARSER && s.receiver.out == [])
    ensures
      var s, s' := RunEnd(hmac, Accepted(hmac, random), events), RunEnd(hmac, Accepted(hmac, random'), events');
      s.input == s'.input && s.shake.phase == s'.shake.phase == Done ==> s.receiver == s'.receiver
  {
    hide Run, RunEnd, Feed, TcpOk, OutputOk, GREETING;
    AcceptedOk(hmac, random);
    AcceptedOk(hmac, random');
    RunOk(hmac, Accepted(hmac, random), events);
    RunOk(hmac, Accepted(hmac, random'), events');
  }

  /**
   Handshake and write queue: before the handshake is done nothing but S0S1 and
   S2 has been sent, in that order, and the greeting comes right behind them;
   the wire is always a prefix of what was sent, and the handshake is not done
   before S2 is written and C2 has come in.
   */
  lemma HandshakeFirst(hmac: Hmac, random: RandomC0C1, events: seq<Event>)
    requires Run(hmac, Accepted(hmac, random), events)
    ensures
      var s := RunEnd(hmac, Accepted(hmac, random), events);
      var hello := [s.shake.c1s1, s.shake.c2s2];
      && s.tcp.wire <= s.tcp.sends
      && (s.shake.phase != Done ==> s.tcp.sends <= hello)
      && (s.shake.phase == Done ==> hello + GREETING <= s.tcp.sends && hello <= s.tcp.wire && |s.input| >= 3073)
      && (!s.tcp.closed ==>
            && (s.shake.phase == PostS0S1 ==> s.tcp.inFlight == [s.shake.c1s1] && s.tcp.wire == [])
            && (s.shake.phase == PostS2 ==> s.tcp.inFlight == [s.shake.c2s2] && s.tcp.wire == [s.shake.c1s1])
            && (s.shake.phase == WaitC2 ==> s.tcp.inFlight == [] && s.tcp.wire == hello))
  {
    hide Run, RunEnd, Feed, GREETING;
    AcceptedOk(hmac, random);
    RunOk(hmac, Accepted(hmac, random), events);
  }

  // ----- The handshake packets -----

  /**
   S0S1 is the packet built at the start; a refused C0C1 has closed the
   connection; S2 answers the C1 that was read.
   */
  predicate PacketsOk(hmac: Hmac, random: RandomC0C1, s: Conn) {
    && s.shake.c1s1 == C1S1(hmac, true, false, random)
    && if s.shake.phase == WaitC0C1 then
         && s.shake.complex
         && (|s.input| >= C0C1_SIZE ==> s.tcp.closed && CheckC1S1(hmac, false, s.input[..C0C1_SIZE]) == Refused)
       else
         && |s.input| >= C0C1_SIZE
         && var check := CheckC1S1(hmac, false, s.input[..C0C1_SIZE]);
            && check != Refused
            && s.shake.complex == check.Complex?
            && |s.shake.c2s2| == PACKET_SIZE
            && s.shake.c2s2[4..8] == s.input[5..9]
            && (check.Complex? ==>
                  AnswersDigest(hmac, false, s.shake.c2s2,
                                s.input[1 + check.offset..1 + check.offset + DIGEST_LENGTH]))
  }

  lemma AnswersC1(hmac: Hmac, random: RandomC0C1, s: Conn, draw: Draw)
    requires s.shake.c1s1 == C1S1(hmac, true, false, random) && s.shake.phase == WaitC0C1 && s.shake.complex
    requires s.receiver.unread == s.input
    ensures PacketsOk(hmac, random, OnMessage(hmac, s, draw))
  {
    hide CheckC1S1, C2S2, AnswersDigest, C1S1, ParseAll;
    if |s.input| >= C0C1_SIZE {
      var check := CheckC1S1(hmac, false, s.input[..C0C1_SIZE]);
      var offset := if check.Complex? then check.offset else 0;
      AnswerSigned(hmac, false, s.input[1..C0C1_SIZE], offset, draw.random, draw.now);
      SliceOfSlice(s.input, 1, C0C1_SIZE, 4, 8);
      SliceOfSlice(s.input, 1, C0C1_SIZE, offset, offset + DIGEST_LENGTH);
    }
  }

  lemma StepPackets(hmac: Hmac, random: RandomC0C1, s: Conn, e: Event)
    requires ConnOk(s) && PacketsOk(hmac, random, s) && EventEnabled(s, e)
    ensures PacketsOk(hmac, random, Step(hmac, s, e))
  {
    hide CheckC1S1, C2S2, AnswersDigest, C1S1, ParseAll, TcpOk, OutputOk;
    match e
    case Read(bytes, draw) =>
      var t := s.(input := s.input + bytes,
                  receiver := s.receiver.(unread := s.receiver.unread + bytes));
      if s.shake.phase == WaitC0C1 {
        assert s.input[0..] == s.input;
        AnswersC1(hmac, random, t, draw);
      } else {
        SameStart(s.input, bytes);
      }
    case _ =>
  }

  lemma SameStart(input: Octets, bytes: Octets)
    requires |input| >= C0C1_SIZE
    ensures (input + bytes)[..C0C1_SIZE] == input[..C0C1_SIZE]
    ensures forall i, j | 0 <= i <= j <= C0C1_SIZE :: (input + bytes)[i..j] == input[i..j]
  {
  }

  lemma {:induction false} RunPackets(hmac: Hmac, random: RandomC0C1, s: Conn, events: seq<Event>)
    requires ConnOk(s) && PacketsOk(hmac, random, s) && Run(hmac, s, events)
    ensures PacketsOk(hmac, random, RunEnd(hmac, s, events))
    decreases |events|
  {
    hide ConnOk, PacketsOk, EventEnabled, Step;
    if events != [] {
      var next := Step(hmac, s, events[0]);
      StepPackets(hmac, random, s, events[0]);
      StepOk(hmac, s, events[0]);
      RunPackets(hmac, random, next, events[1..]);
    }
  }

  /**
   Once 1537 bytes have come in, the server still waits for C0C1 if and only if
   its check refuses them, and then the connection has been closed.
   */
  lemma RefusalIff(hmac: Hmac, random: RandomC0C1, events: seq<Event>)
    requires Run(hmac, Accepted(hmac, random), events)
    ensures
      var s := RunEnd(hmac, Accepted(hmac, random), events);
      |s.input| >= C0C1_SIZE ==>
        var refused := CheckC1S1(hmac, false, s.input[..C0C1_SIZE]) == Refused;
        (s.shake.phase == WaitC0C1 <==> refused) && (refused ==> s.tcp.closed)
  {
    hide Run, RunEnd, Feed, GREETING, CheckC1S1, C1S1, AnswersDigest;
    AcceptedOk(hmac, random);
    RunPackets(hmac, random, Accepted(hmac, random), events);
  }

  /**
   Every C2 is accepted: whatever connection is reached waiting for it, a read
   finishes the handshake if and only if 1537 + 1536 bytes have come in with it,
   and no such read closes the connection.
   */
  lemma C2Accepted(hmac: Hmac, random: RandomC0C1, events: seq<Event>, bytes: Octets, draw: Draw)
    requires Run(hmac, Accepted(hmac, random), events)
    requires RunEnd(hmac, Accepted(hmac, random), events).shake.phase == WaitC2
    ensures
      var s := RunEnd(hmac, Accepted(hmac, random), events);
      && EventEnabled(s, Read(bytes, draw))
      && var t := Step(hmac, s, Read(bytes, draw));
         && (t.shake.phase == Done <==> |s.input| + |bytes| >= 3073)
         && (t.shake.phase != Done ==> t.shake.phase == WaitC2)
         && t.tcp.closed == s.tcp.closed
  {
    hide Run, RunEnd, Feed, ParseAll, GREETING, TcpQueue.Send, TcpOk;
    AcceptedOk(hmac, random);
    RunOk(hmac, Accepted(hmac, random), events);
    var s := RunEnd(hmac, Accepted(hmac, random), events);
    SendAllOk(s.tcp, GREETING);
  }

  /** A read or a write of the run has failed. */
  predicate Fails(e: Event) {
    e == ReadError || e == Event.Completion(false)
  }

  /** The check has refused the first 1537 bytes read. */
  predicate RefusedIn(hmac: Hmac, input: Octets) {
    |input| >= 1537 && CheckC1S1(hmac, false, input[..1537]) == Refused
  }

  /** A connection is closed if and only if a read or write has failed or C0C1 has been refused; nothing else closes it. */
  lemma ClosedIff(hmac: Hmac, random: RandomC0C1, events: seq<Event>)
    requires Run(hmac, Accepted(hmac, random), events)
    ensures
      var s := RunEnd(hmac, Accepted(hmac, random), events);
      s.tcp.closed <==> (exists e :: e in events && Fails(e)) || RefusedIn(hmac, s.input)
  {
    hide Run, RunEnd, ConnOk, PacketsOk;
    AcceptedOk(hmac, random);
    assert PacketsOk(hmac, random, Accepted(hmac, random)) by { AcceptedPackets(hmac, random); }
    RunClosed(hmac, random, Accepted(hmac, random), events);
  }

  lemma AcceptedPackets(hmac: Hmac, random: RandomC0C1)
    ensures PacketsOk(hmac, random, Accepted(hmac, random))
  {
  }

  lemma {:induction false} RunClosed(hmac: Hmac, random: RandomC0C1, s: Conn, events: seq<Event>)
    requires ConnOk(s) && PacketsOk(hmac, random, s) && Run(hmac, s, events)
    requires RefusedIn(hmac, s.input) ==> s.tcp.closed
    ensures
      var t := RunEnd(hmac, s, events);
      t.tcp.closed <==> s.tcp.closed || (exists e :: e in events && Fails(e)) || RefusedIn(hmac, t.input)
    decreases |events|
  {
    hide ConnOk, PacketsOk, EventEnabled, Step, Fails, RefusedIn;
    if events == [] {
    } else {
      var e, rest := events[0], events[1..];
      var next := Step(hmac, s, e);
      StepOk(hmac, s, e);
      StepPackets(hmac, random, s, e);
      StepClosed(hmac, random, s, e);
      RunClosed(hmac, random, next, rest);
      if RefusedIn(hmac, next.input) {
        StillRefused(hmac, next, rest);
      }
      assert events == [e] + rest;
      assert e in events && forall x :: x in events <==> x == e || x in rest;
    }
  }

  lemma StepClosed(hmac: Hmac, random: RandomC0C1, s: Conn, e: Event)
    requires ConnOk(s) && PacketsOk(hmac, random, s) && EventEnabled(s, e)
    requires RefusedIn(hmac, s.input) ==> s.tcp.closed
    ensures var t := Step(hmac, s, e); t.tcp.closed <==> s.tcp.closed || Fails(e) || RefusedIn(hmac, t.input)
  {
    hide CheckC1S1, C2S2, ParseAll, GREETING, AnswersDigest, C1S1, OutputOk, TcpQueue.Send;
    match e
    case Read(bytes, draw) =>
      var input := s.input + bytes;
      assert s.input[0..] == s.input;
      if |s.input| >= C0C1_SIZE {
        SameStart(s.input, bytes);
      }
      SendOk(s.tcp, s.shake.c1s1);
      SendAllOk(s.tcp, GREETING);
    case ReadError =>
    case Completion(ok) =>
      WriteDoneOk(s.tcp, ok);
      SendOk(WriteDone(s.tcp, ok), s.shake.c2s2);
    case Reply(data) =>
      SendOk(s.tcp, data);
  }

  lemma StepInput(hmac: Hmac, s: Conn, e: Event)
    requires EventEnabled(s, e)
    ensures s.input <= Step(hmac, s, e).input
  {
    hide HandShake, ParseAll, GREETING, TcpQueue.Send, WriteDone;
  }

  /** Input only grows, so a refusal stays one. */
  lemma {:induction false} StillRefused(hmac: Hmac, s: Conn, events: seq<Event>)
    requires Run(hmac, s, events) && RefusedIn(hmac, s.input)
    ensures RefusedIn(hmac, RunEnd(hmac, s, events).input)
    decreases |events|
  {
    hide Step, EventEnabled, CheckC1S1;
    if events != [] {
      var next := Step(hmac, s, events[0]);
      StepInput(hmac, s, events[0]);
      assert next.input[..1537] == s.input[..1537];
      StillRefused(hmac, next, events[1..]);
    }
  }

  /**
   The client's view: the first buffer on the wire is a packet a client's
   digest check accepts, and the second one carries the signature for the very
   digest the client had put into its C1, if the server found it.
   */
  lemma ClientAccepts(hmac: Hmac, random: RandomC0C1, events: seq<Event>)
    requires Run(hmac, Accepted(hmac, random), events)
    ensures
      var s := RunEnd(hmac, Accepted(hmac, random), events);
      && (|s.tcp.wire| >= 1 ==> CheckC1S1(hmac, true, s.tcp.wire[0]).Complex?)
      && (|s.tcp.wire| >= 2 ==>
            && |s.input| >= C0C1_SIZE && |s.tcp.wire[1]| == PACKET_SIZE
            && var check := CheckC1S1(hmac, false, s.input[..C0C1_SIZE]);
               check.Complex? ==>
                 AnswersDigest(hmac, false, s.tcp.wire[1],
                               s.input[1 + check.offset..1 + check.offset + DIGEST_LENGTH]))
  {
    hide Run, RunEnd, Feed, GREETING, CheckC1S1, C1S1, AnswersDigest, Signed;
    AcceptedOk(hmac, random);
    RunOk(hmac, Accepted(hmac, random), events);
    RunPackets(hmac, random, Accepted(hmac, random), events);
    DigestRoundTrip(hmac, false, random);
  }

  /**
   End to end: if what follows the client's handshake packets is an interleaved
   chunk stream, then a server that has finished the handshake has delivered
   exactly the finished messages, in order, and holds no unread byte.
   */
  lemma EndToEnd(hmac: Hmac, random: RandomC0C1, events: seq<Event>, hello: Octets, acts: seq<Action>)
    requires Run(hmac, Accepted(hmac, random), events)
    requires Feasible(INITIAL_SENDER, acts) && AllDisciplined(INITIAL_SENDER, acts)
    requires |hello| == C0C1_SIZE + PACKET_SIZE
    requires
      var s := RunEnd(hmac, Accepted(hmac, random), events);
      s.shake.phase == Done && s.input == hello + Wire(INITIAL_SENDER, acts)
    ensures
      var e := RunEnd(hmac, Accepted(hmac, random), events).receiver;
      && !e.faulted && e.unread == []
      && AllDeliver(e.out, Finished(INITIAL_SENDER, acts))
      && e.parser.chunkSize == Final(INITIAL_SENDER, acts).chunkSize
  {
    hide Run, RunEnd, Feed, TcpOk, OutputOk, GREETING, Wire, Feasible, AllDisciplined, Finished, Final;
    PhaseSplit(hmac, random, random, events, events);
    var wire := Wire(INITIAL_SENDER, acts);
    assert (hello + wire)[3073..] == wire;
    ConcatOne(wire);
    InterleavedRoundTrip(acts, [wire]);
    FragmentationIndependence([wire]);
  }
}
