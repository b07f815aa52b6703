/**
 One attempt of `RtmpChunkParse::parseOneChunk`, as a function of the parser's
 state and the readable bytes, and the loop of `RtmpChunkParse::Parse` over it.

 An attempt that runs out of bytes still changes the state: it may insert a
 history entry, and it may already have rewritten the message in progress.
 */
module ChunkStep {
  import opened Bytes
  import opened RtmpHeader

  // ----- Basic header -----

  datatype BasicHeader = BasicShort | Basic(fmt: Fmt, csid: nat, len: nat)

  function ParseBasicHeader(b: Octets): (r: BasicHeader)
    ensures r.Basic? ==> 1 <= r.len <= 3 && r.len <= |b|
    ensures r.BasicShort? ==> |b| < 3
  {
    if |b| < 1 then BasicShort
    else
      var fmt := b[0] as int / 64;
      var low := b[0] as int % 64;
      if low == 0 then
        if |b| < 2 then BasicShort else Basic(fmt, b[1] as int + 64, 2)
      else if low == 1 then
        if |b| < 3 then BasicShort else Basic(fmt, b[2] as int * 256 + b[1] as int + 64, 3)
      else Basic(fmt, low, 1)
  }

  // ----- Message header and extended timestamp -----

  /** The header after the fmt switch: fields present in the chunk, the others copied from `prev`. */
  function ReadFields(prev: Header, fmt: Fmt, csid: nat, b: Octets, at: nat): Header
    requires at + MsgHeaderSize(fmt) <= |b|
  {
    var header := prev.(fmt := fmt, csid := csid);
    if fmt == 0 then
      header.(timestamp := ReadU24BE(b, at), msgLen := ReadU24BE(b, at + 3),
              msgType := b[at + 6], streamId := ReadU32LE(b, at + 7))
    else if fmt == 1 then
      header.(timestamp := (prev.timestamp as int + ReadU24BE(b, at)) % 0x1_0000_0000,
              msgLen := ReadU24BE(b, at + 3), msgType := b[at + 6])
    else if fmt == 2 then
      header.(timestamp := (prev.timestamp as int + ReadU24BE(b, at)) % 0x1_0000_0000)
    else
      header
  }

  /** Whether this attempt expects an extended timestamp. For fmt 1 and 2 the test is `>`, as in the source. */
  predicate ExpectsExtTs(prev: Header, fmt: Fmt, b: Octets, at: nat)
    requires at + MsgHeaderSize(fmt) <= |b|
  {
    if fmt == 0 then ReadU24BE(b, at) >= MAX_TIMESTAMP_IN_HEADER
    else if fmt == 1 || fmt == 2 then ReadU24BE(b, at) > MAX_TIMESTAMP_IN_HEADER
    else prev.hasExtTs
  }

  /** How far the header of a chunk could be read. */
  datatype ChunkHeader =
    | ShortOfMessageHeader             // not enough bytes for the basic and the message header
    | ShortOfExtTs(csid: nat)          // the history of csid was consulted, the extended timestamp is missing
    | Full(header: Header, total: nat) // header read; `total` bytes long

  function ParseHeader(prevs: map<int, Header>, b: Octets): (r: ChunkHeader)
    ensures r.Full? ==> 1 <= r.total <= 18 && r.total <= |b| && r.header.csid >= 0
    ensures !r.Full? ==> |b| < 18
  {
    match ParseBasicHeader(b)
    case BasicShort => ShortOfMessageHeader
    case Basic(fmt, csid, len) =>
      var fields := len + MsgHeaderSize(fmt);
      if |b| < fields then ShortOfMessageHeader
      else
        var prev := PrevOf(prevs, csid);
        var header := ReadFields(prev, fmt, csid, b, len);
        if ExpectsExtTs(prev, fmt, b, len) then
          if |b| < fields + 4 then ShortOfExtTs(csid)
          else Full(header.(hasExtTs := true, timestamp := ReadU32BE(b, fields)), fields + 4)
        else Full(header, fields)
  }

  // ----- The parser -----

  datatype Parser = Parser(prevs: map<int, Header>, inProgress: map<int, Message>, chunkSize: int) {
    function Prev(csid: int): Header {
      PrevOf(prevs, csid)
    }

    function Msg(csid: int): Message {
      if csid in inProgress then inProgress[csid] else FRESH_MESSAGE
    }
  }

  const INITIAL_PARSER := Parser(map[], map[], DEFAULT_CHUNK_SIZE)

  function PrevOf(prevs: map<int, Header>, csid: int): Header {
    if csid in prevs then prevs[csid] else BLANK_HEADER
  }

  /** Makes the message of this csid ready for the chunk's data, before it is known whether the data is there. */
  function Prepare(msg: Message, header: Header): Message {
    if header.fmt == 0 || msg.IsComplete() then Message(header, [])
    else if header.fmt == 1 then
      msg.(header := msg.header.(timestamp := header.timestamp, fmt := header.fmt,
                                 msgLen := header.msgLen, msgType := header.msgType))
    else
      msg.(header := msg.header.(timestamp := header.timestamp, fmt := header.fmt))
  }

  function ToInt32(x: U32): int {
    if x < 0x8000_0000 then x else x - 0x1_0000_0000
  }

  /** Bytes of data in this chunk: a uint32 subtraction, converted to int and capped by the chunk size. */
  function DataSize(msg: Message, chunkSize: int): int {
    Min(ToInt32((msg.header.msgLen as int - |msg.payload|) % 0x1_0000_0000), chunkSize)
  }

  /** The incoming chunk size after the message callback has seen a message (`handleSetChunkSize`). */
  function NextChunkSize(chunkSize: int, msgType: Byte, payload: Octets): (r: int)
    ensures 1 <= chunkSize <= MAX_CHUNK_SIZE ==> 1 <= r <= MAX_CHUNK_SIZE
  {
    if msgType == MSG_TYPE_SET_CHUNK_SIZE && |payload| >= 4 then
      var size := ReadU32BE(payload, 0) % 0x8000_0000;
      if size == 0 || size > MAX_CHUNK_SIZE then chunkSize else size
    else chunkSize
  }

  datatype Outcome =
    | NeedMore(parser: Parser)
    | Chunk(parser: Parser, used: nat, out: seq<Message>) // at most one message completed
    | Fault(parser: Parser)                               // append of a negative length throws

  /** Steps 7 to 9 of the source: the data is there, so take it. */
  function Accept(p: Parser, header: Header, msg: Message, data: Octets, used: nat): Outcome {
    var full := msg.(payload := msg.payload + data);
    var prevs := p.prevs[header.csid := header];
    if full.IsComplete() then
      Chunk(Parser(prevs, p.inProgress[header.csid := FRESH_MESSAGE],
                   NextChunkSize(p.chunkSize, full.header.msgType, full.payload)), used, [full])
    else
      Chunk(Parser(prevs, p.inProgress[header.csid := full], p.chunkSize), used, [])
  }

  /** The history entry of a csid has been made, if there was none. */
  function Touched(p: Parser, csid: int): Parser {
    p.(prevs := p.prevs[csid := p.Prev(csid)])
  }

  /** Steps 6 to 9: the header is known, the message is prepared, and the data is taken if it is all there. */
  function TakeData(p: Parser, header: Header, total: nat, b: Octets): Outcome
    requires total <= |b|
  {
    var msg := Prepare(p.Msg(header.csid), header);
    var touched := Touched(p, header.csid).(inProgress := p.inProgress[header.csid := msg]);
    var size := DataSize(msg, p.chunkSize);
    if |b| < total + size then NeedMore(touched)
    else if size < 0 then Fault(touched)
    else Accept(p, header, msg, b[total..total + size], total + size)
  }

  function Attempt(p: Parser, b: Octets): Outcome {
    match ParseHeader(p.prevs, b)
    case ShortOfMessageHeader => NeedMore(p)
    case ShortOfExtTs(csid) => NeedMore(Touched(p, csid))
    case Full(header, total) => TakeData(p, header, total, b)
  }

  // ----- What every reachable parser satisfies -----

  /** A message in progress is fresh, or has a length and is strictly short of it. */
  predicate MessageOk(msg: Message) {
    || (msg.header.msgLen == 0 && msg.payload == [])
    || |msg.payload| < msg.header.msgLen <= 0xFFFFFF
  }

  predicate ParserOk(p: Parser) {
    && 1 <= p.chunkSize <= MAX_CHUNK_SIZE
    && (forall c | c in p.prevs :: p.prevs[c].msgLen <= 0xFFFFFF)
    && (forall c | c in p.inProgress :: MessageOk(p.inProgress[c]))
  }

  /** Every successful attempt consumes something, which makes `Parse` terminate. */
  lemma AttemptProgress(p: Parser, b: Octets)
    ensures var o := Attempt(p, b); o.Chunk? ==> 1 <= o.used <= |b|
  {
  }

  // ----- Parse -----

  /** A parser together with its unread bytes and everything its callback has been given. */
  datatype Receiver = Receiver(parser: Parser, unread: Octets, out: seq<Message>, faulted: bool)

  const INITIAL_RECEIVER := Receiver(INITIAL_PARSER, [], [], false)

  /** `Parse`: attempts until the buffer is empty or an attempt needs more bytes. */
  function ParseAll(r: Receiver): Receiver
    decreases |r.unread|
  {
    if r.faulted || r.unread == [] then r
    else
      match Attempt(r.parser, r.unread)
      case NeedMore(p) => r.(parser := p)
      case Fault(p) => r.(parser := p, faulted := true)
      case Chunk(p, used, out) =>
        AttemptProgress(r.parser, r.unread);
        ParseAll(Receiver(p, r.unread[used..], r.out + out, false))
  }

  /** One read from the socket: the bytes are appended and the parser runs. */
  function Feed(r: Receiver, piece: Octets): Receiver {
    ParseAll(r.(unread := r.unread + piece))
  }

  function FeedAll(r: Receiver, pieces: seq<Octets>): Receiver
    decreases |pieces|
  {
    if pieces == [] then r else FeedAll(Feed(r, pieces[0]), pieces[1..])
  }
}
