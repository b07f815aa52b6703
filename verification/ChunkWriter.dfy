/**
 The sending side of a chunk stream: messages cut into chunks and interleaved
 at chunk boundaries.

 The layout is the one `RtmpConsumer::sendMessage` documents (a full header,
 then one-byte fmt-3 headers) extended to chunks of any format, at the start of a
 message or within it. Nothing here refers to the parser; the sender has its own
 rule for what a Set Chunk Size message does.
 */
module ChunkWriter {
  import opened Bytes
  import opened RtmpHeader

  /** A message as its sender sees it. */
  datatype Sent = Sent(csid: nat, timestamp: U32, msgType: Byte, streamId: U32, payload: Octets) {
    predicate Fits() {
      2 <= csid <= 65599 && |payload| <= 0xFFFFFF
    }
  }

  /** What the receiver's callback makes of a delivered message; only `fmt` and `hasExtTs` are forgotten. */
  predicate Delivers(m: Message, s: Sent) {
    m == Message(Header(s.csid, s.timestamp, |s.payload| % 0x1_0000_0000, s.msgType, s.streamId,
                        m.header.fmt, m.header.hasExtTs), s.payload)
  }

  datatype Open = Open(msg: Sent, done: nat)

  /**
   A sender: the messages it has begun and how much of each is out, the last
   message on each csid, two records of extended timestamps, and the
   chunk size. A csid is in `ext` once a fmt-0 chunk on it has carried an
   extended timestamp, and in `announced` if its latest fmt 0, 1 or 2 chunk has.
   */
  datatype Sender = Sender(open: map<nat, Open>, last: map<nat, Sent>, ext: set<nat>, announced: set<nat>,
                           chunkSize: int)

  const INITIAL_SENDER := Sender(map[], map[], {}, {}, DEFAULT_CHUNK_SIZE)

  /**
   Send the next chunk of a message, in any of the four formats, with or
   without an extended timestamp. A fmt-0 chunk always begins the message; a
   chunk of another format continues the open message of its csid, if there is
   one, whose length, type and time it may amend.
   */
  datatype Action = Put(msg: Sent, fmt: Fmt, ext: bool)

  // ----- Layout -----

  function BasicHeaderBytes(fmt: Fmt, csid: nat): (r: Octets)
    requires 2 <= csid <= 65599
    ensures 1 <= |r| <= 3
  {
    if csid < 64 then [fmt * 64 + csid]
    else if csid < 320 then [fmt * 64, csid - 64]
    else [fmt * 64 + 1, (csid - 64) % 256, (csid - 64) / 256]
  }

  predicate NeedsExtTs(msg: Sent) {
    msg.timestamp >= MAX_TIMESTAMP_IN_HEADER
  }

  function Delta(last: Sent, msg: Sent): U32 {
    (msg.timestamp as int - last.timestamp) % 0x1_0000_0000
  }

  /** The 24-bit time field of a fmt 0, 1 or 2 chunk; all ones announce an extended timestamp. */
  function TimeField(last: Sent, msg: Sent, fmt: Fmt, ext: bool): U32 {
    if ext then MAX_TIMESTAMP_IN_HEADER else if fmt == 0 then msg.timestamp else Delta(last, msg)
  }

  /** The extended timestamp: the full value of the time field, and of the message's time for fmt 3. */
  function ExtTsBytes(last: Sent, msg: Sent, fmt: Fmt, ext: bool): (r: Octets)
    ensures |r| == if ext then 4 else 0
  {
    if !ext then [] else U32BE(if fmt == 1 || fmt == 2 then Delta(last, msg) else msg.timestamp)
  }

  /** The message header of a chunk of `msg`; `last` is the message before it on the csid. */
  function MsgHeaderBytes(last: Sent, msg: Sent, fmt: Fmt, ext: bool): (r: Octets)
    requires msg.Fits()
    ensures |r| == MsgHeaderSize(fmt)
  {
    var time := U24BE(TimeField(last, msg, fmt, ext));
    if fmt == 0 then time + U24BE(|msg.payload|) + [msg.msgType] + U32LE(msg.streamId)
    else if fmt == 1 then time + U24BE(|msg.payload|) + [msg.msgType]
    else if fmt == 2 then time
    else []
  }

  function HeaderBytes(last: Sent, msg: Sent, fmt: Fmt, ext: bool): (r: Octets)
    requires msg.Fits()
    ensures |r| >= 1
  {
    BasicHeaderBytes(fmt, msg.csid) + MsgHeaderBytes(last, msg, fmt, ext) + ExtTsBytes(last, msg, fmt, ext)
  }

  // ----- The sender's steps -----

  /** The message before on a csid; at first, as it were, an empty one at time 0. */
  function LastOn(s: Sender, c: nat): Sent {
    if c in s.last then s.last[c] else Sent(c, 0, 0, 0, [])
  }

  predicate Continues(s: Sender, a: Action) {
    a.fmt > 0 && a.msg.csid in s.open
  }

  /** The length, type and stream id a chunk leaves out are those of the message before. */
  predicate SameFields(last: Sent, msg: Sent, fmt: Fmt) {
    && (fmt > 0 ==> last.streamId == msg.streamId)
    && (fmt >= 2 ==> last.msgType == msg.msgType && |last.payload| == |msg.payload|)
  }

  /**
   The time is not lost either. Without an extended timestamp a delta has 24
   bits, and a fmt-3 start has the timestamp of the message before: a sender
   that means "same delta" emits the same bytes, but this is what the parser
   reads in them.
   */
  predicate SameTime(last: Sent, msg: Sent, fmt: Fmt, ext: bool) {
    && ((fmt == 1 || fmt == 2) && !ext ==> Delta(last, msg) <= 0xFFFFFF)
    && (fmt == 3 && !ext ==> last.timestamp == msg.timestamp)
  }

  predicate MayCompress(last: Sent, msg: Sent, fmt: Fmt, ext: bool) {
    SameFields(last, msg, fmt) && SameTime(last, msg, fmt, ext)
  }

  /**
   What a compressed chunk leaves out is in the message before; a time that does
   not fit the field of a fmt-0 chunk needs an extended timestamp; and a chunk
   that continues a message agrees with what is out of it already.
   */
  predicate Enabled(s: Sender, a: Action) {
    var msg := a.msg;
    && msg.Fits()
    && (a.fmt == 0 && !a.ext ==> !NeedsExtTs(msg))
    && (a.fmt > 0 ==> MayCompress(LastOn(s, msg.csid), msg, a.fmt, a.ext))
    && (Continues(s, a) ==>
          var o := s.open[msg.csid];
          o.done <= |o.msg.payload| && o.done <= |msg.payload| && msg.payload[..o.done] == o.msg.payload[..o.done])
  }

  /**
   Whether the parser looks for an extended timestamp: in a fmt-0 chunk if the
   field announces one, in a fmt-1 or fmt-2 chunk never, and in a fmt-3 chunk
   if its flag for the csid is set. The flag is never cleared.
   */
  predicate LooksForExt(flag: bool, fmt: Fmt, ext: bool) {
    if fmt == 0 then ext else fmt == 3 && flag
  }

  /** The chunk carries an extended timestamp exactly if the parser looks for one. */
  predicate Disciplined(s: Sender, a: Action) {
    a.ext <==> LooksForExt(a.msg.csid in s.ext, a.fmt, a.ext)
  }

  /**
   Section 5.3.1.3 of Adobe's RTMP Specification 1.0: an extended timestamp is
   sent exactly when the time or delta does not fit the field, or, in a fmt-3
   chunk, when the latest fmt 0, 1 or 2 chunk of the csid announced one.
   */
  predicate Conforming(s: Sender, a: Action) {
    if a.fmt == 0 then a.ext <==> NeedsExtTs(a.msg)
    else if a.fmt == 3 then a.ext <==> a.msg.csid in s.announced
    else a.ext <==> Delta(LastOn(s, a.msg.csid), a.msg) >= MAX_TIMESTAMP_IN_HEADER
  }

  function DoneBefore(s: Sender, a: Action): nat {
    if Continues(s, a) then s.open[a.msg.csid].done else 0
  }

  predicate SenderOk(s: Sender) {
    && 1 <= s.chunkSize <= MAX_CHUNK_SIZE
    && (forall c | c in s.open ::
          && s.open[c].msg.Fits() && s.open[c].msg.csid == c && s.open[c].done < |s.open[c].msg.payload|
          && c in s.last && s.last[c] == s.open[c].msg)
    && (forall c | c in s.last :: s.last[c].csid == c && s.last[c].Fits())
  }

  function DoneAfter(s: Sender, a: Action): nat
    requires SenderOk(s) && Enabled(s, a)
  {
    DoneBefore(s, a) + Min(|a.msg.payload| - DoneBefore(s, a), s.chunkSize)
  }

  /** The bytes of one chunk. */
  function Emit(s: Sender, a: Action): Octets
    requires SenderOk(s) && Enabled(s, a)
  {
    HeaderBytes(LastOn(s, a.msg.csid), a.msg, a.fmt, a.ext) + a.msg.payload[DoneBefore(s, a)..DoneAfter(s, a)]
  }

  /** The message whose last byte this chunk carries, if any. */
  function Completed(s: Sender, a: Action): seq<Sent>
    requires SenderOk(s) && Enabled(s, a)
  {
    if DoneAfter(s, a) == |a.msg.payload| then [a.msg] else []
  }

  /**
   A message that changes the chunk size (section 5.4.1 of Adobe's RTMP
   Specification 1.0, with the sizes up to 65535 that the server takes): type 1,
   and in its first four bytes, most significant first, without the top bit, a
   size from 1.
   */
  predicate Announces(msgType: Byte, payload: Octets) {
    msgType == 1 && |payload| >= 4 && 1 <= AnnouncedSize(payload) <= 65535
  }

  function AnnouncedSize(payload: Octets): nat
    requires |payload| >= 4
  {
    payload[0] as int % 128 * 16777216 + payload[1] as int * 65536 + payload[2] as int * 256 + payload[3] as int
  }

  /** The chunk size of a sender behind a message of its. */
  function SizeBehind(chunkSize: int, msgType: Byte, payload: Octets): int {
    if Announces(msgType, payload) then AnnouncedSize(payload) else chunkSize
  }

  function Next(s: Sender, a: Action): (s': Sender)
    requires SenderOk(s) && Enabled(s, a)
  {
    var msg := a.msg;
    var c := msg.csid;
    var ext := if a.fmt == 0 && a.ext then s.ext + {c} else s.ext;
    var announced := if a.fmt == 3 then s.announced else if a.ext then s.announced + {c} else s.announced - {c};
    if DoneAfter(s, a) == |msg.payload| then
      Sender(s.open - {c}, s.last[c := msg], ext, announced, SizeBehind(s.chunkSize, msg.msgType, msg.payload))
    else
      Sender(s.open[c := Open(msg, DoneAfter(s, a))], s.last[c := msg], ext, announced, s.chunkSize)
  }

  lemma NextOk(s: Sender, a: Action)
    requires SenderOk(s) && Enabled(s, a)
    ensures SenderOk(Next(s, a))
  {
    hide MayCompress;
  }

  // ----- Schedules -----

  predicate Feasible(s: Sender, acts: seq<Action>)
    requires SenderOk(s)
    decreases |acts|
  {
    acts == [] || (Enabled(s, acts[0]) && (NextOk(s, acts[0]); Feasible(Next(s, acts[0]), acts[1..])))
  }

  function Final(s: Sender, acts: seq<Action>): Sender
    requires SenderOk(s) && Feasible(s, acts)
    decreases |acts|
  {
    if acts == [] then s else (NextOk(s, acts[0]); Final(Next(s, acts[0]), acts[1..]))
  }

  /** The chunks sent, in order. */
  function Chunks(s: Sender, acts: seq<Action>): seq<Octets>
    requires SenderOk(s) && Feasible(s, acts)
    decreases |acts|
  {
    if acts == [] then [] else (NextOk(s, acts[0]); [Emit(s, acts[0])] + Chunks(Next(s, acts[0]), acts[1..]))
  }

  /** The bytes on the wire. */
  function Wire(s: Sender, acts: seq<Action>): Octets
    requires SenderOk(s) && Feasible(s, acts)
  {
    Concat(Chunks(s, acts))
  }

  lemma WireCons(s: Sender, acts: seq<Action>)
    requires SenderOk(s) && Feasible(s, acts)
    ensures acts == [] ==> Wire(s, acts) == []
    ensures acts != [] ==>
              SenderOk(Next(s, acts[0])) && Wire(s, acts) == Emit(s, acts[0]) + Wire(Next(s, acts[0]), acts[1..])
  {
    hide Enabled, Emit, Next;
    if acts != [] {
      NextOk(s, acts[0]);
      var rest := Chunks(Next(s, acts[0]), acts[1..]);
      assert ([Emit(s, acts[0])] + rest)[1..] == rest;
    }
  }

  /** The messages finished, in the order of their last chunks. */
  function Finished(s: Sender, acts: seq<Action>): seq<Sent>
    requires SenderOk(s) && Feasible(s, acts)
    decreases |acts|
  {
    if acts == [] then [] else (NextOk(s, acts[0]); Completed(s, acts[0]) + Finished(Next(s, acts[0]), acts[1..]))
  }

  /** A property of sender and action holds at every chunk of the schedule. */
  predicate Throughout(s: Sender, acts: seq<Action>, holds: (Sender, Action) -> bool)
    requires SenderOk(s) && Feasible(s, acts)
    decreases |acts|
  {
    acts == [] || (holds(s, acts[0]) && (NextOk(s, acts[0]); Throughout(Next(s, acts[0]), acts[1..], holds)))
  }

  predicate AllDisciplined(s: Sender, acts: seq<Action>)
    requires SenderOk(s) && Feasible(s, acts)
  {
    Throughout(s, acts, Disciplined)
  }
}
