/**
 What delivered messages do to the parser's chunk size: Set Chunk Size messages
 change it, all others leave it alone.
 */
module ChunkSizes {
  import opened Bytes
  import opened RtmpHeader
  import opened ChunkStep
  import opened ChunkWriter
  import opened Resume
  import opened RoundTrip

  /** One attempt, on any bytes: only a completed message that announces a size changes it, and to that size. */
  lemma AttemptChunkSize(p: Parser, b: Octets)
    ensures
      var o := Attempt(p, b);
      o.parser.chunkSize ==
      if o.Chunk? && o.out != [] then SizeBehind(p.chunkSize, o.out[0].header.msgType, o.out[0].payload)
      else p.chunkSize
  {
    hide ParseHeader, Prepare, DataSize, NextChunkSize, SizeBehind;
    var o := Attempt(p, b);
    if o.Chunk? && o.out != [] {
      SameSizeRule(p.chunkSize, o.out[0].header.msgType, o.out[0].payload);
    }
  }

  /** The size of the last message that announced one; 128 if none has. */
  function LastAnnounced(out: seq<Message>): int {
    if out == [] then 128
    else
      var m := out[|out| - 1];
      if Announces(m.header.msgType, m.payload) then AnnouncedSize(m.payload)
      else LastAnnounced(out[..|out| - 1])
  }

  lemma {:induction false} ParseAllChunkSize(r: Receiver)
    requires ReceiverOk(r) && r.parser.chunkSize == LastAnnounced(r.out)
    ensures var e := ParseAll(r); e.parser.chunkSize == LastAnnounced(e.out)
    decreases |r.unread|
  {
    hide Attempt;
    if !r.faulted && r.unread != [] {
      AttemptChunkSize(r.parser, r.unread);
      AttemptOk(r.parser, r.unread);
      AttemptProgress(r.parser, r.unread);
      match Attempt(r.parser, r.unread)
      case NeedMore(p) =>
      case Fault(p) =>
      case Chunk(p, used, out) =>
        if out == [] {
          assert r.out + out == r.out;
        } else {
          assert (r.out + out)[..|r.out|] == r.out;
        }
        ParseAllChunkSize(Receiver(p, r.unread[used..], r.out + out, false));
    }
  }

  /**
   After any reads whatsoever the chunk size is that of the last delivered Set
   Chunk Size message with a size in 1..65535, and 128 if there was none.
   */
  lemma ChunkSizeIsAnnounced(pieces: seq<Octets>)
    ensures var e := FeedAll(INITIAL_RECEIVER, pieces); e.parser.chunkSize == LastAnnounced(e.out)
  {
    hide FeedAll, ParseAll;
    FragmentationIndependence(pieces);
    ParseAllChunkSize(INITIAL_RECEIVER.(unread := INITIAL_RECEIVER.unread + Concat(pieces)));
  }
}
