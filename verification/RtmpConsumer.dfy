/**
 The cut of a message documented in `RtmpConsumer.cpp`: one full header, then
 one-byte fmt-3 headers. Its size, against the room `sendMessage` reserves.
 */
module RtmpConsumers {
  import opened Bytes
  import opened ChunkStep
  import opened ChunkWriter
  import opened RoundTrip

  /** The messages `OnPacket` sends: csids of one byte, and here without an extended timestamp. */
  predicate Plain(msg: Sent) {
    msg.Fits() && msg.csid < 64 && !NeedsExtTs(msg)
  }

  function Repeat(a: Action, n: nat): seq<Action> {
    seq(n, _ => a)
  }

  /** The documented cut into `n` chunks. */
  function Cut(msg: Sent, n: nat): seq<Action>
    requires n >= 1
  {
    [Put(msg, 0, false)] + Repeat(Put(msg, 3, false), n - 1)
  }

  function NumChunks(len: int, chunkSize: int): int
    requires chunkSize > 0
  {
    (len + chunkSize - 1) / chunkSize
  }

  lemma NumChunksIsCeiling(len: int, chunkSize: int)
    requires chunkSize > 0
    ensures var n := NumChunks(len, chunkSize); (n - 1) * chunkSize < len <= n * chunkSize
    ensures len > 0 ==> NumChunks(len, chunkSize) >= 1
    ensures 0 < len <= chunkSize ==> NumChunks(len, chunkSize) == 1
    ensures len > chunkSize ==> NumChunks(len - chunkSize, chunkSize) == NumChunks(len, chunkSize) - 1
  {
    var x := len + chunkSize - 1;
    var n := x / chunkSize;
    assert x == n * chunkSize + x % chunkSize;
    assert (n - 1) * chunkSize == n * chunkSize - chunkSize;
    Quotient(x - chunkSize, chunkSize, n - 1);
    if 0 < len <= chunkSize {
      Quotient(x, chunkSize, 1);
    }
  }

  lemma Quotient(x: int, d: int, q: int)
    requires d > 0
    ensures q * d <= x < (q + 1) * d ==> x / d == q
  {
    var r := x / d;
    assert x == r * d + x % d;
    assert r < q ==> (r + 1) * d <= q * d;
    assert r > q ==> (q + 1) * d <= r * d;
  }

  /** The continuations of an open message: one chunk per chunk size, one header byte each. */
  lemma {:induction false} ContinuationsSize(s: Sender, csid: nat, n: nat)
    requires SenderOk(s) && csid in s.open && csid !in s.ext && Plain(s.open[csid].msg)
    requires n == NumChunks(|s.open[csid].msg.payload| - s.open[csid].done, s.chunkSize)
    ensures
      var o := s.open[csid]; var acts := Repeat(Put(o.msg, 3, false), n);
      && Feasible(s, acts) && AllDisciplined(s, acts)
      && |Wire(s, acts)| == |o.msg.payload| - o.done + n
      && Finished(s, acts) == [o.msg]
    decreases n
  {
    hide SizeBehind, Wire;
    var o := s.open[csid];
    var a := Put(o.msg, 3, false);
    var left := |o.msg.payload| - o.done;
    NumChunksIsCeiling(left, s.chunkSize);
    NextOk(s, a);
    var t := Next(s, a);
    var rest := Repeat(a, n - 1);
    assert Repeat(a, n)[0] == a && Repeat(a, n)[1..] == rest;
    if left <= s.chunkSize {
      assert rest == [];
    } else {
      ContinuationsSize(t, csid, n - 1);
    }
    WireCons(s, Repeat(a, n));
    WireCons(t, rest);
    assert Throughout(s, Repeat(a, n), Disciplined);
  }

  lemma FirstChunk(s: Sender, msg: Sent)
    requires SenderOk(s) && Plain(msg)
    ensures
      var a := Put(msg, 0, false); var t := Next(s, a); var n := |msg.payload|;
      && Enabled(s, a) && Disciplined(s, a) && SenderOk(t)
      && |Emit(s, a)| == 12 + Min(n, s.chunkSize)
      && (n <= s.chunkSize ==> Completed(s, a) == [msg])
      && (n > s.chunkSize ==>
            && Completed(s, a) == [] && t.ext == s.ext && t.chunkSize == s.chunkSize
            && msg.csid in t.open && t.open[msg.csid] == Open(msg, s.chunkSize))
  {
    hide SizeBehind;
    NextOk(s, Put(msg, 0, false));
  }

  /**
   The documented cut of a non-empty message: exactly ceil(len / chunk size)
   chunks and 12 + len + (chunks - 1) bytes; and it is a schedule the parser
   puts together again.
   */
  lemma CutSize(s: Sender, msg: Sent)
    requires SenderOk(s) && Plain(msg) && msg.csid !in s.ext && msg.payload != []
    ensures
      var n := NumChunks(|msg.payload|, s.chunkSize);
      && n >= 1
      && var acts := Cut(msg, n);
         && Feasible(s, acts) && AllDisciplined(s, acts)
         && |Wire(s, acts)| == 12 + |msg.payload| + (n - 1)
         && Finished(s, acts) == [msg]
  {
    hide NumChunks, Emit, Wire, Next, Enabled, Disciplined, Completed;
    var a := Put(msg, 0, false);
    FirstChunk(s, msg);
    var n := NumChunks(|msg.payload|, s.chunkSize);
    NumChunksIsCeiling(|msg.payload|, s.chunkSize);
    var acts := Cut(msg, n);
    var rest := Repeat(Put(msg, 3, false), n - 1);
    assert acts[0] == a && acts[1..] == rest;
    var t := Next(s, a);
    if |msg.payload| > s.chunkSize {
      ContinuationsSize(t, msg.csid, n - 1);
    } else {
      assert rest == [];
    }
    WireCons(s, acts);
    WireCons(t, rest);
    assert Throughout(s, acts, Disciplined);
  }

  /** A cut message reaches a parser in step with the sender, whole. */
  lemma CutArrives(s: Sender, r: Receiver, msg: Sent)
    requires Linked(s, r.parser) && !r.faulted && r.unread == []
    requires Plain(msg) && msg.csid !in s.ext && msg.payload != []
    ensures
      var n := NumChunks(|msg.payload|, s.chunkSize);
      && n >= 1 && Feasible(s, Cut(msg, n))
      && var e := Feed(r, Wire(s, Cut(msg, n)));
         && !e.faulted && e.unread == [] && |e.out| == |r.out| + 1 && e.out[..|r.out|] == r.out
         && Delivers(e.out[|r.out|], msg)
  {
    hide Feed, Wire, Feasible, AllDisciplined, Finished, Final, LaneLinked, Cut, NumChunks;
    CutSize(s, msg);
    var acts := Cut(msg, NumChunks(|msg.payload|, s.chunkSize));
    ScheduleBack(s, acts, r);
  }

  /** The part of `sendMessage` that is there: how much it reserves for the packet. */
  method SendMessageRoom(s: Sender, msg: Sent) returns (room: nat)
    requires SenderOk(s) && Plain(msg) && msg.csid !in s.ext
    ensures msg.payload == [] ==> room == 0
    ensures msg.payload != [] ==>
              var n := NumChunks(|msg.payload|, s.chunkSize);
              n >= 1 && Feasible(s, Cut(msg, n)) && room == |Wire(s, Cut(msg, n))| + 1
  {
    var len := |msg.payload|;
    if len <= 0 {
      return 0;
    }
    CutSize(s, msg);
    var numChunks := (len + s.chunkSize - 1) / s.chunkSize;
    room := 12 + len + numChunks;
  }
}
