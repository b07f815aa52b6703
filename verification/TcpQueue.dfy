/**
 The write queue of `TcpConnection.cpp`. The steps run one at a time on the
 connection's loop thread: `Send`, `Close`, and the completion of an
 asynchronous write.
 */
module TcpQueue {
  import opened Bytes

  /**
   The write side of a connection. `inFlight` holds the asynchronous writes the
   system has been given and not completed; `sends` and `wire` record all
   buffers given to `Send` and all buffers completely written.
   */
  datatype Tcp = Tcp(closed: bool, writing: bool, queue: seq<Octets>, inFlight: seq<Octets>,
                     sends: seq<Octets>, wire: seq<Octets>)

  const INITIAL_TCP := Tcp(false, false, [], [], [], [])

  /** Starts writing the front of the queue, unless there is none or the connection is closed. */
  function DoWrite(t: Tcp): Tcp {
    if t.queue == [] || t.closed then t.(writing := false)
    else t.(writing := true, inFlight := t.inFlight + [t.queue[0]])
  }

  function Send(t: Tcp, data: Octets): Tcp {
    var pushed := t.(queue := t.queue + [data], sends := t.sends + [data]);
    if t.queue == [] && !t.writing then DoWrite(pushed) else pushed
  }

  function SendAll(t: Tcp, batch: seq<Octets>): Tcp
    decreases |batch|
  {
    if batch == [] then t else SendAll(Send(t, batch[0]), batch[1..])
  }

  function Close(t: Tcp): Tcp {
    t.(closed := true)
  }

  /** A write may complete only if one is under way; its buffer is still at the front of the queue. */
  predicate MayComplete(t: Tcp) {
    t.inFlight != [] && t.queue != []
  }

  /** Completion of the oldest write: the buffer leaves the queue, or the connection is closed on an error. */
  function WriteDone(t: Tcp, ok: bool): Tcp
    requires MayComplete(t)
  {
    var done := t.(inFlight := t.inFlight[1..]);
    if !ok then Close(done)
    else
      var popped := done.(queue := t.queue[1..], wire := t.wire + [t.inFlight[0]]);
      if popped.queue == [] then popped.(writing := false) else DoWrite(popped)
  }

  /** Whether this completion calls the write-complete callback. */
  predicate Drains(t: Tcp, ok: bool)
    requires MayComplete(t)
  {
    ok && |t.queue| == 1
  }

  /**
   The invariant of all runs: nothing is lost, repeated or reordered; at most
   one write is in flight, that of the front; and while the connection is open,
   "queue not empty", "writing" and "a write is in flight" are the same thing.
   */
  predicate TcpOk(t: Tcp) {
    && t.sends == t.wire + t.queue
    && (t.inFlight != [] ==> t.queue != [] && t.writing && t.inFlight == [t.queue[0]])
    && (!t.closed ==> (t.writing <==> t.queue != []) && (t.writing <==> t.inFlight != []))
  }

  lemma SendOk(t: Tcp, data: Octets)
    requires TcpOk(t)
    ensures var t' := Send(t, data);
            TcpOk(t') && t'.sends == t.sends + [data] && t'.wire == t.wire && t'.closed == t.closed
            && t'.queue == t.queue + [data]
  {
    assert t.sends + [data] == t.wire + (t.queue + [data]);
  }

  lemma {:induction false} SendAllOk(t: Tcp, batch: seq<Octets>)
    requires TcpOk(t)
    ensures var t' := SendAll(t, batch);
            TcpOk(t') && t'.sends == t.sends + batch && t'.wire == t.wire && t'.closed == t.closed
            && t'.queue == t.queue + batch
    decreases |batch|
  {
    if batch == [] {
      assert t.sends + batch == t.sends && t.queue + batch == t.queue;
    } else {
      hide Send, TcpOk;
      SendOk(t, batch[0]);
      SendAllOk(Send(t, batch[0]), batch[1..]);
      Unshift(t.sends, batch);
      Unshift(t.queue, batch);
    }
  }

  lemma Unshift(s: seq<Octets>, batch: seq<Octets>)
    requires batch != []
    ensures (s + [batch[0]]) + batch[1..] == s + batch
  {
  }

  /** A completion takes the front over to the wire; the callback fires only on a drained, idle queue. */
  lemma WriteDoneOk(t: Tcp, ok: bool)
    requires TcpOk(t) && MayComplete(t)
    ensures var t' := WriteDone(t, ok);
            && TcpOk(t')
            && t'.sends == t.sends && t'.closed == (t.closed || !ok)
            && (ok ==> t'.wire == t.wire + [t.queue[0]] && t'.queue == t.queue[1..])
            && (!ok ==> t'.wire == t.wire && t'.queue == t.queue)
            && (Drains(t, ok) ==> t'.queue == [] && !t'.writing && t'.inFlight == [])
  {
    assert t.wire + t.queue == (t.wire + [t.queue[0]]) + t.queue[1..];
  }

  // ----- Runs -----

  /** What can happen to a connection; `replies` is what the write-complete callback sends if it fires. */
  datatype Event = SendCall(data: Octets) | CloseCall | Completion(ok: bool, replies: seq<Octets>)

  predicate EventEnabled(t: Tcp, e: Event) {
    e.Completion? ==> MayComplete(t)
  }

  function Step(t: Tcp, e: Event): Tcp
    requires EventEnabled(t, e)
  {
    match e
    case SendCall(data) => Send(t, data)
    case CloseCall => Close(t)
    case Completion(ok, replies) =>
      if Drains(t, ok) then SendAll(WriteDone(t, ok), replies) else WriteDone(t, ok)
  }

  predicate Run(t: Tcp, events: seq<Event>)
    decreases |events|
  {
    events == [] || (EventEnabled(t, events[0]) && Run(Step(t, events[0]), events[1..]))
  }

  function RunEnd(t: Tcp, events: seq<Event>): Tcp
    requires Run(t, events)
    decreases |events|
  {
    if events == [] then t else RunEnd(Step(t, events[0]), events[1..])
  }

  /** Write FIFO, for every run and whatever the callback sends. */
  lemma {:induction false} WriteFifo(t: Tcp, events: seq<Event>)
    requires TcpOk(t) && Run(t, events)
    ensures var e := RunEnd(t, events);
            && TcpOk(e)
            && t.sends <= e.sends && t.wire <= e.wire <= e.sends
            && (!e.closed && e.inFlight == [] ==> e.wire == e.sends)
    decreases |events|
  {
    if events != [] {
      var e := events[0];
      var next := Step(t, e);
      match e {
        case SendCall(data) => SendOk(t, data);
        case CloseCall =>
        case Completion(ok, replies) =>
          WriteDoneOk(t, ok);
          SendAllOk(WriteDone(t, ok), replies);
      }
      WriteFifo(next, events[1..]);
    }
  }

  /**
   A closed connection starts no write: in every run from there only the write
   that was under way can still complete, and no other is ever in flight.
   */
  lemma {:induction false} ClosedStartsNothing(t: Tcp, events: seq<Event>)
    requires TcpOk(t) && t.closed && Run(t, events)
    ensures
      var e := RunEnd(t, events);
      && e.closed && e.wire <= t.wire + t.inFlight
      && |e.inFlight| <= |t.inFlight|
      && (e.inFlight != [] ==> e.inFlight == t.inFlight && e.wire == t.wire)
    decreases |events|
  {
    if events != [] {
      var e := events[0];
      var next := Step(t, e);
      match e {
        case SendCall(data) => SendOk(t, data);
        case CloseCall =>
        case Completion(ok, replies) =>
          WriteDoneOk(t, ok);
          SendAllOk(WriteDone(t, ok), replies);
          SendAllClosed(WriteDone(t, ok), replies);
      }
      assert next.wire + next.inFlight <= t.wire + t.inFlight;
      ClosedStartsNothing(next, events[1..]);
    }
  }

  lemma {:induction false} SendAllClosed(t: Tcp, batch: seq<Octets>)
    requires TcpOk(t) && t.closed
    ensures var t' := SendAll(t, batch); t'.inFlight == t.inFlight && t'.wire == t.wire
    decreases |batch|
  {
    if batch != [] {
      SendOk(t, batch[0]);
      SendAllClosed(Send(t, batch[0]), batch[1..]);
    }
  }
}
