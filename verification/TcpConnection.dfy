/**
 The connection object of `TcpConnection.cpp`: its methods change the queue and
 the flags in place and are proved to take the steps of `TcpQueue`.
 */
module TcpConnections {
  import opened Bytes
  import opened MsgBuffers
  import TcpQueue

  class TcpConnection {
    const recvBuf: MsgBuffer
    var writeQueue: seq<Octets>
    var writing: bool
    var closed: bool

    // The environment's side: writes under way, and the records of `TcpQueue.Tcp`.
    ghost var inFlight: seq<Octets>
    ghost var sends: seq<Octets>
    ghost var wire: seq<Octets>

    ghost function Abs(): TcpQueue.Tcp
      reads this
    {
      TcpQueue.Tcp(closed, writing, writeQueue, inFlight, sends, wire)
    }

    constructor ()
      ensures Abs() == TcpQueue.INITIAL_TCP
      ensures recvBuf.Valid() && recvBuf.Readable() == [] && fresh(recvBuf) && fresh(recvBuf.buf)
      ensures recvBuf.appended == []
    {
      recvBuf := new MsgBuffer();
      writeQueue, writing, closed := [], false, false;
      inFlight, sends, wire := [], [], [];
    }

    method Close()
      modifies this
      ensures Abs() == TcpQueue.Close(old(Abs()))
    {
      if closed {
        return;
      }
      closed := true;
    }

    method Send(data: Octets)
      modifies this
      ensures Abs() == TcpQueue.Send(old(Abs()), data)
    {
      sends := sends + [data];
      var wasEmpty := writeQueue == [];
      writeQueue := writeQueue + [data];
      if wasEmpty && !writing {
        DoWrite();
      }
    }

    method DoWrite()
      modifies this
      ensures Abs() == TcpQueue.DoWrite(old(Abs()))
    {
      if writeQueue == [] || closed {
        writing := false;
        return;
      }
      writing := true;
      inFlight := inFlight + [writeQueue[0]];
    }

    /** The completion handler of `async_write`; `drained` says that the write-complete callback is called last. */
    method OnWriteDone(ok: bool) returns (drained: bool)
      requires TcpQueue.MayComplete(Abs())
      modifies this
      ensures Abs() == TcpQueue.WriteDone(old(Abs()), ok)
      ensures drained == TcpQueue.Drains(old(Abs()), ok)
    {
      drained := false;
      ghost var front := inFlight[0];
      inFlight := inFlight[1..];
      if ok {
        wire := wire + [front];
        writeQueue := writeQueue[1..];
        if writeQueue == [] {
          writing := false;
          drained := true;
        } else {
          DoWrite();
        }
      } else {
        Close();
      }
    }
  }
}
