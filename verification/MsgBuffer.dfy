/**
 The growable receive buffer of `MsgBuffer.h`: readable bytes between `head`
 and `tail` of an array that is compacted and grown in place.
 */
module MsgBuffers {
  import opened Bytes

  const BUFFER_DEFAULT_LENGTH := 4096

  class MsgBuffer {
    var buf: array<Byte>
    var head: nat
    var tail: nat

    // Everything ever appended, and everything ever retrieved.
    ghost var appended: Octets
    ghost var retrieved: Octets

    /** Besides the bounds: what was appended is what was retrieved followed by what is readable. */
    ghost predicate Valid()
      reads this, buf
    {
      && head <= tail <= buf.Length
      && appended == retrieved + buf[head..tail]
    }

    ghost function Readable(): Octets
      requires head <= tail <= buf.Length
      reads this, buf
    {
      buf[head..tail]
    }

    constructor (len: nat := BUFFER_DEFAULT_LENGTH)
      ensures Valid() && fresh(buf) && buf.Length == len
      ensures Readable() == [] && appended == [] && retrieved == []
    {
      buf := new Byte[len](_ => 0);
      head, tail := 0, 0;
      appended, retrieved := [], [];
    }

    function ReadableBytes(): (n: nat)
      requires head <= tail <= buf.Length
      reads this, buf
      ensures n == |Readable()|
    {
      tail - head
    }

    function WritableBytes(): nat
      requires tail <= buf.Length
      reads this, buf
    {
      buf.Length - tail
    }

    /** What `Peek()` points at. */
    method Peek() returns (bytes: Octets)
      requires Valid()
      ensures bytes == Readable()
    {
      bytes := buf[head..tail];
    }

    method RetrieveAll()
      requires Valid()
      modifies this
      ensures Valid() && buf == old(buf) && Readable() == []
      ensures appended == old(appended) && retrieved == old(retrieved + Readable())
      ensures head == tail == 0
    {
      retrieved := retrieved + buf[head..tail];
      head, tail := 0, 0;
    }

    method Retrieve(n: nat)
      requires Valid() && n <= |Readable()|
      modifies this
      ensures Valid() && buf == old(buf) && Readable() == old(Readable())[n..]
      ensures appended == old(appended) && retrieved == old(retrieved + Readable()[..n])
    {
      if n < ReadableBytes() {
        retrieved := retrieved + buf[head..head + n];
        assert buf[head..tail] == buf[head..head + n] + buf[head + n..tail];
        head := head + n;
      } else {
        assert Readable()[..n] == Readable();
        RetrieveAll();
      }
    }

    /** The caller has stored `n` bytes behind the tail; they become readable. */
    method HasWritten(n: nat)
      requires Valid() && n <= WritableBytes()
      modifies this
      ensures Valid() && buf == old(buf)
      ensures Readable() == old(Readable()) + old(buf[tail..tail + n])
      ensures appended == old(appended) + old(buf[tail..tail + n]) && retrieved == old(retrieved)
      ensures head == old(head) && tail == old(tail) + n
    {
      appended := appended + buf[tail..tail + n];
      tail := tail + n;
      assert buf[head..tail] == old(buf[head..tail]) + old(buf[tail..tail + n]);
    }

    /**
     Offers room for `len` more bytes by moving the readable bytes to the front
     and, if that is not enough, by growing; the readable bytes stay the same.
     */
    method EnsureWritableBytes(len: nat)
      requires Valid()
      modifies this, buf
      ensures Valid() && (buf == old(buf) || fresh(buf))
      ensures WritableBytes() >= len
      ensures Readable() == old(Readable()) && appended == old(appended) && retrieved == old(retrieved)
      ensures old(WritableBytes()) >= len ==> buf == old(buf) && buf[..] == old(buf[..]) && head == old(head)
      ensures old(WritableBytes()) < len ==> head == 0
      ensures buf.Length == old(buf.Length) || buf.Length == tail + len
    {
      if WritableBytes() >= len {
        return;
      }
      if head > 0 {
        Compact();
      }
      if WritableBytes() < len {
        Grow(len);
      }
    }

    /** `memmove` of the readable bytes to the front of the array. */
    method Compact()
      requires Valid()
      modifies this, buf
      ensures Valid() && buf == old(buf) && head == 0
      ensures Readable() == old(Readable()) && appended == old(appended) && retrieved == old(retrieved)
    {
      var readable := ReadableBytes();
      forall i | 0 <= i < readable {
        buf[i] := buf[head + i];
      }
      assert buf[0..readable] == old(buf[head..tail]);
      head, tail := 0, readable;
    }

    /** `vector::resize` to `tail + len`. */
    method Grow(len: nat)
      requires Valid() && WritableBytes() < len
      modifies this
      ensures Valid() && fresh(buf) && buf.Length == old(tail) + len
      ensures Readable() == old(Readable()) && appended == old(appended) && retrieved == old(retrieved)
      ensures head == old(head) && tail == old(tail)
    {
      var larger := new Byte[tail + len](_ => 0);
      forall i | 0 <= i < buf.Length {
        larger[i] := buf[i];
      }
      assert larger[head..tail] == buf[head..tail];
      buf := larger;
    }

    method Append(data: Octets)
      requires Valid()
      modifies this, buf
      ensures Valid() && (buf == old(buf) || fresh(buf))
      ensures Readable() == old(Readable()) + data
      ensures appended == old(appended) + data && retrieved == old(retrieved)
    {
      EnsureWritableBytes(|data|);
      Store(data);
      HasWritten(|data|);
    }

    /** `memcpy` to `BeginWrite()`; also what the socket does with the bytes it has read. */
    method Store(data: Octets)
      requires Valid() && |data| <= WritableBytes()
      modifies buf
      ensures Valid()
      ensures Readable() == old(Readable()) && buf[tail..tail + |data|] == data
    {
      forall i | 0 <= i < |data| {
        buf[tail + i] := data[i];
      }
      assert buf[head..tail] == old(buf[head..tail]);
    }
  }
}
