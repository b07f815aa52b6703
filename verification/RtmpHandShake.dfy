/**
 The handshake object of `RtmpHandShake.cpp` for a server: two packet buffers
 filled in place, a mode flag and a state. It is proved to take the steps of
 `HandShakeSteps`.
 */
module RtmpHandShakes {
  import opened Bytes
  import opened HandShakeDigest
  import opened HandShakeSteps
  import opened MsgBuffers
  import opened TcpConnections
  import TcpQueue

  lemma SameOffset(p: Octets, q: Octets, off: nat)
    requires off + 4 <= |p| && off + 4 <= |q| && p[off..off + 4] == q[off..off + 4]
    ensures GetDigestOffset(p, off) == GetDigestOffset(q, off)
  {
    var w := p[off..off + 4];
    assert p[off] == w[0] && p[off + 1] == w[1] && p[off + 2] == w[2] && p[off + 3] == w[3];
    var w' := q[off..off + 4];
    assert q[off] == w'[0] && q[off + 1] == w'[1] && q[off + 2] == w'[2] && q[off + 3] == w'[3];
  }

  class RtmpHandShake {
    const connection: TcpConnection
    const isClient := false
    const hmac: Hmac
    const c1s1: array<Byte>
    const c2s2: array<Byte>
    var isComplex: bool
    var state: Phase

    ghost predicate Valid() {
      c1s1.Length == C0C1_SIZE && c2s2.Length == PACKET_SIZE && c1s1 != c2s2
    }

    ghost function Abs(): Shake
      reads this, c1s1, c2s2
    {
      Shake(state, isComplex, c1s1[..], c2s2[..])
    }

    /** Construction followed by `Start`. */
    constructor (connection: TcpConnection, hmac: Hmac, random: RandomC0C1)
      ensures Valid() && fresh(c1s1) && fresh(c2s2)
      ensures this.connection == connection && this.hmac == hmac
      ensures Abs() == Started(hmac, random)
    {
      this.connection, this.hmac := connection, hmac;
      c1s1 := new Byte[C0C1_SIZE](_ => 0);
      c2s2 := new Byte[PACKET_SIZE](_ => 0);
      isComplex := true;
      state := WaitC0C1;
      new;
      CreateC1S1(random);
      assert c2s2[..] == seq(PACKET_SIZE, _ => 0);
    }

    method CreateC1S1(random: RandomC0C1)
      requires Valid()
      modifies c1s1
      ensures c1s1[..] == C1S1(hmac, isComplex, isClient, random)
    {
      DrawInto(c1s1, random);
      c1s1[0] := 3;
      Fill(c1s1, 1, [0, 0, 0, 0]);
      if !isComplex {
        Fill(c1s1, 5, [0, 0, 0, 0]);
        assert c1s1[..] == Unsigned(false, isClient, random);
      } else {
        var offset := GetDigestOffset(c1s1[1..], 8);
        ghost var before := c1s1[1..];
        Fill(c1s1, 5, OpenKey(isClient)[..4]);
        assert c1s1[..] == Unsigned(true, isClient, random);
        SameOffset(before, c1s1[1..], 8);
        Sign(offset);
      }
    }

    /** Puts the digest of the packet behind the version byte into the packet. */
    method Sign(offset: nat)
      requires Valid() && c1s1[0] == 3 && 12 <= offset && offset + DIGEST_LENGTH <= PACKET_SIZE
      modifies c1s1
      ensures
        var packet := old(c1s1[1..]);
        c1s1[..] == [3] + Splice(packet, offset, CalculateDigest(hmac, packet, offset, OpenKey(isClient)))
    {
      var digest := CalculateDigest(hmac, c1s1[1..], offset, OpenKey(isClient));
      Fill(c1s1, 1 + offset, digest);
    }

    /** One random byte after the other. */
    method DrawInto(a: array<Byte>, random: Octets)
      requires |random| == a.Length
      modifies a
      ensures a[..] == random
    {
      for i := 0 to a.Length
        invariant a[..i] == random[..i]
      {
        a[i] := random[i];
      }
    }

    /** `memcpy` and `memset` into a buffer. */
    method Fill(a: array<Byte>, at: nat, piece: Octets)
      requires at + |piece| <= a.Length
      modifies a
      ensures a[..] == Splice(old(a[..]), at, piece)
    {
      forall i | 0 <= i < |piece| {
        a[at + i] := piece[i];
      }
    }

    /** The result of the source: the offset of the digest, 0 for a simple handshake, -1 for a refusal. */
    method CheckC1S1(data: Octets) returns (offset: int)
      modifies this`isComplex
      ensures
        match HandShakeDigest.CheckC1S1(hmac, isClient, data)
        case Refused => offset == -1 && isComplex == old(isComplex)
        case Simple => offset == 0 && !isComplex
        case Complex(at) => offset == at && isComplex == old(isComplex)
    {
      if |data| != PACKET_SIZE + 1 {
        return -1;
      }
      if data[0] != 3 {
        return -1;
      }
      var version := ReadU32BE(data, 5);
      if version == 0 {
        isComplex := false;
        return 0;
      }
      var packet, key := data[1..], OpenKey(!isClient);
      offset := GetDigestOffset(packet, 8);
      if VerifyDigest(hmac, packet, offset, key) {
        return;
      }
      offset := GetDigestOffset(packet, 772);
      if VerifyDigest(hmac, packet, offset, key) {
        return;
      }
      isComplex := false;
      return 0;
    }

    method CreateC2S2(data: Octets, offset: nat, draw: Draw)
      requires Valid() && |data| == PACKET_SIZE && offset + DIGEST_LENGTH <= PACKET_SIZE
      modifies c2s2
      ensures c2s2[..] == C2S2(hmac, isComplex, isClient, data, offset, draw.random, draw.now)
    {
      DrawInto(c2s2, draw.random);
      Fill(c2s2, 0, data[..8]);
      Fill(c2s2, 0, U32BE(draw.now));
      assert c2s2[..] == Echo(data, draw.random, draw.now);
      if isComplex {
        var body := PACKET_SIZE - DIGEST_LENGTH;
        var key := CalculateDigest(hmac, data[offset..offset + DIGEST_LENGTH], 0, WholeKey(isClient));
        var signature := CalculateDigest(hmac, c2s2[..body], 0, key);
        Fill(c2s2, body, signature);
      }
    }

    method SendC1S1()
      modifies connection
      ensures connection.Abs() == TcpQueue.Send(old(connection.Abs()), c1s1[..])
    {
      connection.Send(c1s1[..]);
    }

    method SendC2S2()
      modifies connection
      ensures connection.Abs() == TcpQueue.Send(old(connection.Abs()), c2s2[..])
    {
      connection.Send(c2s2[..]);
    }

    method HandShake(buf: MsgBuffer, draw: Draw) returns (ret: int)
      requires Valid() && buf.Valid() && !isClient
      modifies this, c2s2, buf, connection
      ensures buf.Valid() && buf.buf == old(buf.buf) && buf.appended == old(buf.appended)
      ensures
        var r := HandShakeSteps.HandShake(hmac, old(Abs()), old(buf.Readable()), draw);
        && ret == r.ret && Abs() == r.shake
        && buf.Readable() == old(buf.Readable())[r.taken..]
        && connection.Abs() == match r.sent case None => old(connection.Abs())
                                            case Some(d) => TcpQueue.Send(old(connection.Abs()), d)
    {
      hide HandShakeDigest.CheckC1S1, C2S2, TcpQueue.Send;
      match state
      case WaitC0C1 =>
        if buf.ReadableBytes() < C0C1_SIZE {
          return 1;
        }
        var view := buf.Peek();
        var offset := CheckC1S1(view[..C0C1_SIZE]);
        if offset < 0 {
          return -1;
        }
        CreateC2S2(view[1..C0C1_SIZE], offset, draw);
        buf.Retrieve(C0C1_SIZE);
        state := PostS0S1;
        SendC1S1();
        return 1;
      case WaitC2 =>
        if buf.ReadableBytes() < PACKET_SIZE {
          return 1;
        }
        // CheckC2S2 accepts everything.
        buf.Retrieve(PACKET_SIZE);
        state := Done;
        return 0;
      case _ =>
        return 1;
    }

    method WriteComplete()
      requires Valid()
      modifies this, connection
      ensures
        var (shake, sent) := HandShakeSteps.WriteComplete(old(Abs()));
        && Abs() == shake
        && connection.Abs() == match sent case None => old(connection.Abs())
                                          case Some(d) => TcpQueue.Send(old(connection.Abs()), d)
    {
      match state
      case PostS0S1 =>
        state := PostS2;
        SendC2S2();
      case PostS2 =>
        state := WaitC2;
      case _ =>
    }
  }
}
