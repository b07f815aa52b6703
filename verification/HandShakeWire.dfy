/**
 The handshake packets byte by byte, as a peer that knows nothing of this
 program would write and check them: positions, keys and lengths are literals.
 */
module HandShakeWire {
  import opened Bytes
  import opened HandShakeDigest
  import opened HandShakeSteps
  import opened Options

  function Ascii(s: string): (r: Octets)
    ensures |r| == |s|
  {
    seq(|s|, i requires 0 <= i < |s| => s[i] as int % 128)
  }

  /** The name a role signs C1 or S1 with. */
  function Name(client: bool): Octets {
    Ascii("Genu") + Ascii("ine Adobe Flash ") + if client then Ascii("Player 001") else Ascii("Media Server 001")
  }

  /** The 32 bytes `at` bytes behind the version byte are the hash of all the others behind it, keyed by a name. */
  predicate SignedAt(hmac: Hmac, data: Octets, at: nat, name: Octets)
    requires |data| == 1537 && at <= 1504
  {
    data[1 + at..33 + at] == hmac(name, data[1..1 + at] + data[33 + at..])
  }

  /** Where the digest of the first or second scheme stands, behind the version byte. */
  function FirstPlace(data: Octets): (r: nat)
    requires |data| == 1537
    ensures 12 <= r < 740
  {
    12 + (data[9] as int + data[10] as int + data[11] as int + data[12] as int) % 728
  }

  function SecondPlace(data: Octets): (r: nat)
    requires |data| == 1537
    ensures 776 <= r < 1504
  {
    776 + (data[773] as int + data[774] as int + data[775] as int + data[776] as int) % 728
  }

  lemma Flash()
    ensures Ascii("Genu") == KEY_HEAD && Ascii("ine Adobe Flash ") == FLASH
  {
  }

  lemma Roles()
    ensures Ascii("Player 001") == PLAYER && Ascii("Media Server 001") == SERVER
  {
  }

  lemma Names(client: bool)
    ensures OpenKey(client) == Name(client) && WholeKey(client) == Name(client) + KEY_TAIL
  {
    hide Ascii;
    Flash();
    Roles();
  }

  /** The eight words behind the name in either whole key. */
  lemma TailWords()
    ensures |KEY_TAIL| == 32
    ensures ReadU32BE(KEY_TAIL, 0) == 0xF0EEC24A && ReadU32BE(KEY_TAIL, 4) == 0x8068BEE8
    ensures ReadU32BE(KEY_TAIL, 8) == 0x2E00D0D1 && ReadU32BE(KEY_TAIL, 12) == 0x029E7E57
    ensures ReadU32BE(KEY_TAIL, 16) == 0x6EEC5D2D && ReadU32BE(KEY_TAIL, 20) == 0x29806FAB
    ensures ReadU32BE(KEY_TAIL, 24) == 0x93B8E636 && ReadU32BE(KEY_TAIL, 28) == 0xCFEB31AE
  {
  }

  lemma Places(data: Octets)
    requires |data| == 1537
    ensures GetDigestOffset(data[1..], 8) == FirstPlace(data)
    ensures GetDigestOffset(data[1..], 772) == SecondPlace(data)
  {
  }

  lemma VerifyIsSigned(hmac: Hmac, client: bool, data: Octets, at: nat)
    requires |data| == 1537 && 0 < at <= 1504
    ensures VerifyDigest(hmac, data[1..], at, OpenKey(client))
            <==> SignedAt(hmac, data, at, Name(client))
  {
    hide Name, OpenKey;
    Names(client);
    var packet := data[1..];
    assert packet[at..at + 32] == data[1 + at..33 + at];
    assert packet[..at] == data[1..1 + at] && packet[at + 32..] == data[33 + at..];
  }

  /**
   What a server accepts: anything of 1537 bytes with version 3. It goes on with
   the digest handshake exactly when the version field of C1 is not zero and the
   player's signature stands in one of the two places; the first is preferred.
   A client checks S0S1 in the same way for the media server's signature.
   */
  lemma CheckMeans(hmac: Hmac, client: bool, data: Octets)
    ensures CheckC1S1(hmac, client, data) == Refused <==> |data| != 1537 || data[0] != 3
    ensures |data| == 1537 && data[0] == 3 ==>
              var peer := Name(!client);
              var first, second := FirstPlace(data), SecondPlace(data);
              CheckC1S1(hmac, client, data) ==
              if data[5] == data[6] == data[7] == data[8] == 0 then Simple
              else if SignedAt(hmac, data, first, peer) then Complex(first)
              else if SignedAt(hmac, data, second, peer) then Complex(second)
              else Simple
  {
    hide Name, OpenKey, SignedAt, VerifyDigest, GetDigestOffset;
    if |data| == 1537 {
      Places(data);
      VerifyIsSigned(hmac, !client, data, FirstPlace(data));
      VerifyIsSigned(hmac, !client, data, SecondPlace(data));
    }
  }

  /**
   What is sent as C0C1 or S0S1: version 3, time zero, the first letters of the
   key as the role's version, and random bytes that carry the role's signature in
   the first place. In the simple mode the version field is zero and nothing is signed.
   */
  lemma CreatedMeans(hmac: Hmac, client: bool, random: Octets)
    requires |random| == 1537
    ensures
      var p := C1S1(hmac, true, client, random);
      var at := FirstPlace(p);
      && p[..9] == [3, 0, 0, 0, 0] + Ascii("Genu")
      && SignedAt(hmac, p, at, Name(client))
      && p[9..1 + at] == random[9..1 + at] && p[33 + at..] == random[33 + at..]
    ensures C1S1(hmac, false, client, random) == [3, 0, 0, 0, 0, 0, 0, 0, 0] + random[9..]
  {
    hide Name, OpenKey, CalculateDigest, GetDigestOffset, VerifyDigest, Splice, SignedAt;
    Names(client);
    var unsigned := Unsigned(true, client, random);
    var packet := unsigned[1..];
    var at := GetDigestOffset(packet, 8);
    var p := C1S1(hmac, true, client, random);
    SpliceSeen(hmac, packet, at, OpenKey(client), 8);
    Kept(unsigned, at, CalculateDigest(hmac, packet, at, OpenKey(client)), p);
    Places(p);
    VerifyIsSigned(hmac, client, p, at);
    UnsignedParts(client, random);
    SliceOfSlice(p, 0, 1 + at, 0, 9);
    SliceOfSlice(p, 0, 1 + at, 9, 1 + at);
    SliceOfSlice(unsigned, 0, 1 + at, 0, 9);
    SliceOfSlice(unsigned, 0, 1 + at, 9, 1 + at);
  }

  /** A digest written behind the version byte leaves the bytes around it alone. */
  lemma Kept(unsigned: Octets, at: nat, digest: Digest, p: Octets)
    requires |unsigned| == 1537 && at <= 1504 && p == [3] + Splice(unsigned[1..], at, digest) && unsigned[0] == 3
    ensures p[1..] == Splice(unsigned[1..], at, digest)
    ensures p[..1 + at] == unsigned[..1 + at] && p[33 + at..] == unsigned[33 + at..]
  {
    assert unsigned == [3] + unsigned[1..];
  }

  lemma UnsignedParts(client: bool, random: Octets)
    requires |random| == 1537
    ensures Unsigned(true, client, random)[..9] == [3, 0, 0, 0, 0] + Ascii("Genu")
    ensures forall i, j | 9 <= i <= j <= 1537 :: Unsigned(true, client, random)[i..j] == random[i..j]
    ensures forall i | 9 <= i <= 1537 :: Unsigned(true, client, random)[i..] == random[i..]
  {
    hide Ascii;
    Flash();
    assert OpenKey(client)[..4] == KEY_HEAD;
  }

  /**
   What is sent as C2 or S2: the time, the version of the packet answered, and
   random bytes; after a digest handshake the last 32 are the hash of the others,
   keyed by the hash of the peer's digest under the role's whole key.
   */
  lemma AnswerMeans(hmac: Hmac, client: bool, data: Octets, offset: nat, random: Octets, now: U32)
    requires |data| == 1536 && |random| == 1536 && offset <= 1504
    ensures forall complex ::
              var a := C2S2(hmac, complex, client, data, offset, random, now);
              && a[0] as int * 0x100_0000 + a[1] as int * 0x1_0000 + a[2] as int * 0x100 + a[3] as int == now
              && a[4..8] == data[4..8] && a[8..1504] == random[8..1504]
    ensures
      var a := C2S2(hmac, true, client, data, offset, random, now);
      var key := hmac(Name(client) + KEY_TAIL, data[offset..offset + 32]);
      a[1504..] == hmac(key, a[..1504])
    ensures C2S2(hmac, false, client, data, offset, random, now)[8..] == random[8..]
  {
    hide Name, OpenKey, WholeKey, C2S2;
    Names(client);
    AnswerSigned(hmac, client, data, offset, random, now);
  }

  /**
   The server's answer to 1537 bytes with version 3: they are taken, S0S1 is
   sent, and the S2 kept for later holds the time read from the clock and the
   client's version, and is signed if the client's signature was found.
   */
  lemma ServerAnswers(hmac: Hmac, sh: Shake, buf: Octets, draw: Draw)
    requires sh.phase == WaitC0C1 && sh.complex && |buf| >= 1537
    ensures
      var r := HandShake(hmac, sh, buf, draw);
      if buf[0] != 3 then r == Reaction(sh, 0, -1, None)
      else
        var a := r.shake.c2s2;
        && r == Reaction(Shake(PostS0S1, r.shake.complex, sh.c1s1, a), 1537, 1, Some(sh.c1s1))
        && |a| == 1536 && a[4..8] == buf[5..9] && a[8..1504] == draw.random[8..1504]
        && a[0] as int * 0x100_0000 + a[1] as int * 0x1_0000 + a[2] as int * 0x100 + a[3] as int == draw.now
        && var check := CheckC1S1(hmac, false, buf[..1537]);
           && (r.shake.complex <==> check.Complex?)
           && (check.Complex? ==>
                 var digest := buf[1 + check.offset..33 + check.offset];
                 a[1504..] == hmac(hmac(Name(false) + KEY_TAIL, digest), a[..1504]))
  {
    hide Name, CheckC1S1, C2S2;
    CheckMeans(hmac, false, buf[..1537]);
    var check := CheckC1S1(hmac, false, buf[..1537]);
    if check != Refused {
      var offset := if check.Complex? then check.offset else 0;
      AnswerMeans(hmac, false, buf[1..1537], offset, draw.random, draw.now);
      SliceOfSlice(buf, 1, 1537, 4, 8);
      SliceOfSlice(buf, 1, 1537, offset, offset + 32);
    }
  }
}
