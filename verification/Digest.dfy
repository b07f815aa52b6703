/**
 The packets of the handshake and their digests (`RtmpHandShake.cpp`, section
 5.2 of Adobe's RTMP Specification 1.0 for the sizes). The keyed hash is any
 function from a key and a message to 32 bytes; random bytes are arguments.
 */
module HandShakeDigest {
  import opened Bytes

  const PACKET_SIZE := 1536
  const DIGEST_LENGTH := 32

  type Digest = d: Octets | |d| == 32 witness seq(32, _ => 0)

  /** A keyed hash: key, then message. */
  type Hmac = (Octets, Octets) -> Digest

  // Both keys start with the same four bytes, and the source copies them, not
  // its version constants, into the version field of the packets.
  const KEY_HEAD: Octets := [0x47, 0x65, 0x6E, 0x75]
  const FLASH: Octets := [0x69, 0x6E, 0x65, 0x20, 0x41, 0x64, 0x6F, 0x62, 0x65, 0x20, 0x46, 0x6C, 0x61, 0x73, 0x68, 0x20]
  const PLAYER: Octets := [0x50, 0x6C, 0x61, 0x79, 0x65, 0x72, 0x20, 0x30, 0x30, 0x31]
  const SERVER: Octets := [0x4D, 0x65, 0x64, 0x69, 0x61, 0x20, 0x53, 0x65, 0x72, 0x76, 0x65, 0x72, 0x20, 0x30, 0x30, 0x31]

  const PLAYER_KEY_OPEN := KEY_HEAD + FLASH + PLAYER
  const SERVER_KEY_OPEN := KEY_HEAD + FLASH + SERVER

  const TAIL_1: Octets := [0xF0, 0xEE, 0xC2, 0x4A, 0x80, 0x68, 0xBE, 0xE8, 0x2E, 0x00, 0xD0, 0xD1, 0x02, 0x9E, 0x7E, 0x57]
  const TAIL_2: Octets := [0x6E, 0xEC, 0x5D, 0x2D, 0x29, 0x80, 0x6F, 0xAB, 0x93, 0xB8, 0xE6, 0x36, 0xCF, 0xEB, 0x31, 0xAE]
  const KEY_TAIL := TAIL_1 + TAIL_2

  /** The part of its key each role signs C1 or S1 with, and the whole key it signs C2 or S2 with. */
  function OpenKey(client: bool): (r: Octets)
    ensures |r| >= 30
  {
    if client then PLAYER_KEY_OPEN else SERVER_KEY_OPEN
  }

  function WholeKey(client: bool): Octets {
    OpenKey(client) + KEY_TAIL
  }

  /** `memcpy` into a packet. */
  function Splice(p: Octets, at: nat, piece: Octets): (r: Octets)
    requires at + |piece| <= |p|
    ensures |r| == |p|
  {
    p[..at] + piece + p[at + |piece|..]
  }

  /** The hash of a packet without the 32 bytes at `gap`, or of all of it if there is no gap. */
  function CalculateDigest(hmac: Hmac, src: Octets, gap: int, key: Octets): Digest
    requires gap <= 0 || gap + DIGEST_LENGTH <= |src|
  {
    hmac(key, if gap <= 0 then src else src[..gap] + src[gap + DIGEST_LENGTH..])
  }

  predicate VerifyDigest(hmac: Hmac, packet: Octets, at: nat, key: Octets)
    requires at + DIGEST_LENGTH <= |packet|
  {
    packet[at..at + DIGEST_LENGTH] == CalculateDigest(hmac, packet, at, key)
  }

  /** Where the digest stands: four bytes at `off`, summed, modulo 728, behind those four bytes. */
  function GetDigestOffset(packet: Octets, off: nat): (r: nat)
    requires off + 4 <= |packet|
    ensures off + 4 <= r < off + 4 + 728
  {
    (packet[off] as int + packet[off + 1] as int + packet[off + 2] as int + packet[off + 3] as int) % 728 + off + 4
  }

  // ----- C1 and S1 -----

  /**
   `m_C1S1` before the digest is in: version byte, zero time, version, random
   bytes. The version is the head of the key, not one of the source's constants for it.
   */
  function Unsigned(complex: bool, client: bool, random: Octets): (r: Octets)
    requires |random| == PACKET_SIZE + 1
    ensures |r| == |random|
  {
    [3, 0, 0, 0, 0] + (if complex then OpenKey(client)[..4] else [0, 0, 0, 0]) + random[9..]
  }

  /** A packet of a role, its digest placed by the scheme whose offset bytes stand at `off`. */
  function Signed(hmac: Hmac, client: bool, random: Octets, off: nat): (r: Octets)
    requires |random| == PACKET_SIZE + 1 && (off == 8 || off == 772)
    ensures |r| == |random|
  {
    var packet := Unsigned(true, client, random)[1..];
    var at := GetDigestOffset(packet, off);
    [3] + Splice(packet, at, CalculateDigest(hmac, packet, at, OpenKey(client)))
  }

  /** What `CreateC1S1` leaves in `m_C1S1`, given the random bytes drawn. */
  function C1S1(hmac: Hmac, complex: bool, client: bool, random: Octets): (r: Octets)
    requires |random| == PACKET_SIZE + 1
    ensures |r| == PACKET_SIZE + 1
  {
    if complex then Signed(hmac, client, random, 8) else Unsigned(false, client, random)
  }

  /** The result of `CheckC1S1`: refused, taken as a simple handshake, or a digest found at an offset. */
  datatype Check = Refused | Simple | Complex(offset: nat)

  function CheckC1S1(hmac: Hmac, client: bool, data: Octets): (r: Check)
    ensures r.Complex? ==> |data| == PACKET_SIZE + 1 && 12 <= r.offset <= 1503
  {
    if |data| != PACKET_SIZE + 1 || data[0] != 3 then Refused
    else if ReadU32BE(data, 5) == 0 then Simple
    else
      var packet, key := data[1..], OpenKey(!client);
      var first, second := GetDigestOffset(packet, 8), GetDigestOffset(packet, 772);
      if VerifyDigest(hmac, packet, first, key) then Complex(first)
      else if VerifyDigest(hmac, packet, second, key) then Complex(second)
      else Simple
  }

  /** Writing the digest disturbs neither what it was computed from nor the place it is looked for. */
  lemma SpliceSeen(hmac: Hmac, packet: Octets, at: nat, key: Octets, off: nat)
    requires |packet| == PACKET_SIZE && (off == 8 || off == 772) && at == GetDigestOffset(packet, off)
    ensures
      var signed := Splice(packet, at, CalculateDigest(hmac, packet, at, key));
      && signed[..off + 4] == packet[..off + 4]
      && GetDigestOffset(signed, off) == at
      && VerifyDigest(hmac, signed, at, key)
  {
    var digest := CalculateDigest(hmac, packet, at, key);
    var signed := Splice(packet, at, digest);
    assert signed[..off + 4] == packet[..off + 4];
    assert forall i | 0 <= i < off + 4 :: signed[i] == signed[..off + 4][i] == packet[i];
    assert signed[at..at + DIGEST_LENGTH] == digest;
    assert signed[..at] + signed[at + DIGEST_LENGTH..] == packet[..at] + packet[at + DIGEST_LENGTH..];
  }

  /**
   Digest round trip: whatever the keyed hash and the random bytes, the other
   role accepts a signed packet, and finds the digest where it was put. For the
   second scheme, the first one is tried before.
   */
  lemma DigestRoundTrip(hmac: Hmac, client: bool, random: Octets)
    requires |random| == PACKET_SIZE + 1
    ensures
      var packet := C1S1(hmac, true, client, random);
      CheckC1S1(hmac, !client, packet) == Complex(GetDigestOffset(packet[1..], 8))
    ensures
      var packet := Signed(hmac, client, random, 772);
      CheckC1S1(hmac, !client, packet)
      == if VerifyDigest(hmac, packet[1..], GetDigestOffset(packet[1..], 8), OpenKey(client))
         then Complex(GetDigestOffset(packet[1..], 8))
         else Complex(GetDigestOffset(packet[1..], 772))
  {
    SignedIsSeen(hmac, client, random, 8);
    SignedIsSeen(hmac, client, random, 772);
  }

  lemma SignedIsSeen(hmac: Hmac, client: bool, random: Octets, off: nat)
    requires |random| == PACKET_SIZE + 1 && (off == 8 || off == 772)
    ensures
      var data := Signed(hmac, client, random, off);
      && data[0] == 3 && ReadU32BE(data, 5) != 0
      && VerifyDigest(hmac, data[1..], GetDigestOffset(data[1..], off), OpenKey(client))
  {
    var packet := Unsigned(true, client, random)[1..];
    var at := GetDigestOffset(packet, off);
    var data := Signed(hmac, client, random, off);
    assert OpenKey(client)[..4] == KEY_HEAD;
    SpliceSeen(hmac, packet, at, OpenKey(client), off);
    assert data[1..] == Splice(packet, at, CalculateDigest(hmac, packet, at, OpenKey(client)));
    assert packet[4] == Unsigned(true, client, random)[5] == KEY_HEAD[0];
    assert data[5] == data[1..][4] == data[1..][..off + 4][4] == packet[4];
  }

  // ----- C2 and S2 -----

  /** The packet that answers `data` (a C1 or S1 without its version byte), before it is signed. */
  function Echo(data: Octets, random: Octets, now: U32): (r: Octets)
    requires |data| == PACKET_SIZE && |random| == PACKET_SIZE
    ensures |r| == PACKET_SIZE
  {
    U32BE(now) + data[4..8] + random[8..]
  }

  /** What `CreateC2S2` leaves in `m_C2S2`. */
  function C2S2(hmac: Hmac, complex: bool, client: bool, data: Octets, offset: nat,
                random: Octets, now: U32): (r: Octets)
    requires |data| == PACKET_SIZE && |random| == PACKET_SIZE && offset + DIGEST_LENGTH <= PACKET_SIZE
    ensures |r| == PACKET_SIZE
  {
    var echo := Echo(data, random, now);
    if complex then
      var key := CalculateDigest(hmac, data[offset..offset + DIGEST_LENGTH], 0, WholeKey(client));
      var body := PACKET_SIZE - DIGEST_LENGTH;
      echo[..body] + CalculateDigest(hmac, echo[..body], 0, key)
    else echo
  }

  /** How a peer would check the answer to a packet whose digest is `digest`. */
  predicate AnswersDigest(hmac: Hmac, client: bool, answer: Octets, digest: Digest)
    requires |answer| == PACKET_SIZE
  {
    var body := PACKET_SIZE - DIGEST_LENGTH;
    answer[body..] == hmac(hmac(WholeKey(client), digest), answer[..body])
  }

  /**
   A complex answer is signed with a key derived from the digest found in the
   packet it answers; in front of that an answer of either kind holds the time,
   most significant byte first, the version of that packet, and random bytes.
   */
  lemma AnswerSigned(hmac: Hmac, client: bool, data: Octets, offset: nat, random: Octets, now: U32)
    requires |data| == PACKET_SIZE && |random| == PACKET_SIZE && offset + DIGEST_LENGTH <= PACKET_SIZE
    ensures AnswersDigest(hmac, client, C2S2(hmac, true, client, data, offset, random, now),
                          data[offset..offset + DIGEST_LENGTH])
    ensures forall complex ::
              var a := C2S2(hmac, complex, client, data, offset, random, now);
              && a[0] as int * 0x100_0000 + a[1] as int * 0x1_0000 + a[2] as int * 0x100 + a[3] as int == now
              && a[4..8] == data[4..8] && a[8..1504] == random[8..1504]
    ensures C2S2(hmac, false, client, data, offset, random, now)[8..] == random[8..]
  {
    var body := PACKET_SIZE - DIGEST_LENGTH;
    var echo := Echo(data, random, now);
    LowDigits(now);
    TopDigit(now);
    assert echo[..4] == U32BE(now) && echo[4..8] == data[4..8] && echo[8..] == random[8..];
    assert echo[8..body] == random[8..body];
    forall complex
      ensures
        var a := C2S2(hmac, complex, client, data, offset, random, now);
        a[..body] == echo[..body] && a[..4] == echo[..4] && a[4..8] == echo[4..8] && a[8..body] == echo[8..body]
    {
      var a := C2S2(hmac, complex, client, data, offset, random, now);
      assert a[..body] == echo[..body];
      SliceOfSlice(a, 0, body, 0, 4);
      SliceOfSlice(a, 0, body, 4, 8);
      SliceOfSlice(a, 0, body, 8, body);
      SliceOfSlice(echo, 0, body, 0, 4);
      SliceOfSlice(echo, 0, body, 4, 8);
      SliceOfSlice(echo, 0, body, 8, body);
      assert a[0..body] == a[..body] && echo[0..body] == echo[..body];
    }
    assert forall complex, i | 0 <= i < 4 ::
        C2S2(hmac, complex, client, data, offset, random, now)[i]
        == C2S2(hmac, complex, client, data, offset, random, now)[..4][i];
  }
}
