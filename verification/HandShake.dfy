/** The server path of the handshake in `RtmpHandShake.cpp`, as steps on values. */
module HandShakeSteps {
  import opened Bytes
  import opened HandShakeDigest
  import opened Options

  /** `m_state`, as far as a server goes through it. */
  datatype Phase = WaitC0C1 | PostS0S1 | PostS2 | WaitC2 | Done

  datatype Shake = Shake(phase: Phase, complex: bool, c1s1: Octets, c2s2: Octets)

  const C0C1_SIZE := PACKET_SIZE + 1

  /** The random bytes and the clock reading `CreateC2S2` draws. */
  datatype Draw = Draw(random: RandomPacket, now: U32)

  type RandomPacket = r: Octets | |r| == PACKET_SIZE witness seq(PACKET_SIZE, _ => 0)

  type RandomC0C1 = r: Octets | |r| == C0C1_SIZE witness seq(C0C1_SIZE, _ => 0)

  /** The state `Start` leaves a server in. */
  function Started(hmac: Hmac, random: RandomC0C1): Shake {
    Shake(WaitC0C1, true, C1S1(hmac, true, false, random), seq(PACKET_SIZE, _ => 0))
  }

  /** The outcome of a call of `HandShake`: its result, the bytes it retrieved, and what it sent. */
  datatype Reaction = Reaction(shake: Shake, taken: nat, ret: int, sent: Option<Octets>)

  function HandShake(hmac: Hmac, sh: Shake, buf: Octets, draw: Draw): (r: Reaction)
    ensures r.taken <= |buf|
  {
    match sh.phase
    case WaitC0C1 =>
      if |buf| < C0C1_SIZE then Reaction(sh, 0, 1, None)
      else
        var check := CheckC1S1(hmac, false, buf[..C0C1_SIZE]);
        if check == Refused then Reaction(sh, 0, -1, None)
        else
          var complex := sh.complex && check.Complex?;
          var offset := if check.Complex? then check.offset else 0;
          var answer := C2S2(hmac, complex, false, buf[1..C0C1_SIZE], offset, draw.random, draw.now);
          Reaction(Shake(PostS0S1, complex, sh.c1s1, answer), C0C1_SIZE, 1, Some(sh.c1s1))
    case WaitC2 =>
      if |buf| < PACKET_SIZE then Reaction(sh, 0, 1, None)
      else Reaction(sh.(phase := Done), PACKET_SIZE, 0, None)
    case _ => Reaction(sh, 0, 1, None)
  }

  /** `WriteComplete`: the next phase and what is sent on entering it. */
  function WriteComplete(sh: Shake): (Shake, Option<Octets>) {
    match sh.phase
    case PostS0S1 => (sh.(phase := PostS2), Some(sh.c2s2))
    case PostS2 => (sh.(phase := WaitC2), None)
    case _ => (sh, None)
  }
}
