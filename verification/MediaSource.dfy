/**
 The container of one stream, `MediaSource.cpp`, with consumers as objects
 that are called one after the other. It is proved to take the steps of
 `Source`.
 */
module MediaSources {
  import opened Options
  import opened Source

  /** A player; `received` is what its `OnPacket` has been called with. */
  class MediaConsumer {
    var received: seq<Packet>

    constructor ()
      ensures received == []
    {
      received := [];
    }

    method OnPacket(pkt: Packet)
      modifies this
      ensures received == old(received) + [pkt]
    {
      received := received + [pkt];
    }
  }

  class MediaSource {
    var metaData: Option<Packet>
    var videoHeader: Option<Packet>
    var audioHeader: Option<Packet>
    var gopCache: seq<Packet>
    var consumers: seq<MediaConsumer>

    // All consumers that have ever been added.
    ghost var known: set<MediaConsumer>

    ghost predicate Valid()
      reads this
    {
      forall c | c in consumers :: c in known
    }

    /** The state as seen by an audience: what its members have received. */
    ghost function SeenBy(audience: set<MediaConsumer>): Stream<MediaConsumer>
      reads this, audience
    {
      Stream(metaData, videoHeader, audioHeader, gopCache, consumers, map c | c in audience :: c.received)
    }

    ghost function Abs(): Stream<MediaConsumer>
      reads this, known
    {
      SeenBy(known)
    }

    constructor ()
      ensures Valid() && Abs() == Empty()
    {
      metaData, videoHeader, audioHeader := None, None, None;
      gopCache, consumers, known := [], [], {};
    }

    method SetMetaData(pkt: Packet)
      requires Valid()
      modifies this
      ensures Valid() && known == old(known) && Abs() == Step(old(Abs()), MetaData(pkt))
    {
      metaData := Some(pkt);
    }

    method SetVideoHeader(pkt: Packet)
      requires Valid()
      modifies this
      ensures Valid() && known == old(known) && Abs() == Step(old(Abs()), VideoHeader(pkt))
    {
      videoHeader := Some(pkt);
    }

    method SetAudioHeader(pkt: Packet)
      requires Valid()
      modifies this
      ensures Valid() && known == old(known) && Abs() == Step(old(Abs()), AudioHeader(pkt))
    {
      audioHeader := Some(pkt);
    }

    method OnAudio(pkt: Packet)
      requires Valid()
      modifies this, known
      ensures Valid() && known == old(known) && Abs() == Step(old(Abs()), Audio(pkt))
    {
      if |gopCache| < MAX_GOP_CACHE_SIZE {
        gopCache := gopCache + [pkt];
      }
      DispatchPacket(pkt);
    }

    method OnVideo(pkt: Packet)
      requires Valid()
      modifies this, known
      ensures Valid() && known == old(known) && Abs() == Step(old(Abs()), Video(pkt))
    {
      if pkt.isKeyframe {
        gopCache := [];
      }
      if |gopCache| < MAX_GOP_CACHE_SIZE {
        gopCache := gopCache + [pkt];
      }
      DispatchPacket(pkt);
    }

    method DispatchPacket(pkt: Packet)
      requires Valid()
      modifies known
      ensures Valid() && Abs() == Dispatch(old(Abs()), pkt)
    {
      for i := 0 to |consumers|
        invariant forall c | c in known :: c.received == old(c.received) + Times(pkt, Copies(consumers[..i], c))
      {
        ghost var before := map c | c in known :: c.received;
        consumers[i].OnPacket(pkt);
        assert consumers[..i + 1] == consumers[..i] + [consumers[i]];
        forall c | c in known
          ensures c.received == old(c.received) + Times(pkt, Copies(consumers[..i + 1], c))
        {
          assert c.received == before[c] + if c == consumers[i] then [pkt] else [];
          CopiesAppend(consumers[..i], consumers[i], c);
        }
      }
      assert consumers[..|consumers|] == consumers;
    }

    method AddConsumer(consumer: MediaConsumer)
      requires Valid()
      modifies this, consumer
      ensures Valid() && known == old(known) + {consumer}
      ensures Abs() == Step(old(SeenBy(known + {consumer})), Join(consumer))
    {
      ghost var s := SeenBy(known + {consumer});
      SendGopCache(consumer);
      consumers := consumers + [consumer];
      known := known + {consumer};
      assert consumer.received == s.Received(consumer) + Headers(s) + s.gopCache;
    }

    method SendGopCache(consumer: MediaConsumer)
      modifies consumer
      ensures consumer.received
           == old(consumer.received) + (AsSeq(metaData) + AsSeq(videoHeader) + AsSeq(audioHeader)) + gopCache
    {
      SendIfStored(consumer, metaData);
      SendIfStored(consumer, videoHeader);
      SendIfStored(consumer, audioHeader);
      ghost var greeted := consumer.received;
      assert greeted == old(consumer.received) + (AsSeq(metaData) + AsSeq(videoHeader) + AsSeq(audioHeader));
      for i := 0 to |gopCache|
        invariant consumer.received == greeted + gopCache[..i]
      {
        consumer.OnPacket(gopCache[i]);
      }
    }

    method SendIfStored(consumer: MediaConsumer, pkt: Option<Packet>)
      modifies consumer
      ensures consumer.received == old(consumer.received) + AsSeq(pkt)
    {
      if pkt.Some? {
        consumer.OnPacket(pkt.value);
      }
    }

    method RemoveConsumer(consumer: MediaConsumer)
      requires Valid()
      modifies this
      ensures Valid() && known == old(known) && Abs() == Step(old(Abs()), Leave(consumer))
    {
      var i := 0;
      while i < |consumers| && consumers[i] != consumer
        invariant 0 <= i <= |consumers|
        invariant consumer !in consumers[..i]
      {
        i := i + 1;
      }
      EraseAt(consumers, consumer, i);
      EraseSubset(consumers, consumer);
      if i < |consumers| {
        consumers := consumers[..i] + consumers[i + 1..];
      }
    }
  }

  lemma {:induction false} EraseAt<C>(consumers: seq<C>, c: C, i: nat)
    requires i <= |consumers| && c !in consumers[..i] && (i < |consumers| ==> consumers[i] == c)
    ensures Erase(consumers, c) == if i < |consumers| then consumers[..i] + consumers[i + 1..] else consumers
  {
    if i > 0 {
      assert consumers[0] in consumers[..i];
      assert consumers[1..][..i - 1] == consumers[..i][1..];
      EraseAt(consumers[1..], c, i - 1);
    }
  }
}
