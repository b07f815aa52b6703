/**
 The fan-out of `MediaSource.cpp` as steps on values: the GOP cache, the
 decoder headers, the list of consumers, and what each consumer has received.
 */
module Source {
  import opened Options

  /** `id` stands for the payload and the fields the fan-out does not look at. */
  datatype Packet = Packet(id: int, isKeyframe: bool)

  const MAX_GOP_CACHE_SIZE := 2048

  /** Consumers are identified by values of `C`; the list may name one more than once. */
  datatype Stream<C(==)> = Stream(
    metaData: Option<Packet>, videoHeader: Option<Packet>, audioHeader: Option<Packet>,
    gopCache: seq<Packet>, consumers: seq<C>, received: map<C, seq<Packet>>)
  {
    predicate Valid() {
      forall c | c in consumers :: c in received
    }

    function Received(c: C): seq<Packet> {
      if c in received then received[c] else []
    }
  }

  // ----- Steps -----

  function Cached(cache: seq<Packet>, pkt: Packet): seq<Packet> {
    if |cache| < MAX_GOP_CACHE_SIZE then cache + [pkt] else cache
  }

  /** How often a consumer is on the list. */
  function Copies<C(==)>(consumers: seq<C>, c: C): nat {
    if consumers == [] then 0
    else (if consumers[0] == c then 1 else 0) + Copies(consumers[1..], c)
  }

  function Times(pkt: Packet, n: nat): seq<Packet> {
    seq(n, _ => pkt)
  }

  /** Every consumer on the list gets the packet, once for each time it is on the list. */
  function Dispatch<C>(s: Stream<C>, pkt: Packet): Stream<C> {
    s.(received := map c | c in s.received :: s.received[c] + Times(pkt, Copies(s.consumers, c)))
  }

  function OnAudio<C>(s: Stream<C>, pkt: Packet): Stream<C> {
    Dispatch(s.(gopCache := Cached(s.gopCache, pkt)), pkt)
  }

  function OnVideo<C>(s: Stream<C>, pkt: Packet): Stream<C> {
    Dispatch(s.(gopCache := Cached(if pkt.isKeyframe then [] else s.gopCache, pkt)), pkt)
  }

  function AsSeq(p: Option<Packet>): seq<Packet> {
    match p
    case None => []
    case Some(pkt) => [pkt]
  }

  /** What a decoder needs first. */
  function Headers<C>(s: Stream<C>): seq<Packet> {
    AsSeq(s.metaData) + AsSeq(s.videoHeader) + AsSeq(s.audioHeader)
  }

  function AddConsumer<C>(s: Stream<C>, c: C): Stream<C> {
    s.(received := s.received[c := s.Received(c) + Headers(s) + s.gopCache], consumers := s.consumers + [c])
  }

  /** Erases the first occurrence, if there is one. */
  function Erase<C(==)>(consumers: seq<C>, c: C): seq<C> {
    if consumers == [] then []
    else if consumers[0] == c then consumers[1..]
    else [consumers[0]] + Erase(consumers[1..], c)
  }

  function RemoveConsumer<C>(s: Stream<C>, c: C): Stream<C> {
    s.(consumers := Erase(s.consumers, c))
  }

  // ----- Runs -----

  datatype Event<C> =
    | MetaData(pkt: Packet) | VideoHeader(pkt: Packet) | AudioHeader(pkt: Packet)
    | Audio(pkt: Packet) | Video(pkt: Packet)
    | Join(consumer: C) | Leave(consumer: C)

  function Step<C>(s: Stream<C>, e: Event<C>): Stream<C> {
    match e
    case MetaData(pkt) => s.(metaData := Some(pkt))
    case VideoHeader(pkt) => s.(videoHeader := Some(pkt))
    case AudioHeader(pkt) => s.(audioHeader := Some(pkt))
    case Audio(pkt) => OnAudio(s, pkt)
    case Video(pkt) => OnVideo(s, pkt)
    case Join(c) => AddConsumer(s, c)
    case Leave(c) => RemoveConsumer(s, c)
  }

  function Run<C>(s: Stream<C>, events: seq<Event<C>>): Stream<C>
    decreases |events|
  {
    if events == [] then s else Run(Step(s, events[0]), events[1..])
  }

  function Empty<C(==)>(): Stream<C> {
    Stream(None, None, None, [], [], map[])
  }

  // ----- The history a run is measured against -----

  /** A published packet; `starts` says that it is a video keyframe. */
  datatype Entry = Entry(pkt: Packet, starts: bool)

  /** The audio and video packets published in a run, in order. */
  function Published<C>(events: seq<Event<C>>): seq<Entry> {
    if events == [] then []
    else
      (match events[0]
       case Audio(pkt) => [Entry(pkt, false)]
       case Video(pkt) => [Entry(pkt, pkt.isKeyframe)]
       case _ => [])
      + Published(events[1..])
  }

  /** Where the current group of pictures starts: at the last keyframe, or at the beginning if there was none. */
  function GopStart(history: seq<Entry>): (k: nat)
    ensures k <= |history|
    ensures forall j | k < j < |history| :: !history[j].starts
    ensures (k < |history| && history[k].starts) || (k == 0 && forall j | 0 <= j < |history| :: !history[j].starts)
  {
    if history == [] then 0
    else
      var last := |history| - 1;
      if history[last].starts then last else GopStart(history[..last])
  }

  function Packets(history: seq<Entry>): seq<Packet> {
    seq(|history|, i requires 0 <= i < |history| => history[i].pkt)
  }

  /** The packets since the last keyframe. */
  function Gop(history: seq<Entry>): seq<Packet> {
    Packets(history[GopStart(history)..])
  }

  function Capped(s: seq<Packet>): seq<Packet> {
    if |s| <= MAX_GOP_CACHE_SIZE then s else s[..MAX_GOP_CACHE_SIZE]
  }

  lemma GopGrows(history: seq<Entry>, e: Entry)
    ensures Gop(history + [e]) == if e.starts then [e.pkt] else Gop(history) + [e.pkt]
  {
    var longer := history + [e];
    assert longer[..|history|] == history;
    var k := GopStart(longer);
    if e.starts {
      assert longer[k..] == [e];
    } else {
      assert longer[k..] == history[k..] + [e];
    }
  }

  /** What a run does to the history. */
  function Extend<C>(history: seq<Entry>, e: Event<C>): seq<Entry> {
    history + Published([e])
  }

  lemma PublishedOne<C>(e: Event<C>)
    ensures Published([e]) == match e case Audio(pkt) => [Entry(pkt, false)]
                                      case Video(pkt) => [Entry(pkt, pkt.isKeyframe)]
                                      case _ => []
  {
    var rest: seq<Event<C>> := [e][1..];
    assert rest == [];
  }

  /** The cache is the first 2048 packets since the last keyframe. */
  predicate CacheOk<C>(s: Stream<C>, history: seq<Entry>) {
    s.gopCache == Capped(Gop(history))
  }

  lemma StepCache<C>(s: Stream<C>, history: seq<Entry>, e: Event<C>)
    requires CacheOk(s, history)
    ensures CacheOk(Step(s, e), Extend(history, e))
  {
    hide Gop;
    PublishedOne(e);
    if e.Audio? {
      GopGrows(history, Entry(e.pkt, false));
    } else if e.Video? {
      GopGrows(history, Entry(e.pkt, e.pkt.isKeyframe));
    } else {
      assert history + [] == history;
    }
  }

  lemma PublishedCons<C>(history: seq<Entry>, events: seq<Event<C>>)
    requires events != []
    ensures history + Published(events) == Extend(history, events[0]) + Published(events[1..])
  {
    PublishedOne(events[0]);
  }

  /** GOP cache refines history, from any state in which it does so. */
  lemma {:induction false} RunCache<C>(s: Stream<C>, history: seq<Entry>, events: seq<Event<C>>)
    requires CacheOk(s, history)
    ensures CacheOk(Run(s, events), history + Published(events))
    decreases |events|
  {
    hide CacheOk, Step;
    if events == [] {
      assert history + [] == history;
    } else {
      StepCache(s, history, events[0]);
      RunCache(Step(s, events[0]), Extend(history, events[0]), events[1..]);
      PublishedCons(history, events);
    }
  }

  /** In every run the cache is what the history says, and after a keyframe its head is the latest keyframe. */
  lemma GopCacheRefinesHistory<C>(events: seq<Event<C>>)
    ensures
      var s := Run(Empty<C>(), events); var history := Published(events); var k := GopStart(history);
      && s.gopCache == Capped(Packets(history[k..]))
      && (k < |history| && history[k].starts ==> |s.gopCache| >= 1 && s.gopCache[0] == history[k].pkt)
  {
    hide Run, Published;
    CacheAfter(events);
  }

  // ----- The headers a run has left behind -----

  function MetaDataIn<C>(e: Event<C>): Option<Packet> {
    if e.MetaData? then Some(e.pkt) else None
  }

  function VideoHeaderIn<C>(e: Event<C>): Option<Packet> {
    if e.VideoHeader? then Some(e.pkt) else None
  }

  function AudioHeaderIn<C>(e: Event<C>): Option<Packet> {
    if e.AudioHeader? then Some(e.pkt) else None
  }

  /** The last packet of one kind among the events, if there is one. */
  function Latest<C>(events: seq<Event<C>>, kind: Event<C> -> Option<Packet>): Option<Packet> {
    if events == [] then None
    else
      var last := |events| - 1;
      if kind(events[last]).Some? then kind(events[last]) else Latest(events[..last], kind)
  }

  /** The last metadata, video header and audio header published, in this order, those that occurred. */
  function LatestHeaders<C>(events: seq<Event<C>>): seq<Packet> {
    AsSeq(Latest(events, MetaDataIn)) + AsSeq(Latest(events, VideoHeaderIn))
    + AsSeq(Latest(events, AudioHeaderIn))
  }

  lemma {:induction false} RunSnoc<C>(s: Stream<C>, events: seq<Event<C>>, e: Event<C>)
    ensures Run(s, events + [e]) == Step(Run(s, events), e)
    decreases |events|
  {
    hide Step;
    if events == [] {
      assert [e][1..] == [] && Run(Step(s, e), []) == Step(s, e);
      assert [] + [e] == [e];
    } else {
      assert (events + [e])[0] == events[0] && (events + [e])[1..] == events[1..] + [e];
      RunSnoc(Step(s, events[0]), events[1..], e);
    }
  }

  /** In every run the stored headers are the last ones published. */
  lemma {:induction false} HeadersAfter<C>(events: seq<Event<C>>)
    ensures
      var s := Run(Empty<C>(), events);
      && s.metaData == Latest(events, MetaDataIn)
      && s.videoHeader == Latest(events, VideoHeaderIn)
      && s.audioHeader == Latest(events, AudioHeaderIn)
      && Headers(s) == LatestHeaders(events)
  {
    hide Run, Step;
    if events == [] {
      NothingStored<C>(events);
    } else {
      var last := |events| - 1;
      assert events == events[..last] + [events[last]];
      RunSnoc(Empty<C>(), events[..last], events[last]);
      HeadersAfter(events[..last]);
      StepStores(Run(Empty<C>(), events[..last]), events[last]);
    }
  }

  lemma NothingStored<C>(events: seq<Event<C>>)
    requires events == []
    ensures Run(Empty<C>(), events) == Empty<C>()
  {
  }

  lemma StepStores<C>(s: Stream<C>, e: Event<C>)
    ensures Step(s, e).metaData == if e.MetaData? then Some(e.pkt) else s.metaData
    ensures Step(s, e).videoHeader == if e.VideoHeader? then Some(e.pkt) else s.videoHeader
    ensures Step(s, e).audioHeader == if e.AudioHeader? then Some(e.pkt) else s.audioHeader
  {
  }

  // ----- Consumers -----

  lemma {:induction false} CopiesAppend<C>(consumers: seq<C>, d: C, c: C)
    ensures Copies(consumers + [d], c) == Copies(consumers, c) + (if c == d then 1 else 0)
  {
    if consumers == [] {
      assert [d][1..] == [];
    } else {
      CopiesAppend(consumers[1..], d, c);
      assert (consumers + [d])[1..] == consumers[1..] + [d];
    }
  }

  lemma {:induction false} CopiesErase<C>(consumers: seq<C>, d: C, c: C)
    ensures Copies(Erase(consumers, d), c)
         == Copies(consumers, c) - (if c == d && Copies(consumers, c) > 0 then 1 else 0)
  {
    if consumers != [] && consumers[0] != d {
      CopiesErase(consumers[1..], d, c);
      assert Erase(consumers, d)[1..] == Erase(consumers[1..], d);
    }
  }

  /** No join or leave of `c` among the events. */
  predicate Undisturbed<C(==)>(events: seq<Event<C>>, c: C) {
    forall e | e in events :: (e.Join? || e.Leave?) ==> e.consumer != c
  }

  lemma StepReceived<C>(s: Stream<C>, e: Event<C>, c: C)
    requires s.Valid() && c in s.received && Undisturbed([e], c)
    ensures
      var t := Step(s, e);
      && t.Valid() && c in t.received && Copies(t.consumers, c) == Copies(s.consumers, c)
      && (Copies(s.consumers, c) == 1 ==> t.received[c] == s.received[c] + Packets(Published([e])))
      && (Copies(s.consumers, c) == 0 ==> t.received[c] == s.received[c])
  {
    PublishedOne(e);
    assert e in [e];
    match e
    case Join(d) =>
      CopiesAppend(s.consumers, d, c);
    case Leave(d) =>
      CopiesErase(s.consumers, d, c);
      EraseSubset(s.consumers, d);
    case _ =>
  }

  lemma {:induction false} EraseSubset<C>(consumers: seq<C>, d: C)
    ensures forall x | x in Erase(consumers, d) :: x in consumers
  {
    if consumers != [] && consumers[0] != d {
      EraseSubset(consumers[1..], d);
    }
  }

  lemma UndisturbedTail<C>(events: seq<Event<C>>, c: C)
    requires Undisturbed(events, c) && events != []
    ensures Undisturbed([events[0]], c) && Undisturbed(events[1..], c)
  {
    assert events[0] in events && forall e | e in events[1..] :: e in events;
  }

  lemma PacketsCons<C>(events: seq<Event<C>>)
    ensures events == [] ==> Packets(Published(events)) == []
    ensures events != [] ==>
              Packets(Published(events)) == Packets(Published([events[0]])) + Packets(Published(events[1..]))
  {
    if events != [] {
      PublishedOne(events[0]);
      hide Published, Packets;
      PacketsAppend(Published([events[0]]), Published(events[1..]));
    }
  }

  /** While it is on the list once, a consumer receives exactly what is published, in order; off the list, nothing. */
  lemma {:induction false} RunReceived<C>(s: Stream<C>, events: seq<Event<C>>, c: C)
    requires s.Valid() && c in s.received && Undisturbed(events, c)
    ensures
      var t := Run(s, events);
      && t.Valid() && c in t.received && Copies(t.consumers, c) == Copies(s.consumers, c)
      && (Copies(s.consumers, c) == 1 ==> t.received[c] == s.received[c] + Packets(Published(events)))
      && (Copies(s.consumers, c) == 0 ==> t.received[c] == s.received[c])
    decreases |events|
  {
    hide Step, Copies, Published, Packets, Undisturbed;
    PacketsCons(events);
    if events != [] {
      UndisturbedTail(events, c);
      StepReceived(s, events[0], c);
      RunReceived(Step(s, events[0]), events[1..], c);
    }
  }

  lemma StepValid<C>(s: Stream<C>, e: Event<C>)
    requires s.Valid()
    ensures Step(s, e).Valid()
  {
    if e.Leave? {
      EraseSubset(s.consumers, e.consumer);
    }
  }

  lemma {:induction false} RunValid<C>(s: Stream<C>, events: seq<Event<C>>)
    requires s.Valid()
    ensures Run(s, events).Valid()
    decreases |events|
  {
    hide Step;
    if events != [] {
      StepValid(s, events[0]);
      RunValid(Step(s, events[0]), events[1..]);
    }
  }

  /** A consumer joins after `before`, stays during `during`, leaves, and `after` happens. */
  function Visit<C>(before: seq<Event<C>>, during: seq<Event<C>>, after: seq<Event<C>>, c: C): Stream<C> {
    Run(RemoveConsumer(Run(AddConsumer(Run(Empty<C>(), before), c), during), c), after)
  }

  /**
   What a late joiner gets, in every run: the last headers published, the cached
   packets, and everything published while it is on the list; nothing else.
   */
  lemma LateJoiner<C>(before: seq<Event<C>>, during: seq<Event<C>>, after: seq<Event<C>>, c: C)
    requires Copies(Run(Empty<C>(), before).consumers, c) == 0
    requires Undisturbed(during, c) && Undisturbed(after, c)
    ensures
      var s := Run(Empty<C>(), before);
      Visit(before, during, after, c).Received(c)
      == s.Received(c) + LatestHeaders(before) + Capped(Gop(Published(before))) + Packets(Published(during))
  {
    hide Latest, LatestHeaders, Step, Copies, Erase, Packets, Published, Undisturbed, Headers, Gop, Capped;
    var s := Run(Empty<C>(), before);
    RunValid(Empty<C>(), before);
    assert s.gopCache == Capped(Gop(Published(before))) by { CacheAfter(before); }
    HeadersAfter(before);
    var joined := AddConsumer(s, c);
    CopiesAppend(s.consumers, c, c);
    RunReceived(joined, during, c);
    var stayed := Run(joined, during);
    CopiesErase(stayed.consumers, c, c);
    EraseSubset(stayed.consumers, c);
    RunReceived(RemoveConsumer(stayed, c), after, c);
  }

  lemma CacheAfter<C>(events: seq<Event<C>>)
    ensures Run(Empty<C>(), events).gopCache == Capped(Gop(Published(events)))
  {
    hide Run, Published;
    assert Gop([]) == [];
    RunCache(Empty<C>(), [], events);
    assert [] + Published(events) == Published(events);
  }

  // ----- All a consumer ever receives -----

  /** How often a consumer is on the list: each join adds one place, each leave takes one if there is one. */
  function Places<C(==)>(events: seq<Event<C>>, c: C): nat {
    if events == [] then 0
    else
      var places, e := Places(events[..|events| - 1], c), events[|events| - 1];
      if e == Join(c) then places + 1
      else if e == Leave(c) && places > 0 then places - 1
      else places
  }

  /** What the events owe a consumer: headers and the current group of pictures on joining, each packet once for each place. */
  function Due<C(==)>(events: seq<Event<C>>, c: C): seq<Packet> {
    if events == [] then []
    else
      var before, e := events[..|events| - 1], events[|events| - 1];
      Due(before, c)
      + match e
        case Join(d) => if d == c then LatestHeaders(before) + Capped(Gop(Published(before))) else []
        case Audio(pkt) => Times(pkt, Places(before, c))
        case Video(pkt) => Times(pkt, Places(before, c))
        case _ => []
  }

  /** Fan-out: in every run, with any joins and leaves, every consumer has received exactly what it is due. */
  lemma {:induction false} EveryConsumer<C>(events: seq<Event<C>>, c: C)
    ensures
      var s := Run(Empty<C>(), events);
      s.Received(c) == Due(events, c) && Copies(s.consumers, c) == Places(events, c)
  {
    hide Run, Step, Copies, LatestHeaders, Gop, Capped, Published, Headers, Times;
    if events == [] {
      NothingYet(c);
    } else {
      var before, e := events[..|events| - 1], events[|events| - 1];
      var s := Run(Empty<C>(), before);
      assert events == before + [e];
      RunSnoc(Empty<C>(), before, e);
      EveryConsumer(before, c);
      CacheAfter(before);
      HeadersAfter(before);
      RunValid(Empty<C>(), before);
      StepDue(s, e, c);
    }
  }

  lemma StepDue<C>(s: Stream<C>, e: Event<C>, c: C)
    requires s.Valid()
    ensures
      Step(s, e).Received(c) == s.Received(c)
      + match e
        case Join(d) => if d == c then Headers(s) + s.gopCache else []
        case Audio(pkt) => Times(pkt, Copies(s.consumers, c))
        case Video(pkt) => Times(pkt, Copies(s.consumers, c))
        case _ => []
    ensures
      var places := Copies(s.consumers, c);
      Copies(Step(s, e).consumers, c) ==
      if e == Join(c) then places + 1 else if e == Leave(c) && places > 0 then places - 1 else places
  {
    hide Headers;
    OnTheList(s.consumers, c);
    if e.Join? {
      CopiesAppend(s.consumers, e.consumer, c);
    } else if e.Leave? {
      CopiesErase(s.consumers, e.consumer, c);
    }
  }

  lemma NothingYet<C>(c: C)
    ensures var s := Run(Empty<C>(), []); s.Received(c) == [] && Copies(s.consumers, c) == 0
  {
  }

  lemma {:induction false} OnTheList<C>(consumers: seq<C>, c: C)
    ensures Copies(consumers, c) > 0 <==> c in consumers
  {
    if consumers != [] {
      OnTheList(consumers[1..], c);
    }
  }

  /** The published packets from the keyframe a joiner starts at until its removal. */
  function Unbroken<C>(before: seq<Event<C>>, during: seq<Event<C>>): seq<Packet> {
    Packets((Published(before) + Published(during))[GopStart(Published(before))..])
  }

  /**
   Late joiner continuity: in every run, a joiner gets the last headers and
   then the published packets from the last keyframe until its removal, without
   gap, repeat or reordering, if and only if at most 2048 packets had been
   published since that keyframe when it joined.
   */
  lemma ContinuousIff<C>(before: seq<Event<C>>, during: seq<Event<C>>, after: seq<Event<C>>, c: C)
    requires Copies(Run(Empty<C>(), before).consumers, c) == 0
    requires Undisturbed(during, c) && Undisturbed(after, c)
    ensures
      var s := Run(Empty<C>(), before);
      Visit(before, during, after, c).Received(c) == s.Received(c) + LatestHeaders(before) + Unbroken(before, during)
      <==> |Published(before)| - GopStart(Published(before)) <= 2048
  {
    hide Visit, LatestHeaders, Published, Run, Undisturbed, Copies, Capped, Packets, GopStart;
    LateJoiner(before, during, after, c);
    var s := Run(Empty<C>(), before);
    var history, later := Published(before), Published(during);
    var k, head := GopStart(history), s.Received(c) + LatestHeaders(before);
    assert (history + later)[k..] == history[k..] + later;
    PacketsAppend(history[k..], later);
    CapLoses(head, Gop(history), Packets(later));
    assert |Gop(history)| == |history| - k by { PacketsLength(history[k..]); }
  }

  lemma PacketsLength(history: seq<Entry>)
    ensures |Packets(history)| == |history|
  {
  }

  lemma CapLoses(head: seq<Packet>, gop: seq<Packet>, later: seq<Packet>)
    ensures head + Capped(gop) + later == head + (gop + later) <==> |gop| <= 2048
  {
    assert head + gop + later == head + (gop + later);
  }

  /** A keyframe and `n` audio packets. */
  function LongGop(n: nat): seq<Event<int>> {
    [Video(Packet(0, true))] + seq(n, i => Audio(Packet(i + 1, false)))
  }

  lemma LongGopPublished(n: nat)
    ensures |Published(LongGop(n))| == n + 1 && Published(LongGop(n))[0].starts
    ensures forall j | 0 < j <= n :: !Published(LongGop(n))[j].starts
  {
    var audio := seq(n, i => Audio(Packet(i + 1, false)));
    assert LongGop(n)[0] == Video(Packet(0, true)) && LongGop(n)[1..] == audio;
    AudioPublished(audio);
  }

  lemma {:induction false} AudioPublished(events: seq<Event<int>>)
    requires forall e | e in events :: e.Audio?
    ensures |Published(events)| == |events|
    ensures forall j | 0 <= j < |events| :: !Published(events)[j].starts
  {
    if events != [] {
      AudioPublished(events[1..]);
    }
  }

  lemma {:induction false} NobodyJoins(s: Stream<int>, events: seq<Event<int>>)
    requires s.consumers == [] && forall e | e in events :: !e.Join?
    ensures Run(s, events).consumers == [] && Run(s, events).received.Keys == s.received.Keys
    decreases |events|
  {
    if events != [] {
      NobodyJoins(Step(s, events[0]), events[1..]);
    }
  }

  /** Who joins at 2048 packets since the keyframe misses none of them; at 2049, the last one is missing. */
  lemma LongGopGap(during: seq<Event<int>>, after: seq<Event<int>>)
    requires Undisturbed(during, 1) && Undisturbed(after, 1)
    ensures
      var before := LongGop(2047);
      Visit(before, during, after, 1).Received(1) == Unbroken(before, during) && |Gop(Published(before))| == 2048
    ensures
      var before := LongGop(2048);
      Visit(before, during, after, 1).Received(1) != Unbroken(before, during) && |Gop(Published(before))| == 2049
  {
    LongGopVisit(2047, during, after);
    LongGopVisit(2048, during, after);
  }

  lemma LongGopVisit(n: nat, during: seq<Event<int>>, after: seq<Event<int>>)
    requires Undisturbed(during, 1) && Undisturbed(after, 1)
    ensures Visit(LongGop(n), during, after, 1).Received(1) == Unbroken(LongGop(n), during) <==> n < 2048
    ensures |Gop(Published(LongGop(n)))| == n + 1
  {
    hide Visit, LatestHeaders, Published, Run, Unbroken, Undisturbed;
    var before := LongGop(n);
    NobodyJoins(Empty<int>(), before);
    LongGopPublished(n);
    NoHeaders(before);
    ContinuousIff(before, during, after, 1);
    var s := Run(Empty<int>(), before);
    assert s.Received(1) + LatestHeaders(before) + Unbroken(before, during) == Unbroken(before, during);
  }

  lemma {:induction false} NoHeaders(events: seq<Event<int>>)
    requires forall e | e in events :: e.Audio? || e.Video?
    ensures LatestHeaders(events) == []
  {
    if events != [] {
      assert events[|events| - 1] in events;
      NoHeaders(events[..|events| - 1]);
    }
  }

  lemma PacketsAppend(a: seq<Entry>, b: seq<Entry>)
    ensures Packets(a + b) == Packets(a) + Packets(b)
  {
  }
}
