/** What of a stretch the iOS client plays while packets keep arriving: datagrams and pops in any
    interleaving, for a stretch of any length. */
module SwiftPlayback {
  import opened Numbers
  import opened SwiftLoss
  import opened SwiftQueue
  import opened SwiftEndToEnd
  import ArrivalOrder
  import EndToEnd
  import Host
  import JB = JitterBuffers
  import Playback
  import Wire

  datatype Step = Arrive(packet: Wire.Packet) | Play

  /** The client, the items it has popped, and the packets that were let through before the cursor had
      passed their start frame; `start` is the start frame of the first of them. */
  datatype System = System(client: Client, played: seq<Item>, inTime: set<Wire.Packet>, start: Option<nat>)

  function NewSystem(session: nat, stream: nat): System {
    System(NewClient(session, stream), [], {}, None)
  }

  predicate BeforeCursorPasses(q: Queue, p: Wire.Packet) {
    q.cursor.Some? ==> q.cursor.value <= p.startFrame
  }

  ghost function After(s: System, e: Step): System {
    match e
    case Arrive(p) =>
      var client := match Wire.Encode(p) case Ok(d) => Receive(s.client, d) case Err => s.client;
      if Record(s.client.accounting, p.sequenceNumber).1 && BeforeCursorPasses(s.client.queue, p)
      then
        var start := if s.start.Some? then s.start else Some(p.startFrame as nat);
        s.(client := client, inTime := s.inTime + {p}, start := start)
      else s.(client := client)
    case Play =>
      var (queue, item) := Pop(s.client.queue);
      s.(client := s.client.(queue := queue), played := if item.Some? then s.played + [item.value] else s.played)
  }

  ghost function Run(s: System, es: seq<Step>): System {
    if es == [] then s else After(Run(s, es[..|es| - 1]), es[|es| - 1])
  }

  /** The start frames still to be played. */
  ghost function Waiting(s: System): set<nat> {
    WaitingIn(s.client.queue, s.inTime)
  }

  ghost function WaitingIn(q: Queue, inTime: set<Wire.Packet>): set<nat> {
    set p | p in inTime && BeforeCursorPasses(q, p) :: p.startFrame as nat
  }

  /** Whenever a packet arrives, at most 512 packets wait to be played. */
  ghost predicate Roomy(s: System, es: seq<Step>) {
    es == []
    || (&& Roomy(s, es[..|es| - 1])
        && var before, e := Run(s, es[..|es| - 1]), es[|es| - 1];
           e.Arrive? ==> |Waiting(before) + {e.packet.startFrame as nat}| <= SwiftQueue.MAXIMUM_PACKETS)
  }

  ghost predicate CoveredBy(inTime: set<Wire.Packet>, frame: nat) {
    exists p :: p in inTime && p.startFrame <= frame < Host.EndOf(p)
  }

  /** Sample `channel` of frame `frame` of what is played from `start` on is the source's own if a packet in
      time holds it, and zero otherwise. */
  ghost predicate FramePlays(g: EndToEnd.Programme, samples: seq<i16>, start: nat, frame: nat, channel: nat,
                             inTime: set<Wire.Packet>)
  {
    PlaysAs(g, samples, start, frame, channel, CoveredBy(inTime, start + frame))
  }

  /** These samples are `n` frames from `start` on. */
  ghost predicate FramesPlay(g: EndToEnd.Programme, samples: seq<i16>, start: nat, n: nat, inTime: set<Wire.Packet>) {
    && |samples| == n * g.channels
    && forall frame: nat, channel: nat :: frame < n && channel < g.channels ==>
         FramePlays(g, samples, start, frame, channel, inTime)
  }

  /** What has been played, frame after frame from `start` on. */
  ghost predicate PlaysInTime(g: EndToEnd.Programme, played: seq<Item>, start: nat, inTime: set<Wire.Packet>) {
    FramesPlay(g, Played(played, g.channels), start, SwiftQueue.TotalFrames(played), inTime)
  }

  ghost predicate AllIn(inTime: set<Wire.Packet>, ps: seq<Wire.Packet>) {
    forall p :: p in inTime ==> p in ps
  }

  /** The cursor splits the packets in time into those played and those queued. */
  ghost predicate Split(q: Queue, inTime: set<Wire.Packet>, c: nat) {
    && q.cursor == Some(c) && Keeps(q.packets, inTime, c)
    && forall p :: p in inTime ==> Host.EndOf(p) <= c || c <= p.startFrame
  }

  /** Played, in time and queued agree. */
  ghost predicate Timeline(g: EndToEnd.Programme, stream: nat, q: Queue, played: seq<Item>, inTime: set<Wire.Packet>,
                           start: Option<nat>)
  {
    if start.None? then inTime == {} && played == [] && q == SwiftQueue.EMPTY
    else
      && Split(q, inTime, start.value + SwiftQueue.TotalFrames(played))
      && q.stream == Some(Stream(g.session, stream, g.sampleRate, g.channels))
      && PlaysInTime(g, played, start.value, inTime)
  }

  ghost predicate Sound(g: EndToEnd.Programme, stream: nat, ps: seq<Wire.Packet>, s: System) {
    && s.client.session == g.session && s.client.stream == stream && AllIn(s.inTime, ps)
    && (s.client.format.None? || s.client.format == Some((g.sampleRate as nat, g.channels as nat)))
    && Timeline(g, stream, s.client.queue, s.played, s.inTime, s.start)
  }

  // ---- Items one after the other -------------------------------------------------------------

  lemma {:induction false} PlayedAppend(items: seq<Item>, item: Item, channels: nat)
    ensures Played(items + [item], channels) == Played(items, channels) + Samples(item, channels)
    ensures SwiftQueue.TotalFrames(items + [item]) == SwiftQueue.TotalFrames(items) + item.Frames()
  {
    if items == [] {
      assert [] + [item] == [item] && [item][1..] == [];
      assert Played([item], channels) == Samples(item, channels);
    } else {
      PlayedAppend(items[1..], item, channels);
      assert (items + [item])[1..] == items[1..] + [item] && (items + [item])[0] == items[0];
    }
  }

  /** What an item plays from frame `at` on. */
  ghost predicate ItemPlays(g: EndToEnd.Programme, item: Item, at: nat, inTime: set<Wire.Packet>) {
    FramesPlay(g, Samples(item, g.channels), at, item.Frames(), inTime)
  }

  lemma Index(n: nat, frame: nat, channel: nat, channels: nat, end: nat)
    requires 1 <= channels <= 2 && channel < channels && frame < end
    ensures (n + frame) * channels + channel == n * channels + (frame * channels + channel)
    ensures frame * channels + channel < end * channels
    ensures (n + end) * channels == n * channels + end * channels
  {
  }

  lemma PrefixPlays(g: EndToEnd.Programme, samples: seq<i16>, more: seq<i16>, start: nat, frame: nat, channel: nat,
                    inTime: set<Wire.Packet>)
    requires FramePlays(g, samples, start, frame, channel, inTime)
    ensures FramePlays(g, samples + more, start, frame, channel, inTime)
  {
    hide CoveredBy;
  }

  lemma SuffixPlays(g: EndToEnd.Programme, samples: seq<i16>, more: seq<i16>, n: nat, m: nat, start: nat, frame: nat,
                    channel: nat, inTime: set<Wire.Packet>)
    requires 1 <= g.channels <= 2 && channel < g.channels && frame < m && |samples| == n * g.channels
    requires FramePlays(g, more, start + n, frame, channel, inTime)
    ensures FramePlays(g, samples + more, start, n + frame, channel, inTime)
  {
    hide CoveredBy;
    Index(n, frame, channel, g.channels, m);
    assert start + n + frame == start + (n + frame);
  }

  lemma FramesJoin(g: EndToEnd.Programme, samples: seq<i16>, more: seq<i16>, start: nat, n: nat, m: nat,
                   inTime: set<Wire.Packet>)
    requires 1 <= g.channels <= 2 && FramesPlay(g, samples, start, n, inTime)
             && FramesPlay(g, more, start + n, m, inTime)
    ensures FramesPlay(g, samples + more, start, n + m, inTime)
  {
    hide FramePlays;
    Index(n, m, 0, g.channels, m + 1);
    forall frame: nat, channel: nat | frame < n + m && channel < g.channels
      ensures FramePlays(g, samples + more, start, frame, channel, inTime)
    {
      if frame < n {
        PrefixPlays(g, samples, more, start, frame, channel, inTime);
      } else {
        SuffixPlays(g, samples, more, n, m, start, frame - n, channel, inTime);
        assert n + (frame - n) == frame;
      }
    }
  }

  lemma PlaysOn(g: EndToEnd.Programme, played: seq<Item>, start: nat, inTime: set<Wire.Packet>, item: Item)
    requires 1 <= g.channels <= 2 && PlaysInTime(g, played, start, inTime)
    requires ItemPlays(g, item, start + SwiftQueue.TotalFrames(played), inTime)
    ensures PlaysInTime(g, played + [item], start, inTime)
  {
    hide FramesPlay, Played, Samples, SwiftQueue.TotalFrames;
    PlayedAppend(played, item, g.channels);
    FramesJoin(g, Played(played, g.channels), Samples(item, g.channels), start, SwiftQueue.TotalFrames(played),
               item.Frames(), inTime);
  }

  /** Packets from the cursor on do not change what has been played. */
  lemma MoreInTime(g: EndToEnd.Programme, samples: seq<i16>, start: nat, n: nat, inTime: set<Wire.Packet>,
                   p: Wire.Packet)
    requires FramesPlay(g, samples, start, n, inTime) && start + n <= p.startFrame
    ensures FramesPlay(g, samples, start, n, inTime + {p})
  {
    forall frame: nat, channel: nat | frame < n && channel < g.channels
      ensures FramePlays(g, samples, start, frame, channel, inTime + {p})
    {
      assert FramePlays(g, samples, start, frame, channel, inTime);
      SameCover(inTime, p, start + frame);
    }
  }

  lemma SameCover(inTime: set<Wire.Packet>, p: Wire.Packet, frame: nat)
    requires frame < p.startFrame
    ensures CoveredBy(inTime + {p}, frame) <==> CoveredBy(inTime, frame)
  {
    if CoveredBy(inTime, frame) {
      var x :| x in inTime && x.startFrame <= frame < Host.EndOf(x);
      assert x in inTime + {p};
    }
  }

  // ---- The stretch ---------------------------------------------------------------------------

  /** The packets of a stretch: one stream, its source's samples, and no overlaps. */
  ghost predicate Good(g: EndToEnd.Programme, stream: nat, ps: seq<Wire.Packet>) {
    && Family(ps, g.session, stream, (g.sampleRate, g.channels))
    && (forall p :: p in ps ==> EndToEnd.Carries(g, JB.ToBuffered(p)))
    && forall p, q :: p in ps && q in ps && p.startFrame < q.startFrame ==> Host.EndOf(p) <= q.startFrame
  }

  lemma StretchIsGood(g: EndToEnd.Programme, ts: seq<EndToEnd.Transmission>, stream: u32, ps: seq<Wire.Packet>,
                      first: nat, last: nat)
    requires EndToEnd.IsHostRun(g, ts) && EndToEnd.IsStretch(g, ts, stream, ps, first, last)
    ensures Good(g, stream, ps)
  {
    hide EndToEnd.IsHostRun, EndToEnd.Carries, Wire.WellFormed, EndToEnd.Sent, Family;
    StretchIsFamily(g, ts, stream, ps, first, last);
    forall p | p in ps
      ensures EndToEnd.Carries(g, JB.ToBuffered(p))
    {
      EndToEnd.SentCarries(g, ts, p);
    }
    Playback.TilesAreApart(ps, first, last);
  }

  lemma MemberPlays(g: EndToEnd.Programme, stream: nat, ps: seq<Wire.Packet>, p: Wire.Packet, inTime: set<Wire.Packet>)
    requires Good(g, stream, ps) && p in ps && p in inTime && 1 <= g.channels <= 2
    ensures ItemPlays(g, Audio(Wire.ToSwift(p)), p.startFrame, inTime) && p.frameCount > 0
  {
    FamilyMember(ps, p, g.session, stream, (g.sampleRate, g.channels));
    WellFormedPayload(p);
    SameBuffered(p);
    assert EndToEnd.Carries(g, JB.ToBuffered(p));
    hide Good, Family, Wire.WellFormed;
    var item, start := Audio(Wire.ToSwift(p)), p.startFrame as nat;
    forall frame: nat, channel: nat | frame < item.Frames() && channel < g.channels
      ensures FramePlays(g, Samples(item, g.channels), start, frame, channel, inTime)
    {
      Index(start, frame, channel, g.channels, item.Frames());
      assert p.startFrame <= start + frame < Host.EndOf(p);
    }
  }

  lemma SilencePlays(g: EndToEnd.Programme, count: nat, at: nat, inTime: set<Wire.Packet>)
    requires 1 <= g.channels <= 2 && forall p :: p in inTime ==> Host.EndOf(p) <= at || at + count <= p.startFrame
    ensures ItemPlays(g, Silence(count), at, inTime)
  {
    forall frame: nat, channel: nat | frame < count && channel < g.channels
      ensures FramePlays(g, Samples(Silence(count), g.channels), at, frame, channel, inTime)
    {
      Index(at, frame, channel, g.channels, count);
      assert !CoveredBy(inTime, at + frame);
    }
  }

  // ---- One step ----------------------------------------------------------------------------------

  ghost predicate ByStart(ps: seq<Wire.Packet>) {
    forall x, y :: x in ps && y in ps && x.startFrame == y.startFrame ==> x == y
  }

  lemma GoodByStart(g: EndToEnd.Programme, stream: nat, ps: seq<Wire.Packet>)
    requires Good(g, stream, ps)
    ensures ByStart(ps)
  {
    StartsApart(ps, g.session, stream, (g.sampleRate, g.channels));
  }

  lemma PutSplits(q: Queue, p: Wire.Packet, inTime: set<Wire.Packet>, c: nat, ps: seq<Wire.Packet>)
    requires Split(q, inTime, c) && c <= p.startFrame && p in ps && AllIn(inTime, ps)
    requires ByStart(ps)
    ensures Split(Put(q, Wire.ToSwift(p)), inTime + {p}, c)
  {
    var t := Put(q, Wire.ToSwift(p));
    forall k | k in t.packets
      ensures KeptAs(t.packets, inTime + {p}, c, k)
    {
      if k != p.startFrame {
        assert KeptAs(q.packets, inTime, c, k);
      } else {
        assert p in inTime + {p};
      }
    }
  }

  lemma KeysWait(q: Queue, inTime: set<Wire.Packet>, c: nat)
    requires Split(q, inTime, c)
    ensures q.packets.Keys <= WaitingIn(q, inTime)
  {
    forall k | k in q.packets
      ensures k in WaitingIn(q, inTime)
    {
      assert KeptAs(q.packets, inTime, c, k);
    }
  }

  /** An arrival before the cursor has passed it is queued. */
  lemma InsertSplits(q: Queue, p: Wire.Packet, inTime: set<Wire.Packet>, c: nat, ps: seq<Wire.Packet>)
    requires Split(q, inTime, c) && c <= p.startFrame && p in ps && AllIn(inTime, ps)
    requires ByStart(ps) && q.stream == Some(StreamOf(Wire.ToSwift(p)))
    requires |WaitingIn(q, inTime) + {p.startFrame as nat}| <= SwiftQueue.MAXIMUM_PACKETS
    ensures var t := Insert(q, Wire.ToSwift(p)).0; t.stream == q.stream && Split(t, inTime + {p}, c)
  {
    PutSplits(q, p, inTime, c, ps);
    KeysWait(q, inTime, c);
    assert q.cursor == Some(c);
    hide Split, Wire.ToSwift, ByStart, AllIn, WaitingIn, StreamOf;
    InsertHasRoom(q, Wire.ToSwift(p), WaitingIn(q, inTime) + {p.startFrame as nat});
  }

  lemma InsertHasRoom(q: Queue, s: Wire.SwiftPacket, waiting: set<nat>)
    requires q.stream == Some(StreamOf(s)) && (q.cursor.Some? ==> q.cursor.value <= s.startFrame)
    requires q.packets.Keys + {s.startFrame as nat} <= waiting && |waiting| <= SwiftQueue.MAXIMUM_PACKETS
    ensures Insert(q, s).0 == Put(q, s)
  {
    var t := Put(q, s);
    assert t.packets.Keys == q.packets.Keys + {s.startFrame as nat};
    ArrivalOrder.SubsetSize(t.packets.Keys, waiting);
    assert |t.packets| == |t.packets.Keys|;
  }

  lemma PopSplits(g: EndToEnd.Programme, stream: nat, ps: seq<Wire.Packet>, q: Queue, inTime: set<Wire.Packet>, c: nat)
    requires Good(g, stream, ps) && 1 <= g.channels <= 2
    requires Split(q, inTime, c) && AllIn(inTime, ps)
    ensures var (t, item) := Pop(q);
            && t.stream == q.stream
            && if item.None? then t == q
               else Split(t, inTime, c + item.value.Frames()) && ItemPlays(g, item.value, c, inTime)
  {
    hide Good, Family, ItemPlays;
    var (t, item) := Pop(q);
    if item.Some? && item.value.Audio? {
      assert KeptAs(q.packets, inTime, c, c);
      var p :| p in inTime && c == p.startFrame && q.packets[c] == Wire.ToSwift(p);
      MemberPlays(g, stream, ps, p, inTime);
      AudioSplits(g, stream, ps, q, inTime, p);
    } else if item.Some? {
      SilenceSplits(q, inTime, c);
      SilencePlays(g, item.value.count, c, inTime);
    }
  }

  lemma AudioSplits(g: EndToEnd.Programme, stream: nat, ps: seq<Wire.Packet>, q: Queue, inTime: set<Wire.Packet>,
                    p: Wire.Packet)
    requires Good(g, stream, ps) && AllIn(inTime, ps)
    requires Split(q, inTime, p.startFrame) && p in inTime && p.frameCount > 0
    ensures Split(q.(packets := q.packets - {p.startFrame as nat}, cursor := Some(Host.EndOf(p))), inTime,
                  Host.EndOf(p))
  {
    StartsApart(ps, g.session, stream, (g.sampleRate, g.channels));
    hide Family;
    var c := p.startFrame as nat;
    var packets := q.packets - {c};
    forall k | k in packets
      ensures KeptAs(packets, inTime, Host.EndOf(p), k)
    {
      assert KeptAs(q.packets, inTime, c, k);
    }
  }

  lemma SilenceSplits(q: Queue, inTime: set<Wire.Packet>, c: nat)
    requires Split(q, inTime, c) && Pop(q).1.Some? && Pop(q).1.value.Silence?
    ensures var n := Pop(q).1.value.count;
            && Split(Pop(q).0, inTime, c + n)
            && forall p :: p in inTime ==> Host.EndOf(p) <= c || c + n <= p.startFrame
  {
    var n := Pop(q).1.value.count;
    forall k | k in q.packets
      ensures c + n <= k && KeptAs(q.packets, inTime, c + n, k)
    {
      assert KeptAs(q.packets, inTime, c, k);
    }
  }

  // ---- The run -----------------------------------------------------------------------------------

  lemma PlayTimeline(g: EndToEnd.Programme, stream: nat, ps: seq<Wire.Packet>, q: Queue, played: seq<Item>,
                     inTime: set<Wire.Packet>, start: Option<nat>)
    requires Good(g, stream, ps) && 1 <= g.channels <= 2 && AllIn(inTime, ps)
    requires Timeline(g, stream, q, played, inTime, start)
    ensures var (t, item) := Pop(q);
            Timeline(g, stream, t, if item.Some? then played + [item.value] else played, inTime, start)
  {
    hide Good, AllIn, Split, PlaysInTime, ItemPlays, SwiftQueue.TotalFrames;
    if start.Some? {
      PopSplits(g, stream, ps, q, inTime, start.value + SwiftQueue.TotalFrames(played));
      hide Pop;
      var item := Pop(q).1;
      if item.Some? {
        PlaysOn(g, played, start.value, inTime, item.value);
        PlayedAppend(played, item.value, g.channels);
      }
    }
  }

  lemma PlaySound(g: EndToEnd.Programme, stream: nat, ps: seq<Wire.Packet>, s: System)
    requires Good(g, stream, ps) && 1 <= g.channels <= 2 && Sound(g, stream, ps, s)
    ensures Sound(g, stream, ps, After(s, Play))
  {
    hide Good, AllIn, Timeline, Pop;
    PlayTimeline(g, stream, ps, s.client.queue, s.played, s.inTime, s.start);
  }

  lemma LateIsRefused(q: Queue, p: Wire.Packet)
    requires q.stream == Some(StreamOf(Wire.ToSwift(p))) && !BeforeCursorPasses(q, p)
    ensures Insert(q, Wire.ToSwift(p)).0 == q
  {
  }

  /** What an arrival does, without the wire. */
  ghost function Recorded(s: System, p: Wire.Packet, format: (nat, nat)): System {
    var (accounting, recorded) := Record(s.client.accounting, p.sequenceNumber);
    if !recorded then s.(client := s.client.(accounting := accounting))
    else
      var queue := Insert(s.client.queue, Wire.ToSwift(p)).0;
      var client := s.client.(accounting := accounting, format := Some(format), queue := queue);
      if BeforeCursorPasses(s.client.queue, p)
      then
        var start := if s.start.Some? then s.start else Some(p.startFrame as nat);
        s.(client := client, inTime := s.inTime + {p}, start := start)
      else s.(client := client)
  }

  lemma ArriveIs(g: EndToEnd.Programme, stream: nat, ps: seq<Wire.Packet>, s: System, p: Wire.Packet)
    requires Good(g, stream, ps) && Sound(g, stream, ps, s) && p in ps
    ensures After(s, Arrive(p)) == Recorded(s, p, (g.sampleRate, g.channels))
  {
    var format := (g.sampleRate as nat, g.channels as nat);
    FamilyMember(ps, p, g.session, stream, format);
    Wire.SwiftReadsHostPackets(p);
    Wire.DecodeEncode(p);
    hide Good, Split, PlaysInTime, Wire.WellFormed, Wire.Encode, Wire.SwiftParse, Record, Insert, Receive;
    ReceiveIs(s.client, p, format);
  }

  lemma ArriveSound(g: EndToEnd.Programme, stream: nat, ps: seq<Wire.Packet>, s: System, p: Wire.Packet)
    requires Good(g, stream, ps) && Sound(g, stream, ps, s) && p in ps
    requires |Waiting(s) + {p.startFrame as nat}| <= SwiftQueue.MAXIMUM_PACKETS
    ensures Sound(g, stream, ps, After(s, Arrive(p)))
  {
    ArriveIs(g, stream, ps, s, p);
    FamilyMember(ps, p, g.session, stream, (g.sampleRate, g.channels));
    hide Good, Timeline, After, Record, Insert, WaitingIn;
    if Record(s.client.accounting, p.sequenceNumber).1 {
      if BeforeCursorPasses(s.client.queue, p) {
        InTimeTimeline(g, stream, ps, s.client.queue, s.played, s.inTime, s.start, p);
      } else {
        LateTimeline(g, stream, s.client.queue, s.played, s.inTime, s.start, p);
      }
    }
  }

  lemma LateTimeline(g: EndToEnd.Programme, stream: nat, q: Queue, played: seq<Item>, inTime: set<Wire.Packet>,
                     start: Option<nat>, p: Wire.Packet)
    requires Timeline(g, stream, q, played, inTime, start) && !BeforeCursorPasses(q, p)
    requires StreamOf(Wire.ToSwift(p)) == Stream(g.session, stream, g.sampleRate, g.channels)
    ensures Insert(q, Wire.ToSwift(p)).0 == q
  {
    hide Split, PlaysInTime, SwiftQueue.TotalFrames;
    LateIsRefused(q, p);
  }

  lemma InTimeTimeline(g: EndToEnd.Programme, stream: nat, ps: seq<Wire.Packet>, q: Queue, played: seq<Item>,
                       inTime: set<Wire.Packet>, start: Option<nat>, p: Wire.Packet)
    requires Good(g, stream, ps) && p in ps && AllIn(inTime, ps)
    requires Timeline(g, stream, q, played, inTime, start) && BeforeCursorPasses(q, p)
    requires StreamOf(Wire.ToSwift(p)) == Stream(g.session, stream, g.sampleRate, g.channels)
    requires |WaitingIn(q, inTime) + {p.startFrame as nat}| <= SwiftQueue.MAXIMUM_PACKETS
    ensures Timeline(g, stream, Insert(q, Wire.ToSwift(p)).0, played, inTime + {p},
                     if start.Some? then start else Some(p.startFrame))
  {
    if start.None? {
      FirstIsQueued(g, stream, p);
      hide Split, FramesPlay, Insert, StreamOf, Wire.ToSwift, Keeps;
      assert inTime + {p} == {p};
      hide Timeline;
    } else {
      hide Timeline;
      NextTimeline(g, stream, ps, q, played, inTime, start.value, p);
    }
  }

  lemma NextTimeline(g: EndToEnd.Programme, stream: nat, ps: seq<Wire.Packet>, q: Queue, played: seq<Item>,
                     inTime: set<Wire.Packet>, start: nat, p: Wire.Packet)
    requires Good(g, stream, ps) && p in ps && AllIn(inTime, ps)
    requires Timeline(g, stream, q, played, inTime, Some(start)) && BeforeCursorPasses(q, p)
    requires StreamOf(Wire.ToSwift(p)) == Stream(g.session, stream, g.sampleRate, g.channels)
    requires |WaitingIn(q, inTime) + {p.startFrame as nat}| <= SwiftQueue.MAXIMUM_PACKETS
    ensures Timeline(g, stream, Insert(q, Wire.ToSwift(p)).0, played, inTime + {p}, Some(start))
  {
    hide Good, AllIn, ByStart, Split, FramesPlay, Insert, SwiftQueue.TotalFrames, Played, WaitingIn, StreamOf,
         Wire.ToSwift;
    GoodByStart(g, stream, ps);
    var n := SwiftQueue.TotalFrames(played);
    CursorIs(q, inTime, start + n);
    InsertSplits(q, p, inTime, start + n, ps);
    MoreInTime(g, Played(played, g.channels), start, n, inTime, p);
  }

  lemma CursorIs(q: Queue, inTime: set<Wire.Packet>, c: nat)
    requires Split(q, inTime, c)
    ensures q.cursor == Some(c)
  {
  }

  lemma FirstIsQueued(g: EndToEnd.Programme, stream: nat, p: Wire.Packet)
    requires StreamOf(Wire.ToSwift(p)) == Stream(g.session, stream, g.sampleRate, g.channels)
    ensures Timeline(g, stream, Insert(SwiftQueue.EMPTY, Wire.ToSwift(p)).0, [], {p}, Some(p.startFrame))
  {
    FirstInsert(p);
  }

  lemma {:induction false} RunSound(g: EndToEnd.Programme, stream: nat, ps: seq<Wire.Packet>, s: System, es: seq<Step>)
    requires Good(g, stream, ps) && 1 <= g.channels <= 2 && Sound(g, stream, ps, s)
    requires (forall e :: e in es && e.Arrive? ==> e.packet in ps) && Roomy(s, es)
    ensures Sound(g, stream, ps, Run(s, es))
  {
    hide Good, Sound, After, Waiting;
    if es != [] {
      var before, e := es[..|es| - 1], es[|es| - 1];
      RunSound(g, stream, ps, s, before);
      if e.Arrive? {
        ArriveSound(g, stream, ps, Run(s, before), e.packet);
      } else {
        PlaySound(g, stream, ps, Run(s, before));
      }
    }
  }

  /** The whole path to the iOS client's player while it runs: for a stretch of any length and any
      interleaving of arrivals and pops that leaves room, what has been popped is, frame after frame from the
      start frame of the first packet on, the source's own sample if a packet holding the frame was let
      through before the cursor had passed it, and silence otherwise. */
  lemma PacketsInTimeAreTheSource(g: EndToEnd.Programme, ts: seq<EndToEnd.Transmission>, stream: u32,
                                  ps: seq<Wire.Packet>, first: nat, last: nat, es: seq<Step>)
    requires EndToEnd.IsHostRun(g, ts) && EndToEnd.IsStretch(g, ts, stream, ps, first, last) && 1 <= g.channels <= 2
    requires (forall e :: e in es && e.Arrive? ==> e.packet in ps) && Roomy(NewSystem(g.session, stream), es)
    ensures var s := Run(NewSystem(g.session, stream), es);
            if s.start.None? then s.played == [] && s.inTime == {}
            else
              && PlaysInTime(g, s.played, s.start.value, s.inTime)
              && s.client.queue.cursor == Some(s.start.value + SwiftQueue.TotalFrames(s.played))
              && forall p :: p in s.inTime && s.client.queue.cursor.value <= p.startFrame ==>
                   p.startFrame in s.client.queue.packets && s.client.queue.packets[p.startFrame] == Wire.ToSwift(p)
  {
    hide EndToEnd.IsHostRun, EndToEnd.IsStretch, Good, Run, PlaysInTime;
    StretchIsGood(g, ts, stream, ps, first, last);
    RunSound(g, stream, ps, NewSystem(g.session, stream), es);
  }
}
