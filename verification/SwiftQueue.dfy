/** ios/SyncAudioReceiver/PacketPlaybackQueue.swift: the Swift counterpart of the jitter buffer,
    and why it plays the same sound. */
module SwiftQueue {
  import opened Numbers
  import opened Wire
  import JB = JitterBuffers
  import ArrivalOrder
  import Pcm

  const MAXIMUM_PACKETS := 512
  const MAXIMUM_SILENCE := 1024

  datatype Item = Audio(packet: SwiftPacket) | Silence(count: nat) {
    function Frames(): nat {
      if Audio? then packet.frameCount else count
    }
  }

  datatype Stream = Stream(sessionId: nat, streamId: nat, sampleRate: nat, channels: nat)

  /** `packets` is the dictionary keyed by start frame. */
  datatype Queue = Queue(cursor: Option<nat>, packets: map<nat, SwiftPacket>, stream: Option<Stream>)

  const EMPTY := Queue(None, map[], None)

  function StreamOf(p: SwiftPacket): Stream {
    Stream(p.sessionId, p.streamId, p.sampleRate, p.channels)
  }

  function End(p: SwiftPacket): nat {
    p.startFrame as int + p.frameCount
  }

  // ---- Least key and greatest end ------------------------------------------------

  ghost predicate IsLeast(m: nat, keys: set<nat>) {
    m in keys && forall k :: k in keys ==> m <= k
  }

  lemma {:induction false} LeastExists(keys: set<nat>)
    requires keys != {}
    ensures exists m :: IsLeast(m, keys)
  {
    var k :| k in keys;
    if keys == {k} {
      assert IsLeast(k, keys);
    } else {
      assert keys - {k} != {};
      LeastExists(keys - {k});
      var m: nat :| IsLeast(m, keys - {k});
      var least: nat := Min(m, k);
      forall x | x in keys
        ensures least <= x
      {
        assert x == k || x in keys - {k};
      }
      assert IsLeast(least, keys);
    }
  }

  ghost function Least(keys: set<nat>): (m: nat)
    requires keys != {}
    ensures IsLeast(m, keys)
  {
    LeastExists(keys);
    var m :| IsLeast(m, keys);
    m
  }

  lemma LeastIs(m: nat, keys: set<nat>)
    requires IsLeast(m, keys)
    ensures keys != {} && Least(keys) == m
  {
  }

  ghost function FirstKey(q: Queue): Option<nat> {
    if q.packets == map[] then None else Some(Least(q.packets.Keys))
  }

  // ---- The operations ---------------------------------------------------------------

  ghost function Insert(q: Queue, p: SwiftPacket): (Queue, bool) {
    var s := if q.stream == Some(StreamOf(p)) then q else EMPTY.(stream := Some(StreamOf(p)));
    if s.cursor.Some? && p.startFrame < s.cursor.value then (s, false)
    else
      var t := Put(s, p);
      if |t.packets| > MAXIMUM_PACKETS then
        var rest := t.(packets := t.packets - {Least(t.packets.Keys)});
        (rest.(cursor := FirstKey(rest)), true)
      else (t, true)
  }

  ghost function Pop(q: Queue): (Queue, Option<Item>) {
    if q.cursor.None? || q.packets == map[] then (q, None)
    else
      var c := q.cursor.value;
      if c in q.packets then
        (q.(packets := q.packets - {c}, cursor := Some(c + q.packets[c].frameCount)), Some(Audio(q.packets[c])))
      else
        var next := Least(q.packets.Keys);
        if next <= c then (q, None)
        else
          var count := Min(next - c, MAXIMUM_SILENCE);
          (q.(cursor := Some(c + count)), Some(Silence(count)))
  }

  /** How far the next packet lies ahead of the cursor. */
  ghost function Ahead(q: Queue): nat {
    if q.cursor.Some? && q.packets != map[] then Max(0, Least(q.packets.Keys) - q.cursor.value) else 0
  }

  lemma PopDecreases(q: Queue)
    requires Pop(q).1.Some?
    ensures var next := Pop(q).0;
            |next.packets| < |q.packets| || (|next.packets| == |q.packets| && Ahead(next) < Ahead(q))
  {
    if Pop(q).1.value.Audio? {
      var c := q.cursor.value;
      assert q.packets.Keys == (q.packets - {c}).Keys + {c};
    }
  }

  /** `popNext` until it returns nil. Terminates for every queue: a packet leaves, or the
      cursor moves towards the next one. */
  ghost function Drain(q: Queue): (r: (Queue, seq<Item>))
    decreases |q.packets|, Ahead(q)
  {
    var (next, item) := Pop(q);
    if item.None? then (q, [])
    else
      var (rest, items) := Drain(next);
      (rest, [item.value] + items)
  }

  // ---- Well-formed queues -------------------------------------------------------------

  ghost predicate WellFormed(q: Queue) {
    && (q.cursor.None? ==> q.packets == map[])
    && (forall k :: k in q.packets ==>
          && q.packets[k].startFrame == k && q.packets[k].frameCount > 0
          && Some(StreamOf(q.packets[k])) == q.stream)
    && (q.cursor.Some? ==> forall k :: k in q.packets ==> q.cursor.value <= k)
  }

  ghost predicate Apart(packets: map<nat, SwiftPacket>) {
    forall j, k :: j in packets && k in packets && j < k ==> End(packets[j]) <= k
  }

  ghost predicate Disjoint(q: Queue) {
    Apart(q.packets)
  }

  /** Nothing below the cursor is ever returned: `popNext` only looks forward. */
  lemma {:induction false} BehindCursorIsStranded(q: Queue, k: nat)
    requires k in q.packets && q.cursor.Some? && k < q.cursor.value
    ensures k in Drain(q).0.packets
    decreases |q.packets|, Ahead(q)
  {
    var (next, item) := Pop(q);
    if item.Some? {
      BehindCursorIsStranded(next, k);
    }
  }

  lemma PopKeeps(q: Queue)
    requires WellFormed(q) && Disjoint(q)
    ensures WellFormed(Pop(q).0) && Disjoint(Pop(q).0)
    ensures Pop(q).1.None? ==> q.packets == map[]
  {
  }

  /** The queue empties itself exactly when its packets are disjoint; one overlap stalls it. */
  lemma {:induction false} DrainsIffDisjoint(q: Queue)
    requires WellFormed(q)
    ensures Drain(q).0.packets == map[] <==> Disjoint(q)
    decreases |q.packets|, Ahead(q)
  {
    var (next, item) := Pop(q);
    if item.None? {
      assert q.packets == map[];
    } else if item.value.Silence? {
      DrainsIffDisjoint(next);
    } else {
      var c := q.cursor.value;
      if exists k :: k in next.packets && k < next.cursor.value {
        var k :| k in next.packets && k < next.cursor.value;
        BehindCursorIsStranded(next, k);
        assert c < k && End(q.packets[c]) > k;
      } else {
        DrainsIffDisjoint(next);
        if Disjoint(next) {
          forall j, k | j in q.packets && k in q.packets && j < k
            ensures End(q.packets[j]) <= k
          {
            assert k in next.packets;
            if j != c {
              assert j in next.packets;
            }
          }
        } else {
          assert forall k :: k in next.packets ==> next.packets[k] == q.packets[k];
        }
      }
    }
  }

  /** Such a queue, as two arrivals build it: the second packet begins inside the first, which never comes out
      again once the first has been played. */
  lemma OverlapStalls(p: SwiftPacket, q: SwiftPacket)
    requires StreamOf(p) == StreamOf(q) && 0 < q.frameCount && p.startFrame < q.startFrame < End(p)
    ensures var queue := Insert(Insert(EMPTY, p).0, q).0;
            && Insert(EMPTY, p).1 && Insert(Insert(EMPTY, p).0, q).1
            && WellFormed(queue) && q.startFrame in Drain(queue).0.packets
  {
    var one := map[p.startFrame as nat := p];
    var both := one[q.startFrame as nat := q];
    assert one.Keys == {p.startFrame as nat} && both.Keys == {p.startFrame as nat, q.startFrame as nat};
    assert |one| == |one.Keys| && |both| == |both.Keys|;
    var queue := Insert(Insert(EMPTY, p).0, q).0;
    assert queue == Queue(Some(p.startFrame as nat), both, Some(StreamOf(p)));
    hide Insert;
    BehindCursorIsStranded(Pop(queue).0, q.startFrame);
  }

  // ---- The same sound as readFrames --------------------------------------------------------

  function ToBuffered(p: SwiftPacket): JB.Buffered {
    JB.Buffered(p.startFrame, p.timestamp, p.frameCount, Pcm.Decoded(p.payload))
  }

  /** The C++ map that holds the same packets. */
  ghost function Sorted(packets: map<nat, SwiftPacket>): seq<JB.Buffered>
    decreases |packets|
  {
    if packets == map[] then []
    else
      var k := Least(packets.Keys);
      [ToBuffered(packets[k])] + Sorted(packets - {k})
  }

  /** Every packet is keyed by its start and carries whole frames of `channels` samples. */
  ghost predicate Playable(packets: map<nat, SwiftPacket>, channels: nat) {
    forall k :: k in packets ==>
      && packets[k].startFrame == k && packets[k].frameCount > 0
      && |packets[k].payload| == packets[k].frameCount as int * channels * 2
  }

  lemma PayloadSamples(p: SwiftPacket, channels: nat)
    requires |p.payload| == p.frameCount as int * channels * 2
    ensures |ToBuffered(p).samples| == p.frameCount as int * channels
  {
    assert p.frameCount as int * channels * 2 / 2 == p.frameCount as int * channels;
  }

  /** What the sorted map looks like. */
  ghost predicate Shape(ps: seq<JB.Buffered>, packets: map<nat, SwiftPacket>, channels: nat) {
    && |ps| == |packets|
    && (forall i :: 0 <= i < |ps| ==> ps[i].start in packets && ps[i] == ToBuffered(packets[ps[i].start]))
    && (forall i :: 0 <= i < |ps| ==> 0 < ps[i].frames && |ps[i].samples| == ps[i].frames * channels)
    && JB.Disjoint(ps)
  }

  lemma {:induction false} SortedShape(packets: map<nat, SwiftPacket>, channels: nat)
    requires Playable(packets, channels) && Apart(packets)
    ensures Shape(Sorted(packets), packets, channels)
    decreases |packets|
  {
    if packets != map[] {
      var k := Least(packets.Keys);
      SortedShape(packets - {k}, channels);
      ShapeCons(packets, k, Sorted(packets - {k}), channels);
    }
  }

  lemma ShapeCons(packets: map<nat, SwiftPacket>, k: nat, tail: seq<JB.Buffered>, channels: nat)
    requires Playable(packets, channels) && Apart(packets) && IsLeast(k, packets.Keys)
    requires Shape(tail, packets - {k}, channels)
    ensures Shape([ToBuffered(packets[k])] + tail, packets, channels)
  {
    HeadShape(packets, k, channels);
    hide Playable, ToBuffered, JB.Disjoint, End;
    var head := ToBuffered(packets[k]);
    assert packets.Keys == (packets - {k}).Keys + {k};
    TailAfterHead(packets, k, tail, channels);
    hide Apart, IsLeast;
    ConsDisjoint(head, tail);
  }

  lemma HeadShape(packets: map<nat, SwiftPacket>, k: nat, channels: nat)
    requires Playable(packets, channels) && k in packets
    ensures var head := ToBuffered(packets[k]);
            && head.start == k && head.End() == End(packets[k]) && head.frames > 0
            && |head.samples| == head.frames * channels
  {
    PayloadSamples(packets[k], channels);
  }

  lemma TailAfterHead(packets: map<nat, SwiftPacket>, k: nat, tail: seq<JB.Buffered>, channels: nat)
    requires Apart(packets) && IsLeast(k, packets.Keys) && Shape(tail, packets - {k}, channels)
    ensures forall i :: 0 <= i < |tail| ==>
              && End(packets[k]) <= tail[i].start && tail[i].start in packets
              && tail[i] == ToBuffered(packets[tail[i].start])
  {
    hide ToBuffered, JB.Disjoint;
    forall i | 0 <= i < |tail|
      ensures End(packets[k]) <= tail[i].start && tail[i].start in packets
              && tail[i] == ToBuffered(packets[tail[i].start])
    {
      assert tail[i].start in packets - {k};
    }
  }

  lemma ConsDisjoint(head: JB.Buffered, tail: seq<JB.Buffered>)
    requires JB.Disjoint(tail) && forall i :: 0 <= i < |tail| ==> head.End() <= tail[i].start
    ensures JB.Disjoint([head] + tail)
  {
    var ps := [head] + tail;
    forall i, j | 0 <= i < j < |ps|
      ensures ps[i].End() <= ps[j].start
    {
      assert ps[j] == tail[j - 1];
      if i > 0 {
        assert ps[i] == tail[i - 1];
      }
    }
  }

  function Samples(item: Item, channels: nat): seq<i16> {
    if item.Audio? then Pcm.Decoded(item.packet.payload) else seq<i16>(item.count * channels, _ => 0)
  }

  function Played(items: seq<Item>, channels: nat): seq<i16> {
    if items == [] then [] else Samples(items[0], channels) + Played(items[1..], channels)
  }

  function TotalFrames(items: seq<Item>): nat {
    if items == [] then 0 else items[0].Frames() + TotalFrames(items[1..])
  }

  /** Every packet comes out exactly when the timeline reaches its start frame. */
  predicate OnTime(items: seq<Item>, at: nat) {
    items == []
    || ((items[0].Audio? ==> items[0].packet.startFrame == at) && OnTime(items[1..], at + items[0].Frames()))
  }

  ghost predicate IsLatest(k: nat, packets: map<nat, SwiftPacket>) {
    k in packets && forall j :: j in packets ==> End(packets[j]) <= End(packets[k])
  }

  /** `bufferedFrames`: from the cursor to the greatest end of a held packet. */
  ghost predicate IsBuffered(q: Queue, n: nat) {
    if q.cursor.None? || q.packets == map[] then n == 0
    else exists k :: IsLatest(k, q.packets) && n == Max(0, End(q.packets[k]) - q.cursor.value)
  }

  lemma {:induction false} SkipHead(ps: seq<JB.Buffered>, channels: nat, a: nat)
    requires ps != []
    requires var first := ps[0].start * channels; !(first <= a < first + |ps[0].samples|)
    ensures JB.SampleAt(ps, channels, a) == JB.SampleAt(ps[1..], channels, a)
  {
    if |ps| > 1 {
      SkipHead(ps[..|ps| - 1], channels, a);
      assert ps[..|ps| - 1][1..] == ps[1..][..|ps| - 2];
    } else {
      assert ps[..0] == [] && ps[1..] == [];
    }
  }

  lemma OnlyHead(ps: seq<JB.Buffered>, channels: nat, a: nat)
    requires ps != [] && ps[0].start * channels <= a < ps[0].start * channels + |ps[0].samples|
    requires forall i :: 1 <= i < |ps| ==> a < ps[i].start * channels
    ensures JB.SampleAt(ps, channels, a) == ps[0].samples[a - ps[0].start * channels]
  {
    JB.LaterPacketsDoNotMatter(ps, channels, a, 1);
    assert ps[..1] == [ps[0]];
  }

  /** A read that starts on a packet is that packet followed by a read of the others. */
  lemma RenderPeel(ps: seq<JB.Buffered>, channels: nat, size: nat)
    requires ps != [] && JB.Disjoint(ps) && 1 <= channels <= 2
    requires |ps[0].samples| == ps[0].frames * channels && |ps[0].samples| <= size
    ensures JB.Render(ps, channels, ps[0].start, size)
            == ps[0].samples + JB.Render(ps[1..], channels, ps[0].End(), size - |ps[0].samples|)
  {
    var first, n := ps[0].start, |ps[0].samples|;
    var whole, rest := JB.Render(ps, channels, first, size), JB.Render(ps[1..], channels, ps[0].End(), size - n);
    Ends(ps[0], channels);
    forall i | 0 <= i < size
      ensures whole[i] == (ps[0].samples + rest)[i]
    {
      if i < n {
        forall j | 1 <= j < |ps|
          ensures first * channels + i < ps[j].start * channels
        {
          assert ps[0].End() <= ps[j].start;
          JB.Times(ps[0].End(), channels);
          JB.Times(ps[j].start, channels);
        }
        OnlyHead(ps, channels, first * channels + i);
      } else {
        SkipHead(ps, channels, first * channels + i);
      }
    }
  }

  lemma Ends(b: JB.Buffered, channels: nat)
    requires 1 <= channels <= 2
    ensures b.End() * channels == b.start * channels + b.frames * channels
  {
    JB.Times(b.start, channels);
    JB.Times(b.frames, channels);
    JB.Times(b.End(), channels);
  }

  /** A read that starts in a gap begins with that much silence. */
  lemma RenderGap(ps: seq<JB.Buffered>, channels: nat, start: nat, n: nat, size: nat)
    requires 1 <= channels <= 2 && n * channels <= size
    requires forall i :: 0 <= i < |ps| ==> start + n <= ps[i].start
    ensures JB.Render(ps, channels, start, size)
            == seq<i16>(n * channels, _ => 0) + JB.Render(ps, channels, start + n, size - n * channels)
  {
    var whole, rest := JB.Render(ps, channels, start, size), JB.Render(ps, channels, start + n, size - n * channels);
    var quiet := seq<i16>(n * channels, _ => 0);
    JB.Times(start, channels);
    JB.Times(n, channels);
    JB.Times(start + n, channels);
    forall i | 0 <= i < size
      ensures whole[i] == (quiet + rest)[i]
    {
      if i < n * channels {
        forall j | 0 <= j < |ps|
          ensures start * channels + i < ps[j].start * channels
        {
          JB.Times(ps[j].start, channels);
        }
        JB.LaterPacketsDoNotMatter(ps, channels, start * channels + i, 0);
        assert ps[..0] == [];
      }
    }
  }

  ghost predicate PlaysRead(q: Queue, rest: Queue, items: seq<Item>, channels: nat, n: nat)
    requires q.cursor.Some?
  {
    && rest.packets == map[]
    && TotalFrames(items) == n
    && OnTime(items, q.cursor.value)
    && Played(items, channels) == JB.Render(Sorted(q.packets), channels, q.cursor.value, n * channels)
  }

  /** The main result: draining a queue of disjoint packets empties it, emits exactly the
      buffered frames with each packet at its own start frame, and plays the very samples that
      one C++ `readFrames` over that interval returns. */
  lemma {:induction false} DrainPlaysReadFrames(q: Queue, channels: nat, n: nat)
    requires WellFormed(q) && Disjoint(q) && q.cursor.Some?
    requires Playable(q.packets, channels) && 1 <= channels <= 2
    requires IsBuffered(q, n)
    ensures PlaysRead(q, Drain(q).0, Drain(q).1, channels, n)
    decreases |q.packets|, Ahead(q)
  {
    hide Drain, Pop, Disjoint, WellFormed, IsBuffered, PlaysRead, Ahead, Playable, IsLeast;
    PopKeeps(q);
    var (next, item) := Pop(q);
    if item.Some? {
      PopDecreases(q);
      BufferedShrinks(q, n);
      PlayableAfterPop(q, channels);
      DrainPlaysReadFrames(next, channels, n - item.value.Frames());
      ReadInPieces(q, channels, n);
    } else {
      NothingBuffered(q, channels, n);
    }
  }

  lemma PlayableAfterPop(q: Queue, channels: nat)
    requires WellFormed(q) && Disjoint(q) && q.cursor.Some? && Playable(q.packets, channels) && Pop(q).1.Some?
    ensures Playable(Pop(q).0.packets, channels)
    ensures Pop(q).0.cursor == Some(q.cursor.value + Pop(q).1.value.Frames())
  {
  }

  lemma ReadInPieces(q: Queue, channels: nat, n: nat)
    requires WellFormed(q) && Disjoint(q) && q.cursor.Some? && Pop(q).1.Some?
    requires Playable(q.packets, channels) && 1 <= channels <= 2
    requires var (next, item) := Pop(q);
             && next.cursor == Some(q.cursor.value + item.value.Frames()) && item.value.Frames() <= n
             && PlaysRead(next, Drain(next).0, Drain(next).1, channels, n - item.value.Frames())
    ensures PlaysRead(q, Drain(q).0, Drain(q).1, channels, n)
  {
    hide Drain, Pop, Disjoint, WellFormed, Sorted, TotalFrames, OnTime, Played, Samples, Playable, IsLeast, End;
    DrainStep(q);
    PopCases(q);
    PopRenders(q, channels, n);
    ItemsCons(Pop(q).1.value, Drain(Pop(q).0).1, channels, q.cursor.value);
    OnTimeHere(q);
  }

  /** A packet that comes out has the cursor as its start frame. */
  lemma OnTimeHere(q: Queue)
    requires WellFormed(q) && q.cursor.Some? && Pop(q).1.Some?
    ensures Pop(q).1.value.Audio? ==> Pop(q).1.value.packet.startFrame == q.cursor.value
  {
  }

  lemma DrainStep(q: Queue)
    ensures var (next, item) := Pop(q);
            && (item.None? ==> next == q)
            && Drain(q) == if item.None? then (q, []) else (Drain(next).0, [item.value] + Drain(next).1)
  {
  }

  lemma ItemsCons(item: Item, items: seq<Item>, channels: nat, at: nat)
    ensures TotalFrames([item] + items) == item.Frames() + TotalFrames(items)
    ensures Played([item] + items, channels) == Samples(item, channels) + Played(items, channels)
    ensures OnTime([item] + items, at)
            <==> (item.Audio? ==> item.packet.startFrame == at) && OnTime(items, at + item.Frames())
  {
    assert ([item] + items)[1..] == items;
  }

  lemma NothingBuffered(q: Queue, channels: nat, n: nat)
    requires q.packets == map[] && IsBuffered(q, n) && q.cursor.Some?
    ensures PlaysRead(q, Drain(q).0, Drain(q).1, channels, n)
  {
  }

  /** The two kinds of item a well-formed, disjoint queue can give. */
  lemma PopCases(q: Queue)
    requires WellFormed(q) && Disjoint(q) && q.cursor.Some?
    ensures var (next, item) := Pop(q);
            var c := q.cursor.value;
            match item
            case None => q.packets == map[]
            case Some(Audio(p)) =>
              && IsLeast(c, q.packets.Keys) && p == q.packets[c] && End(p) == c + p.frameCount
              && next == q.(packets := q.packets - {c}, cursor := Some(End(p)))
            case Some(Silence(count)) =>
              && q.packets != map[] && next == q.(cursor := Some(c + count))
              && (forall k :: k in q.packets ==> c + count <= k)
  {
  }

  /** One item is the beginning of the read, and the remaining packets are the rest of it. */
  ghost predicate BeginsList(ps: seq<JB.Buffered>, c: nat, item: Item, rest: seq<JB.Buffered>, channels: nat, n: nat)
    requires item.Frames() <= n
  {
    JB.Render(ps, channels, c, n * channels)
    == Samples(item, channels) + JB.Render(rest, channels, c + item.Frames(), (n - item.Frames()) * channels)
  }

  ghost predicate Begins(packets: map<nat, SwiftPacket>, c: nat, item: Item, rest: map<nat, SwiftPacket>, channels: nat,
                         n: nat)
    requires item.Frames() <= n
  {
    BeginsList(Sorted(packets), c, item, Sorted(rest), channels, n)
  }

  lemma PopRenders(q: Queue, channels: nat, n: nat)
    requires WellFormed(q) && Disjoint(q) && q.cursor.Some? && Pop(q).1.Some?
    requires Playable(q.packets, channels) && 1 <= channels <= 2
    requires Pop(q).1.value.Frames() <= n
    ensures Begins(q.packets, q.cursor.value, Pop(q).1.value, Pop(q).0.packets, channels, n)
  {
    hide Pop, WellFormed, Sorted, Playable, Apart, Begins, End;
    PopCases(q);
    if Pop(q).1.value.Audio? {
      AudioRenders(q.packets, q.cursor.value, channels, n);
    } else {
      SilenceRenders(q.packets, q.cursor.value, Pop(q).1.value.count, channels, n);
    }
  }

  lemma AudioRenders(packets: map<nat, SwiftPacket>, c: nat, channels: nat, n: nat)
    requires Playable(packets, channels) && Apart(packets) && IsLeast(c, packets.Keys) && 1 <= channels <= 2
    requires packets[c].frameCount <= n
    ensures Begins(packets, c, Audio(packets[c]), packets - {c}, channels, n)
  {
    assert c in packets;
    SortedHead(packets, c, channels);
    hide Sorted, Apart, Playable, IsLeast, ToBuffered, End, BeginsList, JB.Disjoint, Samples;
    HeadRenders(Sorted(packets), Sorted(packets - {c}), Audio(packets[c]), channels, n);
  }

  lemma HeadRenders(ps: seq<JB.Buffered>, rest: seq<JB.Buffered>, item: Item, channels: nat, n: nat)
    requires ps != [] && ps[1..] == rest && JB.Disjoint(ps) && 1 <= channels <= 2
    requires ps[0].samples == Samples(item, channels) && ps[0].frames == item.Frames() <= n
    requires |ps[0].samples| == ps[0].frames * channels
    ensures BeginsList(ps, ps[0].start, item, rest, channels, n)
  {
    hide JB.Render, JB.Disjoint, Samples;
    JB.Times(n, channels);
    JB.Times(n - ps[0].frames, channels);
    JB.Times(ps[0].frames, channels);
    RenderPeel(ps, channels, n * channels);
  }

  lemma SortedHead(packets: map<nat, SwiftPacket>, c: nat, channels: nat)
    requires Playable(packets, channels) && Apart(packets) && IsLeast(c, packets.Keys)
    ensures var ps, head := Sorted(packets), ToBuffered(packets[c]);
            && JB.Disjoint(ps) && ps != [] && ps[0] == head && ps[1..] == Sorted(packets - {c})
            && head.start == c && head.frames == packets[c].frameCount
            && head.samples == Samples(Audio(packets[c]), channels) && |head.samples| == head.frames * channels
  {
    SortedShape(packets, channels);
    LeastIs(c, packets.Keys);
    PayloadSamples(packets[c], channels);
  }

  lemma SilenceRenders(packets: map<nat, SwiftPacket>, c: nat, count: nat, channels: nat, n: nat)
    requires Playable(packets, channels) && Apart(packets) && 1 <= channels <= 2 && count <= n
    requires forall k :: k in packets ==> c + count <= k
    ensures Begins(packets, c, Silence(count), packets, channels, n)
  {
    SortedShape(packets, channels);
    var ps := Sorted(packets);
    hide Sorted, Apart, Playable;
    forall i | 0 <= i < |ps|
      ensures c + count <= ps[i].start
    {
      assert ps[i].start in packets;
    }
    JB.Times(n, channels);
    JB.Times(n - count, channels);
    JB.Times(count, channels);
    RenderGap(ps, channels, c, count, n * channels);
  }

  lemma BufferedShrinks(q: Queue, n: nat)
    requires WellFormed(q) && Disjoint(q) && IsBuffered(q, n) && Pop(q).1.Some?
    ensures Pop(q).1.value.Frames() <= n
    ensures IsBuffered(Pop(q).0, n - Pop(q).1.value.Frames())
  {
    PopCases(q);
    hide Pop;
    var c := q.cursor.value;
    var k :| IsLatest(k, q.packets) && n == Max(0, End(q.packets[k]) - c);
    NothingBelowCursor(q, k);
    hide WellFormed, Disjoint;
    match Pop(q).1.value
    case Audio(p) =>
      AudioShrinks(q, n, k, p);
    case Silence(count) =>
      assert c + count <= k;
  }

  lemma NothingBelowCursor(q: Queue, k: nat)
    requires WellFormed(q) && Disjoint(q) && q.cursor.Some? && k in q.packets
    ensures var c := q.cursor.value;
            c <= k && End(q.packets[k]) > k && (c in q.packets && c < k ==> End(q.packets[c]) <= k)
  {
  }

  lemma AudioShrinks(q: Queue, n: nat, k: nat, p: SwiftPacket)
    requires WellFormed(q) && Disjoint(q) && q.cursor.Some? && IsLatest(k, q.packets)
    requires var c := q.cursor.value;
             && c in q.packets && p == q.packets[c] && c <= k && (c < k ==> End(p) <= k)
             && n == Max(0, End(q.packets[k]) - c) && End(p) == c + p.frameCount
    ensures p.frameCount <= n
    ensures IsBuffered(q.(packets := q.packets - {q.cursor.value}, cursor := Some(End(p))), n - p.frameCount)
  {
    var c := q.cursor.value;
    if k == c {
      LastOneLeft(q, c);
    } else {
      LatestStays(q.packets, k, c);
    }
  }

  lemma LatestStays(packets: map<nat, SwiftPacket>, k: nat, c: nat)
    requires IsLatest(k, packets) && k != c
    ensures IsLatest(k, packets - {c})
  {
  }

  lemma LastOneLeft(q: Queue, c: nat)
    requires WellFormed(q) && Disjoint(q) && q.cursor == Some(c) && IsLatest(c, q.packets)
    ensures q.packets - {c} == map[]
  {
    assert forall j :: j in q.packets && j != c ==> c < j && End(q.packets[c]) <= j && End(q.packets[j]) > j;
  }

  /** A C++ map and a Swift dictionary with the same packets. */
  ghost predicate SamePackets(ps: seq<JB.Buffered>, packets: map<nat, SwiftPacket>) {
    && JB.Ascending(ps)
    && (forall b :: b in ps ==> b.start in packets && b == ToBuffered(packets[b.start]))
    && (forall k :: k in packets ==> JB.HasStart(ps, k))
  }

  lemma SameIsSorted(ps: seq<JB.Buffered>, packets: map<nat, SwiftPacket>, channels: nat)
    requires SamePackets(ps, packets) && Playable(packets, channels) && Apart(packets)
    ensures ps == Sorted(packets)
  {
    SortedShape(packets, channels);
    var qs := Sorted(packets);
    forall i, j | 0 <= i < j < |qs|
      ensures qs[i].start < qs[j].start
    {
      assert qs[i].End() <= qs[j].start;
    }
    SameElements(ps, qs, packets, channels);
    ArrivalOrder.SortedIsUnique(ps, qs);
  }

  lemma SameElements(ps: seq<JB.Buffered>, qs: seq<JB.Buffered>, packets: map<nat, SwiftPacket>, channels: nat)
    requires SamePackets(ps, packets) && Shape(qs, packets, channels) && JB.Ascending(qs)
    ensures ArrivalOrder.Elements(ps) == ArrivalOrder.Elements(qs)
  {
    hide ToBuffered;
    forall b | b in qs
      ensures b in ps
    {
      var i :| 0 <= i < |ps| && ps[i].start == b.start;
      assert ps[i] in ps;
    }
    assert ArrivalOrder.Elements(qs) <= ArrivalOrder.Elements(ps);
    ArrivalOrder.AscendingSize(ps);
    ArrivalOrder.AscendingSize(qs);
    StartsBound(ps, packets);
    ArrivalOrder.SubsetSize(ArrivalOrder.Elements(qs), ArrivalOrder.Elements(ps));
  }

  lemma {:induction false} StartsBound(ps: seq<JB.Buffered>, packets: map<nat, SwiftPacket>)
    requires JB.Ascending(ps) && forall b :: b in ps ==> b.start in packets
    ensures |ps| <= |packets|
    decreases |ps|
  {
    if ps != [] {
      var last := ps[|ps| - 1];
      assert last in ps;
      var rest := packets - {last.start};
      assert packets.Keys == rest.Keys + {last.start};
      forall b | b in ps[..|ps| - 1]
        ensures b.start in rest
      {
        assert b in ps && b.start < last.start;
      }
      StartsBound(ps[..|ps| - 1], rest);
    }
  }

  /** Holding the same packets, the two clients play the same samples. */
  lemma SwiftPlaysWhatCppReads(q: Queue, ps: seq<JB.Buffered>, channels: nat, n: nat)
    requires WellFormed(q) && Disjoint(q) && q.cursor.Some? && IsBuffered(q, n)
    requires Playable(q.packets, channels) && 1 <= channels <= 2
    requires SamePackets(ps, q.packets)
    ensures Drain(q).0.packets == map[] && TotalFrames(Drain(q).1) == n && OnTime(Drain(q).1, q.cursor.value)
    ensures Played(Drain(q).1, channels) == JB.Render(ps, channels, q.cursor.value, n * channels)
  {
    hide Drain, Sorted, IsBuffered, WellFormed;
    DrainPlaysReadFrames(q, channels, n);
    SameIsSorted(ps, q.packets, channels);
  }

  // ---- The other operations keep the queue drainable -----------------------------------------

  /** Removing packets and moving the cursor to the first one left. */
  lemma SubQueueKeeps(q: Queue, packets: map<nat, SwiftPacket>)
    requires WellFormed(q) && Disjoint(q)
    requires packets.Keys <= q.packets.Keys && forall k :: k in packets ==> packets[k] == q.packets[k]
    ensures var t := q.(packets := packets); var u := t.(cursor := FirstKey(t)); WellFormed(u) && Disjoint(u)
  {
  }

  /** A packet that does not overlap the held ones keeps the queue drainable, and the dictionary
      never exceeds 512 entries. */
  lemma InsertKeeps(q: Queue, p: SwiftPacket)
    requires WellFormed(q) && Disjoint(q) && |q.packets| <= MAXIMUM_PACKETS && p.frameCount > 0
    requires forall k :: k in q.packets && k != p.startFrame ==>
               End(q.packets[k]) <= p.startFrame || End(p) <= k
    ensures WellFormed(Insert(q, p).0) && Disjoint(Insert(q, p).0)
    ensures |Insert(q, p).0.packets| <= MAXIMUM_PACKETS
    ensures Insert(q, p).1 <==> !(q.stream == Some(StreamOf(p)) && q.cursor.Some? && p.startFrame < q.cursor.value)
  {
    var s := if q.stream == Some(StreamOf(p)) then q else EMPTY.(stream := Some(StreamOf(p)));
    if !(s.cursor.Some? && p.startFrame < s.cursor.value) {
      PutKeeps(s, p);
      var t := Put(s, p);
      if |t.packets| > MAXIMUM_PACKETS {
        var oldest := Least(t.packets.Keys);
        assert t.packets.Keys == (t.packets - {oldest}).Keys + {oldest};
        SubQueueKeeps(t, t.packets - {oldest});
      }
    }
    hide WellFormed, Disjoint;
  }

  ghost function Put(s: Queue, p: SwiftPacket): Queue {
    s.(packets := s.packets[p.startFrame := p], cursor := if s.cursor.None? then Some(p.startFrame) else s.cursor)
  }

  lemma PutKeeps(s: Queue, p: SwiftPacket)
    requires WellFormed(s) && Disjoint(s) && p.frameCount > 0 && s.stream == Some(StreamOf(p))
    requires s.cursor.None? || s.cursor.value <= p.startFrame
    requires forall k :: k in s.packets && k != p.startFrame ==>
               End(s.packets[k]) <= p.startFrame || End(p) <= k
    ensures WellFormed(Put(s, p)) && Disjoint(Put(s, p))
    ensures |Put(s, p).packets| <= |s.packets| + 1
  {
    EndsAfterStart(s);
    PutApart(s.packets, p);
    PutWellFormed(s, p);
    hide End, Apart, WellFormed;
    assert s.packets[p.startFrame := p].Keys == s.packets.Keys + {p.startFrame};
  }

  lemma EndsAfterStart(q: Queue)
    requires WellFormed(q)
    ensures forall k :: k in q.packets ==> End(q.packets[k]) > k
  {
  }

  lemma PutWellFormed(s: Queue, p: SwiftPacket)
    requires WellFormed(s) && p.frameCount > 0 && s.stream == Some(StreamOf(p))
    requires s.cursor.None? || s.cursor.value <= p.startFrame
    ensures WellFormed(Put(s, p))
  {
    hide StreamOf;
  }

  lemma PutApart(packets: map<nat, SwiftPacket>, p: SwiftPacket)
    requires Apart(packets) && p.frameCount > 0 && forall k :: k in packets ==> End(packets[k]) > k
    requires forall k :: k in packets && k != p.startFrame ==> End(packets[k]) <= p.startFrame || End(p) <= k
    ensures Apart(packets[p.startFrame := p])
  {
    var held, s := packets[p.startFrame := p], p.startFrame;
    assert End(p) > s;
    hide End;
    forall j, k | j in held && k in held && j < k
      ensures End(held[j]) <= k
    {
      if j == s {
        assert k in packets;
      } else if k == s {
        assert j in packets;
      } else {
        assert j in packets && k in packets;
      }
    }
  }

  ghost function Discard(q: Queue, timestamp: real): Queue {
    var t := q.(packets := map k | k in q.packets && q.packets[k].timestamp as real >= timestamp :: q.packets[k]);
    t.(cursor := FirstKey(t))
  }

  /** Exactly the packets from the timestamp on stay, as they are, and the cursor moves to the first of them. */
  lemma DiscardStays(q: Queue, timestamp: real, k: nat)
    ensures k in Discard(q, timestamp).packets <==> k in q.packets && q.packets[k].timestamp as real >= timestamp
    ensures k in Discard(q, timestamp).packets ==> Discard(q, timestamp).packets[k] == q.packets[k]
    ensures Discard(q, timestamp).stream == q.stream
    ensures Discard(q, timestamp).cursor.None? <==> Discard(q, timestamp).packets == map[]
    ensures Discard(q, timestamp).cursor.Some? ==>
              IsLeast(Discard(q, timestamp).cursor.value, Discard(q, timestamp).packets.Keys)
  {
  }

  /** What an insert leaves. A packet of another stream finds an empty queue; one behind the cursor changes
      nothing; otherwise it is held under its start frame, and of more than 512 packets the first leaves and
      the cursor moves to the next. */
  lemma InsertHolds(q: Queue, p: SwiftPacket)
    ensures var same := q.stream == Some(StreamOf(p));
            var (t, inserted) := Insert(q, p);
            var all := (if same then q.packets else map[])[p.startFrame as nat := p];
            && t.stream == Some(StreamOf(p))
            && (inserted <==> !same || q.cursor.None? || q.cursor.value <= p.startFrame)
            && (!inserted ==> t == q)
            && (inserted && |all| <= 512 ==>
                  && t.packets == all
                  && t.cursor == if same && q.cursor.Some? then q.cursor else Some(p.startFrame as nat))
            && (inserted && |all| > 512 ==>
                  && (forall k :: k in t.packets ==> k in all && t.packets[k] == all[k])
                  && (forall k :: k in all ==> (k in t.packets <==> !IsLeast(k, all.Keys)))
                  && t.cursor.Some? && IsLeast(t.cursor.value, t.packets.Keys))
  {
    var base := if q.stream == Some(StreamOf(p)) then q.packets else map[];
    var all := base[p.startFrame as nat := p];
    if |all| > 512 {
      var oldest := Least(all.Keys);
      assert all.Keys == (all - {oldest}).Keys + {oldest};
      assert |all - {oldest}| > 0;
    }
  }

  /** What a pop gives: the packet at the cursor, or silence up to the next packet, 1024 frames at a time. */
  lemma PopGives(q: Queue)
    ensures var (t, item) := Pop(q);
            && t.stream == q.stream
            && (item.None? ==> t == q)
            && (item.None? <==> || q.cursor.None? || q.packets == map[]
                                || (q.cursor.value !in q.packets && exists k :: k in q.packets && k < q.cursor.value))
            && (item.Some? ==>
                  match item.value
                  case Audio(p) =>
                    && q.cursor.value in q.packets && p == q.packets[q.cursor.value]
                    && t.packets == q.packets - {q.cursor.value} && t.cursor == Some(q.cursor.value + p.frameCount)
                  case Silence(n) =>
                    && q.cursor.value !in q.packets && 0 < n <= 1024 && t.packets == q.packets
                    && t.cursor == Some(q.cursor.value + n) && (forall k :: k in q.packets ==> q.cursor.value + n <= k)
                    && (n == 1024 || q.cursor.value + n in q.packets))
  {
  }

  lemma DiscardKeeps(q: Queue, timestamp: real)
    requires WellFormed(q) && Disjoint(q)
    ensures WellFormed(Discard(q, timestamp)) && Disjoint(Discard(q, timestamp))
  {
    var packets := map k | k in q.packets && q.packets[k].timestamp as real >= timestamp :: q.packets[k];
    assert packets.Keys <= q.packets.Keys;
    SubQueueKeeps(q, packets);
  }

  // ---- The struct -----------------------------------------------------------------------------

  method LeastKey(keys: set<nat>) returns (m: nat)
    requires keys != {}
    ensures m == Least(keys)
  {
    m :| m in keys;
    var rest := keys - {m};
    while rest != {}
      invariant rest <= keys && m in keys
      invariant forall k :: k in keys ==> k in rest || m <= k
      decreases |rest|
    {
      var k :| k in rest;
      if k < m {
        m := k;
      }
      rest := rest - {k};
    }
    LeastIs(m, keys);
  }

  class PacketPlaybackQueue {
    var cursor: Option<nat>
    var packets: map<nat, SwiftPacket>
    var stream: Option<Stream>

    ghost function Value(): Queue
      reads this
    {
      Queue(cursor, packets, stream)
    }

    constructor ()
      ensures Value() == EMPTY
    {
      cursor, packets, stream := None, map[], None;
    }

    method InsertPacket(p: SwiftPacket) returns (inserted: bool)
      modifies this
      ensures (Value(), inserted) == Insert(old(Value()), p)
    {
      if stream != Some(StreamOf(p)) {
        cursor, packets := None, map[];
        stream := Some(StreamOf(p));
      }
      if cursor.Some? && p.startFrame < cursor.value {
        return false;
      }
      packets := packets[p.startFrame := p];
      if cursor.None? {
        cursor := Some(p.startFrame);
      }
      if |packets| > MAXIMUM_PACKETS {
        var oldest := LeastKey(packets.Keys);
        packets := packets - {oldest};
        if packets == map[] {
          cursor := None;
        } else {
          var first := LeastKey(packets.Keys);
          cursor := Some(first);
        }
      }
      return true;
    }

    method PopNext() returns (item: Option<Item>)
      modifies this
      ensures (Value(), item) == Pop(old(Value()))
    {
      if cursor.None? || packets == map[] {
        return None;
      }
      var c := cursor.value;
      if c in packets {
        var packet := packets[c];
        packets := packets - {c};
        cursor := Some(c + packet.frameCount);
        return Some(Audio(packet));
      }
      var next := LeastKey(packets.Keys);
      if next <= c {
        return None;
      }
      var count := Min(next - c, MAXIMUM_SILENCE);
      cursor := Some(c + count);
      return Some(Silence(count));
    }

    method DiscardBefore(timestamp: real)
      modifies this
      ensures Value() == Discard(old(Value()), timestamp)
    {
      packets := map k | k in packets && packets[k].timestamp as real >= timestamp :: packets[k];
      if packets == map[] {
        cursor := None;
      } else {
        var first := LeastKey(packets.Keys);
        cursor := Some(first);
      }
    }
  }
}
