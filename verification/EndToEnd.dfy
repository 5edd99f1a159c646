/** From the host's source to the samples that the client's audio callback interpolates: the packets of
    any host run, any network that drops, repeats and reorders datagrams, the receiver's session and
    stream filter (`run` in desktop/src/DesktopAudioClient.cpp), the jitter buffer and the callback. */
module EndToEnd {
  import opened Numbers
  import opened JitterBuffers
  import ArrivalOrder
  import Host
  import Loss
  import Pcm
  import Players
  import Wire

  // ---- The receiver ---------------------------------------------------------------

  datatype Worker = Worker(
    session: Option<u64>,
    stream: Option<u32>,
    tracker: Loss.Tracker,
    buffer: State,
    received: nat)

  /** A client that expects a session also expects a stream. */
  predicate Configured(w: Worker) {
    w.session.Some? ==> w.stream.Some?
  }

  function Accept(w: Worker, p: Wire.Packet): Worker {
    w.(tracker := Loss.Update(w.tracker, p.sequenceNumber), buffer := PushStep(w.buffer, p).0,
       received := if PushStep(w.buffer, p).1 == Inserted then w.received + 1 else w.received)
  }

  /** One datagram: undecodable bytes, other sessions and other streams are dropped; without an
      expected session the first packet decides. */
  function Receive(w: Worker, d: seq<u8>): (r: Worker)
    requires Configured(w)
    ensures Configured(r)
  {
    match Wire.Decode(d)
    case Err => w
    case Ok(p) =>
      if w.session.Some? && p.sessionId != w.session.value then w
      else
        var pinned := if w.session.None? then w.(session := Some(p.sessionId), stream := Some(p.streamId)) else w;
        if p.streamId != pinned.stream.value then pinned else Accept(pinned, p)
  }

  function ReceiveAll(w: Worker, ds: seq<seq<u8>>): (r: Worker)
    requires Configured(w)
    ensures Configured(r)
  {
    if ds == [] then w else Receive(ReceiveAll(w, ds[..|ds| - 1]), ds[|ds| - 1])
  }

  /** What one datagram can change. Undecodable bytes and packets of another session or stream change nothing; a
      packet of the stream moves statistics and buffer and counts as received if it was inserted; only the first
      packet can settle session and stream. */
  lemma ReceiveChanges(w: Worker, d: seq<u8>)
    requires Configured(w)
    ensures Wire.Decode(d).Err? ==> Receive(w, d) == w
    ensures Wire.Decode(d).Ok? ==>
              var p, r := Wire.Decode(d).value, Receive(w, d);
              && (w.session.Some? && p.sessionId != w.session.value ==> r == w)
              && (w.session.Some? && p.streamId != w.stream.value ==> r == w)
              && (w.session.None? || (w.session.value == p.sessionId && w.stream.value == p.streamId) ==>
                    && r.session == Some(p.sessionId) && r.stream == Some(p.streamId)
                    && r.buffer == PushStep(w.buffer, p).0 && r.tracker == Loss.Update(w.tracker, p.sequenceNumber)
                    && r.received - w.received == if PushStep(w.buffer, p).1 == Inserted then 1 else 0)
  {
    hide Wire.Decode, PushStep, Loss.Update;
  }

  class PacketReceiverWorker {
    const jitterBuffer: JitterBuffer
    const statistics: Loss.SequenceStatistics
    var sessionId: Option<u64>
    var streamId: Option<u32>
    var packetsReceived: nat

    ghost function Value(): Worker
      reads this, jitterBuffer, statistics
    {
      Worker(sessionId, streamId, statistics.Value(), jitterBuffer.Value(), packetsReceived)
    }

    ghost predicate Valid()
      reads this, jitterBuffer, statistics
    {
      jitterBuffer.Valid() && Configured(Value())
    }

    /** Zero means that nothing particular is expected. */
    constructor (buffer: JitterBuffer, expectedSessionId: u64, expectedStreamId: u32)
      requires buffer.Valid() && (expectedSessionId != 0 ==> expectedStreamId != 0)
      ensures Valid() && jitterBuffer == buffer && fresh(statistics)
      ensures Value() == Worker(if expectedSessionId == 0 then None else Some(expectedSessionId),
                                if expectedStreamId == 0 then None else Some(expectedStreamId),
                                Loss.FRESH, buffer.Value(), 0)
    {
      jitterBuffer := buffer;
      statistics := new Loss.SequenceStatistics();
      sessionId := if expectedSessionId == 0 then None else Some(expectedSessionId);
      streamId := if expectedStreamId == 0 then None else Some(expectedStreamId);
      packetsReceived := 0;
    }

    method ReceiveDatagram(d: seq<u8>)
      requires Valid()
      modifies this`sessionId, this`streamId, this`packetsReceived, jitterBuffer, statistics
      ensures Valid() && Value() == Receive(old(Value()), d)
    {
      hide PushStep, WellFormed, Loss.Update, Wire.Decode;
      var decoded := Wire.Deserialize(d);
      if decoded.Err? {
        return;
      }
      var packet := decoded.value;
      if sessionId.None? {
        sessionId := Some(packet.sessionId);
        streamId := Some(packet.streamId);
      } else if packet.sessionId != sessionId.value {
        return;
      }
      if packet.streamId != streamId.value {
        return;
      }
      statistics.UpdateSequenceStatistics(packet.sequenceNumber);
      var outcome := jitterBuffer.Push(packet);
      if outcome == Inserted {
        packetsReceived := packetsReceived + 1;
      }
    }

    /** The receive loop over everything the network delivers. */
    method Run(datagrams: seq<seq<u8>>)
      requires Valid()
      modifies this`sessionId, this`streamId, this`packetsReceived, jitterBuffer, statistics
      ensures Valid() && Value() == ReceiveAll(old(Value()), datagrams)
    {
      for k := 0 to |datagrams|
        invariant Valid() && Value() == ReceiveAll(old(Value()), datagrams[..k])
      {
        ReceiveDatagram(datagrams[k]);
        assert datagrams[..k + 1][..k] == datagrams[..k];
      }
      assert datagrams[..|datagrams|] == datagrams;
    }
  }

  // ---- What the host sent ------------------------------------------------------------

  /** One segment of the host and the packets it emitted. */
  datatype Transmission = Transmission(segment: Host.Segment, packets: seq<Wire.Packet>)

  datatype Programme = Programme(source: seq<i16>, sampleRate: u32, channels: u16, session: u64)

  /** Any number of segments of one source: pauses, resumes and seeks start new ones. */
  ghost predicate IsHostRun(g: Programme, ts: seq<Transmission>) {
    forall t :: t in ts ==>
      && Host.Playable(t.segment) && t.segment.sampleRate != 0
      && t.segment.source == g.source && t.segment.sampleRate == g.sampleRate && t.segment.channels == g.channels
      && t.segment.config.sessionId == g.session
      && forall p :: p in t.packets ==> Host.Faithful(t.segment, p)
  }

  ghost predicate Sent(ts: seq<Transmission>, p: Wire.Packet) {
    exists t :: t in ts && p in t.packets
  }

  /** What arrives under the host's session is something the host sent, unchanged. A receiver
      that waits for the first packet to learn the session needs that of every packet. */
  ghost predicate Genuine(g: Programme, ts: seq<Transmission>, expected: bool, d: seq<u8>) {
    Wire.Decode(d).Ok? && (expected ==> Wire.Decode(d).value.sessionId == g.session)
    ==> exists p :: Sent(ts, p) && Wire.Encode(p) == Ok(d)
  }

  // ---- Arrivals and reads in any order ---------------------------------------------------

  datatype Event =
    | Datagram(bytes: seq<u8>)
    | Read(start: u64, size: nat, retainLookahead: bool, lockAcquired: bool)

  /** A read changes nothing but the expiry mark. */
  function Step(w: Worker, e: Event): (r: Worker)
    requires Configured(w)
    ensures Configured(r)
  {
    match e
    case Datagram(d) => Receive(w, d)
    case Read(start, size, retain, lock) =>
      if Served(w.buffer, size, lock)
      then
        var frames := size / w.buffer.format.value.channels;
        w.(buffer := w.buffer.(mark := MarkAfter(w.buffer.mark, start, frames, retain)))
      else w
  }

  function Run(w: Worker, es: seq<Event>): (r: Worker)
    requires Configured(w)
    ensures Configured(r)
  {
    if es == [] then w else Step(Run(w, es[..|es| - 1]), es[|es| - 1])
  }

  /** What a read leaves behind: it expires exactly the packets that its window has passed, if it is served. */
  lemma ReadExpires(w: Worker, start: u64, frames: nat, retain: bool, lock: bool, b: Buffered)
    requires Configured(w) && WellFormed(w.buffer) && w.buffer.format.Some? && start + frames < U64_LIMIT
    ensures var size := frames * w.buffer.format.value.channels;
            var after := Step(w, Read(start, size, retain, lock));
            && after == w.(buffer := w.buffer.(mark := after.buffer.mark))
            && (b.End() <= after.buffer.mark <==>
                  || b.End() <= w.buffer.mark
                  || (lock && b.End() <= start + frames
                      && (retain ==> b.End() <= start || b.End() + 2 <= start + frames)))
  {
    hide Served, MarkAfter;
    var channels := w.buffer.format.value.channels;
    var size := frames * channels;
    ServedIffWholeFrames(w.buffer, size, lock);
    ExpiredAfterRead(w.buffer.mark, start, frames, retain, b);
    assert w.buffer.mark < U64_LIMIT;
    hide WellFormed;
    DivideTimes(frames, channels);
  }

  lemma DivideTimes(x: nat, y: nat)
    requires 1 <= y <= 2
    ensures x * y / y == x
  {
  }

  /** Without reads a run is the receive loop. */
  lemma {:induction false} RunOfDatagrams(w: Worker, ds: seq<seq<u8>>)
    requires Configured(w)
    ensures Run(w, seq(|ds|, i requires 0 <= i < |ds| => Datagram(ds[i]))) == ReceiveAll(w, ds)
  {
    if ds != [] {
      var es := seq(|ds|, i requires 0 <= i < |ds| => Datagram(ds[i]));
      var before := ds[..|ds| - 1];
      RunOfDatagrams(w, before);
      assert es[..|ds| - 1] == seq(|before|, i requires 0 <= i < |before| => Datagram(before[i]));
    }
  }

  /** The packet holds the source's samples at its own frames. */
  ghost predicate Carries(g: Programme, b: Buffered) {
    && |b.samples| == b.frames * g.channels && b.start * g.channels + |b.samples| <= |g.source|
    && forall i :: 0 <= i < |b.samples| ==> b.samples[i] == g.source[b.start * g.channels + i]
  }

  ghost predicate AllCarry(g: Programme, bs: seq<Buffered>) {
    forall b :: b in bs ==> Carries(g, b)
  }

  ghost predicate Intact(g: Programme, expected: bool, w: Worker) {
    && Configured(w) && WellFormed(w.buffer)
    && (expected ==> w.session.Some?) && (w.session.Some? ==> w.session.value == g.session)
    && (w.buffer.format.Some? ==> w.buffer.format.value.channels == g.channels)
    && AllCarry(g, w.buffer.packets)
  }

  lemma SentCarries(g: Programme, ts: seq<Transmission>, p: Wire.Packet)
    requires IsHostRun(g, ts) && Sent(ts, p)
    ensures Wire.WellFormed(p) && p.sessionId == g.session && p.channelCount == g.channels
            && p.sampleRate == g.sampleRate
    ensures Carries(g, ToBuffered(p))
  {
    var t :| t in ts && p in t.packets;
    FaithfulCarries(g, t.segment, p);
  }

  lemma FaithfulCarries(g: Programme, s: Host.Segment, p: Wire.Packet)
    requires Host.Playable(s) && s.sampleRate != 0 && s.source == g.source && s.channels == g.channels
    requires Host.Faithful(s, p)
    ensures Carries(g, ToBuffered(p))
  {
    hide Host.Due, Wire.WellFormed, Pcm.Decoded;
    Host.SliceFits(s, p.startFrame, p.frameCount);
  }

  lemma PushCarries(g: Programme, s: State, p: Wire.Packet)
    requires WellFormed(s) && AllCarry(g, s.packets) && Acceptable(p) && Carries(g, ToBuffered(p))
    ensures AllCarry(g, PushStep(s, p).0.packets)
  {
    hide Carries, Acceptable, ToBuffered, FormatOf, AllShaped, EndsWithin;
    var k := PruneIsSuffix(s.packets, s.mark);
    DropKeepsWellFormed(s, k);
    if PushStep(s, p).1 == Inserted {
      InsertCarries(g, s.packets[k..], ToBuffered(p));
    }
  }

  lemma InsertCarries(g: Programme, ps: seq<Buffered>, b: Buffered)
    requires Ascending(ps) && !HasStart(ps, b.start) && AllCarry(g, ps) && Carries(g, b)
    ensures AllCarry(g, Insert(ps, b)) && |Insert(ps, b)| > 0 && AllCarry(g, Insert(ps, b)[1..])
  {
    hide Carries;
    InsertElements(ps, b);
    hide Ascending, HasStart, Insert;
    var all := Insert(ps, b);
    assert forall x :: x in all[1..] ==> x in all;
  }

  lemma WellFormedIsAcceptable(p: Wire.Packet)
    requires Wire.WellFormed(p)
    ensures Acceptable(p)
  {
    Wire.PayloadSize(p);
  }

  lemma AcceptKeeps(g: Programme, expected: bool, w: Worker, p: Wire.Packet)
    requires Intact(g, expected, w) && Wire.WellFormed(p) && p.channelCount == g.channels && Carries(g, ToBuffered(p))
    ensures Intact(g, expected, Accept(w, p))
  {
    hide Carries, WellFormed, Prune, Insert, Loss.Update, HasStart;
    WellFormedIsAcceptable(p);
    PushKeepsWellFormed(w.buffer, p);
    PushCarries(g, w.buffer, p);
    hide AllCarry, Acceptable;
  }

  lemma ReceiveKeeps(g: Programme, ts: seq<Transmission>, expected: bool, w: Worker, d: seq<u8>)
    requires IsHostRun(g, ts) && Intact(g, expected, w) && Genuine(g, ts, expected, d)
    ensures Intact(g, expected, Receive(w, d))
  {
    hide Wire.Decode, Wire.WellFormed, Carries, IsHostRun, PushStep, WellFormed, Accept, AllCarry;
    if Wire.Decode(d).Ok? && (w.session.Some? ==> Wire.Decode(d).value.sessionId == w.session.value) {
      var p :| Sent(ts, p) && Wire.Encode(p) == Ok(d);
      SentCarries(g, ts, p);
      Wire.DecodeEncode(p);
      var pinned := if w.session.None? then w.(session := Some(p.sessionId), stream := Some(p.streamId)) else w;
      AcceptKeeps(g, expected, pinned, p);
    }
  }

  lemma {:induction false} RunKeeps(g: Programme, ts: seq<Transmission>, expected: bool, w: Worker, es: seq<Event>)
    requires IsHostRun(g, ts) && Intact(g, expected, w)
    requires forall e :: e in es && e.Datagram? ==> Genuine(g, ts, expected, e.bytes)
    ensures Intact(g, expected, Run(w, es))
  {
    hide IsHostRun, Genuine, Receive, AllCarry;
    if es != [] {
      var before, e := es[..|es| - 1], es[|es| - 1];
      RunKeeps(g, ts, expected, w, before);
      match e
      case Datagram(d) => ReceiveKeeps(g, ts, expected, Run(w, before), d);
      case Read(_, _, _, _) =>
    }
  }

  /** What a sample of a frame must be: the source's own, or silence. */
  ghost predicate ReadsAs(g: Programme, held: seq<Buffered>, frame: nat, channel: nat, covered: bool) {
    var a: nat := frame * g.channels + channel;
    if covered then a < |g.source| && SampleAt(held, g.channels, a) == g.source[a]
    else SampleAt(held, g.channels, a) == 0
  }

  /** Reading a buffer of source packets gives the source where a packet covers the frame and
      silence elsewhere. */
  lemma SourceOrSilence(g: Programme, s: State, frame: nat, channel: nat)
    requires WellFormed(s) && AllCarry(g, s.packets) && channel < g.channels
    requires s.format.Some? && s.format.value.channels == g.channels
    ensures ReadsAs(g, s.packets, frame, channel, Received(s.packets, frame))
  {
    if Received(s.packets, frame) {
      CoveredIsSource(g, s.packets, frame, channel);
    } else {
      UncoveredIsSilent(s.packets, g.channels, frame, channel);
    }
  }

  lemma {:induction false} CoveredIsSource(g: Programme, ps: seq<Buffered>, frame: nat, channel: nat)
    requires 1 <= g.channels <= 2 && AllShaped(ps, g.channels) && AllCarry(g, ps) && channel < g.channels
    requires Received(ps, frame)
    ensures var a := frame * g.channels + channel; a < |g.source| && SampleAt(ps, g.channels, a) == g.source[a]
  {
    var last := ps[|ps| - 1];
    FrameOfSample(last, g.channels, frame, channel);
    assert Carries(g, last);
    if !last.Covers(frame) {
      ReceivedBefore(ps, frame);
      CoveredIsSource(g, ps[..|ps| - 1], frame, channel);
    }
  }

  lemma ReceivedBefore(ps: seq<Buffered>, frame: nat)
    requires ps != [] && Received(ps, frame) && !ps[|ps| - 1].Covers(frame)
    ensures Received(ps[..|ps| - 1], frame)
  {
    var i :| 0 <= i < |ps| && ps[i].Covers(frame);
    assert ps[..|ps| - 1][i] == ps[i];
  }

  function NewWorker(session: Option<u64>, stream: Option<u32>): Worker {
    Worker(session, stream, Loss.FRESH, EMPTY, 0)
  }

  /** Whatever the host did and whatever the network lost, repeated or reordered, in any
      interleaving with reads: each sample of a read is the source's own sample at that frame
      and channel if a held packet covers the frame, and zero otherwise. */
  lemma EveryReadIsSourceOrSilence(g: Programme, ts: seq<Transmission>, session: Option<u64>, stream: Option<u32>,
                                   es: seq<Event>, start: nat, size: nat, i: nat)
    requires IsHostRun(g, ts) && (session.Some? ==> stream.Some? && session.value == g.session)
    requires forall e :: e in es && e.Datagram? ==> Genuine(g, ts, session.Some?, e.bytes)
    requires Run(NewWorker(session, stream), es).buffer.format.Some? && i < size
    ensures 1 <= g.channels <= 2
    ensures var held := Run(NewWorker(session, stream), es).buffer.packets;
            var a := start * g.channels + i;
            if Received(held, a / g.channels)
            then a < |g.source| && Render(held, g.channels, start, size)[i] == g.source[a]
            else Render(held, g.channels, start, size)[i] == 0
  {
    hide IsHostRun, Genuine, SampleAt, Received, Run;
    RunKeeps(g, ts, session.Some?, NewWorker(session, stream), es);
    var a: nat := start * g.channels + i;
    DivideByChannels(a, g.channels);
    SourceOrSilence(g, Run(NewWorker(session, stream), es).buffer, a / g.channels, a % g.channels);
  }

  /** The source's own sample if a held packet covers the frame, silence otherwise. */
  function Original(g: Programme, held: seq<Buffered>, frame: nat, channel: nat): i16 {
    var a := frame * g.channels + channel;
    if Received(held, frame) && a < |g.source| then g.source[a] else 0
  }

  /** ... and what the audio callback puts out at any position `at` lies between two such neighbours, as far
      from the first as the position is past it, to the nearest integer; at a whole position it is the
      source's own sample or silence. `DataCallback` in `Player.dfy` puts out samples that sound so at its
      positions, `ratio` apart, from the cursor on. */
  lemma CallbackHearsSource(g: Programme, ts: seq<Transmission>, session: Option<u64>, stream: Option<u32>,
                            es: seq<Event>, at: real, channel: nat, sample: i16)
    requires IsHostRun(g, ts) && (session.Some? ==> stream.Some? && session.value == g.session)
    requires forall e :: e in es && e.Datagram? ==> Genuine(g, ts, session.Some?, e.bytes)
    requires Run(NewWorker(session, stream), es).buffer.format.Some? && at >= 0.0 && channel < g.channels
    requires Players.SoundsAt(sample, Run(NewWorker(session, stream), es).buffer.packets, g.channels, at, channel)
    ensures var held := Run(NewWorker(session, stream), es).buffer.packets;
            var left, right := Original(g, held, at.Floor, channel), Original(g, held, at.Floor + 1, channel);
            && Players.Nearest(sample, left, right, at - at.Floor as real)
            && (at == at.Floor as real ==> sample == left)
  {
    hide IsHostRun, Genuine, SampleAt, Received, Run, Players.Nearest;
    RunKeeps(g, ts, session.Some?, NewWorker(session, stream), es);
    var s := Run(NewWorker(session, stream), es).buffer;
    SourceOrSilence(g, s, at.Floor, channel);
    SourceOrSilence(g, s, at.Floor + 1, channel);
  }

  lemma DivideByChannels(a: nat, channels: nat)
    requires 1 <= channels <= 2
    ensures a == a / channels * channels + a % channels && a % channels < channels
  {
    Times(a / channels, channels);
  }

  // ---- Exact delivery of one stretch ---------------------------------------------------------

  /** The packets of one stretch between seeks: contiguous, of one stream. */
  ghost predicate IsStretch(g: Programme, ts: seq<Transmission>, stream: u32, ps: seq<Wire.Packet>, first: nat,
                            last: nat) {
    Host.Tiles(ps, first, last) && forall p :: p in ps ==> Sent(ts, p) && p.streamId == stream
  }

  /** The datagrams that reach the client, in order of arrival. */
  function Datagrams(arrivals: seq<Wire.Packet>): seq<seq<u8>> {
    if arrivals == [] then []
    else
      var before := Datagrams(arrivals[..|arrivals| - 1]);
      match Wire.Encode(arrivals[|arrivals| - 1])
      case Ok(d) => before + [d]
      case Err => before
  }

  /** What the client then holds. */
  function Held(session: Option<u64>, stream: u32, arrivals: seq<Wire.Packet>): seq<Buffered> {
    ReceiveAll(NewWorker(session, Some(stream)), Datagrams(arrivals)).buffer.packets
  }

  lemma {:induction false} BufferIsPushAll(w: Worker, arrivals: seq<Wire.Packet>, session: u64, stream: u32)
    requires w.session == Some(session) ==> w.stream == Some(stream)
    requires w.session.None? || w.session == Some(session)
    requires forall p :: p in arrivals ==> Wire.WellFormed(p) && p.sessionId == session && p.streamId == stream
    ensures var r := ReceiveAll(w, Datagrams(arrivals));
            && r.buffer == ArrivalOrder.PushAll(w.buffer, arrivals)
            && (r.session == Some(session) ==> r.stream == Some(stream))
            && (r.session.None? || r.session == Some(session))
  {
    hide Wire.Decode, Wire.Encode, Wire.WellFormed, PushStep;
    if arrivals != [] {
      var before, p := arrivals[..|arrivals| - 1], arrivals[|arrivals| - 1];
      BufferIsPushAll(w, before, session, stream);
      Wire.DecodeEncode(p);
      var ds := Datagrams(arrivals);
      assert ds[..|ds| - 1] == Datagrams(before);
    }
  }

  lemma SameStartSamePacket(ps: seq<Wire.Packet>, first: nat, last: nat, p: Wire.Packet, q: Wire.Packet)
    requires Host.Tiles(ps, first, last) && p in ps && q in ps && p.startFrame == q.startFrame
    ensures p == q
  {
    Host.TilesAreOrdered(ps, first, last);
    var i :| 0 <= i < |ps| && ps[i] == p;
    var j :| 0 <= j < |ps| && ps[j] == q;
  }

  ghost function AllBuffered(ps: seq<Wire.Packet>): set<Buffered> {
    set p | p in ps :: ToBuffered(p)
  }

  lemma {:induction false} AtMostAsManyBuffered(ps: seq<Wire.Packet>)
    ensures |AllBuffered(ps)| <= |ps|
  {
    hide ToBuffered;
    if ps != [] {
      var rest, p := ps[..|ps| - 1], ps[|ps| - 1];
      AtMostAsManyBuffered(rest);
      assert AllBuffered(ps) == AllBuffered(rest) + {ToBuffered(p)};
    }
  }

  /** With room for the whole stretch, exactly the delivered packets are held. */
  lemma HeldIsDelivered(arrivals: seq<Wire.Packet>, ps: seq<Wire.Packet>, format: Format)
    requires ArrivalOrder.OneStream(arrivals, format) && (forall p :: p in arrivals ==> p in ps)
    requires |ps| <= MAXIMUM_PACKETS
    ensures var s := ArrivalOrder.PushAll(EMPTY, arrivals);
            && WellFormed(s) && (s.format.None? || s.format == Some(format))
            && forall b :: b in s.packets <==> b in AllBuffered(arrivals)
  {
    ArrivalOrder.EmptyFits(EMPTY, arrivals, format);
    ArrivalOrder.HeldAreNewest(EMPTY, arrivals, format);
    var held := ArrivalOrder.PushAll(EMPTY, arrivals).packets;
    var all := ArrivalOrder.Offered(arrivals, 0);
    assert all == AllBuffered(arrivals);
    AtMostAsManyBuffered(ps);
    ArrivalOrder.SubsetSize(all, AllBuffered(ps));
    ArrivalOrder.AscendingSize(held);
    ArrivalOrder.SubsetSize(ArrivalOrder.Elements(held), all);
    assert ArrivalOrder.Elements(held) == all;
    forall b
      ensures b in held <==> b in all
    {
      assert b in held <==> b in ArrivalOrder.Elements(held);
    }
  }

  ghost predicate Delivered(arrivals: seq<Wire.Packet>, frame: nat) {
    exists p :: p in arrivals && p.startFrame <= frame < Host.EndOf(p)
  }

  lemma StretchIsOneStream(g: Programme, ts: seq<Transmission>, stream: u32, ps: seq<Wire.Packet>, first: nat,
                           last: nat, arrivals: seq<Wire.Packet>)
    requires IsHostRun(g, ts) && IsStretch(g, ts, stream, ps, first, last) && forall p :: p in arrivals ==> p in ps
    ensures ArrivalOrder.OneStream(arrivals, Format(g.sampleRate, g.channels))
    ensures forall p :: p in arrivals ==> Wire.WellFormed(p) && p.sessionId == g.session && p.streamId == stream
    ensures forall b :: b in AllBuffered(arrivals) ==> Carries(g, b)
  {
    hide Wire.WellFormed, IsHostRun, Carries, Acceptable;
    forall p | p in arrivals
      ensures Wire.WellFormed(p) && Acceptable(p) && FormatOf(p) == Format(g.sampleRate, g.channels)
      ensures p.sessionId == g.session && Carries(g, ToBuffered(p))
    {
      SentCarries(g, ts, p);
      WellFormedIsAcceptable(p);
    }
    forall p, q | p in arrivals && q in arrivals && p.startFrame == q.startFrame
      ensures ToBuffered(p) == ToBuffered(q)
    {
      SameStartSamePacket(ps, first, last, p, q);
    }
  }

  /** The whole path, exactly: after any delivery of a stretch of at most 1024 packets, each
      frame reads as the source's own if and only if some packet holding it was delivered. */
  lemma DeliveredFramesAreTheSource(g: Programme, ts: seq<Transmission>, session: Option<u64>, stream: u32,
                                    ps: seq<Wire.Packet>, first: nat, last: nat, arrivals: seq<Wire.Packet>,
                                    frame: nat, channel: nat)
    requires IsHostRun(g, ts) && IsStretch(g, ts, stream, ps, first, last) && |ps| <= MAXIMUM_PACKETS
    requires session.None? || session.value == g.session
    requires (forall p :: p in arrivals ==> p in ps) && channel < g.channels
    ensures ReadsAs(g, Held(session, stream, arrivals), frame, channel, Delivered(arrivals, frame))
  {
    StretchIsOneStream(g, ts, stream, ps, first, last, arrivals);
    BufferIsPushAll(NewWorker(session, Some(stream)), arrivals, g.session, stream);
    HeldIsDelivered(arrivals, ps, Format(g.sampleRate, g.channels));
    var s := ArrivalOrder.PushAll(EMPTY, arrivals);
    DeliveredIsReceived(arrivals, s.packets, frame);
    if s.format.Some? {
      SourceOrSilence(g, s, frame, channel);
    }
  }

  lemma DeliveredIsReceived(arrivals: seq<Wire.Packet>, held: seq<Buffered>, frame: nat)
    requires forall b :: b in held <==> b in AllBuffered(arrivals)
    ensures Received(held, frame) <==> Delivered(arrivals, frame)
  {
    if Received(held, frame) {
      var i :| 0 <= i < |held| && held[i].Covers(frame);
      assert held[i] in AllBuffered(arrivals);
    }
    if Delivered(arrivals, frame) {
      var p :| p in arrivals && p.startFrame <= frame < Host.EndOf(p);
      assert ToBuffered(p) in held;
      var i :| 0 <= i < |held| && held[i] == ToBuffered(p);
    }
  }

  lemma SampleDelivered(g: Programme, ts: seq<Transmission>, session: Option<u64>, stream: u32,
                        ps: seq<Wire.Packet>, first: nat, last: nat, arrivals: seq<Wire.Packet>, size: nat, i: nat)
    requires IsHostRun(g, ts) && IsStretch(g, ts, stream, ps, first, last) && |ps| <= MAXIMUM_PACKETS
    requires session.None? || session.value == g.session
    requires 1 <= g.channels <= 2 && first < last && i < size == (last - first) * g.channels
    requires forall p :: p in arrivals <==> p in ps
    ensures var a: nat := first * g.channels + i;
            a < |g.source| && SampleAt(Held(session, stream, arrivals), g.channels, a) == g.source[a]
  {
    hide IsHostRun, Held, SampleAt;
    var a: nat := first * g.channels + i;
    var frame := a / g.channels;
    DivideByChannels(a, g.channels);
    FrameInside(first, last, g.channels, i);
    var k := Host.TilesCover(ps, first, last, frame);
    assert ps[k] in arrivals;
    DeliveredFramesAreTheSource(g, ts, session, stream, ps, first, last, arrivals, frame, a % g.channels);
  }

  lemma FrameInside(first: nat, last: nat, channels: nat, i: nat)
    requires 1 <= channels <= 2 && first < last && i < (last - first) * channels
    ensures first <= (first * channels + i) / channels < last
  {
    Times(first, channels);
    Times(last - first, channels);
  }

  /** If every packet of the stretch arrives at least once, in any order, one read returns the
      source bit for bit. */
  lemma FullDeliveryIsBitExact(g: Programme, ts: seq<Transmission>, session: Option<u64>, stream: u32,
                               ps: seq<Wire.Packet>, first: nat, last: nat, arrivals: seq<Wire.Packet>, size: nat)
    requires IsHostRun(g, ts) && IsStretch(g, ts, stream, ps, first, last) && |ps| <= MAXIMUM_PACKETS
    requires session.None? || session.value == g.session
    requires 1 <= g.channels <= 2 && first < last && size == (last - first) * g.channels
    requires forall p :: p in arrivals <==> p in ps
    ensures var from: nat := first * g.channels;
            && from + size <= |g.source|
            && Render(Held(session, stream, arrivals), g.channels, first, size) == g.source[from..from + size]
  {
    hide IsHostRun, IsStretch, Held, SampleAt;
    var from: nat := first * g.channels;
    var held := Held(session, stream, arrivals);
    Times(last - first, g.channels);
    SampleDelivered(g, ts, session, stream, ps, first, last, arrivals, size, size - 1);
    forall i | 0 <= i < size
      ensures Render(held, g.channels, first, size)[i] == g.source[from..from + size][i]
    {
      SampleDelivered(g, ts, session, stream, ps, first, last, arrivals, size, i);
    }
  }
}
