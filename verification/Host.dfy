/** desktop/src/DesktopNetworkHost.cpp: cutting a PCM source into timestamped packets, one
    segment at a time. What the room shows, what the decoder returns and whether the output
    route changed are arbitrary at every iteration. */
module Host {
  import opened Numbers
  import opened Rooms
  import Wire
  import Pcm
  import Clock

  const MILLISECOND := 1_000_000

  datatype Config = Config(sessionId: u64, streamId: u32, packetMilliseconds: int, sendAhead: int, outputLatency: int)

  /** What the host's constructor accepts. */
  predicate ConfigAccepted(c: Config) {
    c.streamId != 0 && c.packetMilliseconds > 0 && c.sendAhead >= 0 && -1000 <= c.outputLatency <= 1000
  }

  /** The host's constructor throws on anything else. */
  method Configure(port: u16, c: Config) returns (r: Result<Config>)
    ensures r.Ok? <==> && port != 0 && c.streamId != 0 && 0 < c.packetMilliseconds && 0 <= c.sendAhead
                       && -1000 <= c.outputLatency <= 1000
    ensures r.Ok? ==> r.value == c && ConfigAccepted(c)
    ensures port != 0 && ConfigAccepted(c) ==> r.Ok?
  {
    if port == 0 || c.streamId == 0 {
      return Err;
    }
    if c.packetMilliseconds <= 0 || c.sendAhead < 0 {
      return Err;
    }
    if c.outputLatency < -1000 || c.outputLatency > 1000 {
      return Err;
    }
    return Ok(c);
  }

  /** One call of `streamFile`: the decoded source and where its playback starts. */
  datatype Segment = Segment(
    config: Config,
    source: seq<i16>,
    sampleRate: u32,
    channels: u16,
    playbackStart: i64,
    initialFrame: u64)

  datatype Ending =
    | SourceExhausted
    | EndedForCommand
    | CannotOpen
    | RouteChanged
    | ClockOverflow
    | NegativeTimestamp
    | PacketRejected

  datatype Outcome = Outcome(packets: seq<Wire.Packet>, lastFrame: nat, ending: Ending)

  /** The source holds whole frames, and the start time plus the output latency is a timestamp. */
  predicate Playable(g: Segment) {
    && ConfigAccepted(g.config)
    && g.channels > 0 && |g.source| % g.channels == 0 && |g.source| / g.channels < U64_LIMIT
    && -I64_MAX <= ClockStart(g) <= I64_MAX
  }

  /** The formats that the wire format carries. */
  predicate Supported(g: Segment) {
    8000 <= g.sampleRate <= 192000 && g.channels <= 2
  }

  function Total(g: Segment): nat
    requires g.channels > 0
  {
    |g.source| / g.channels
  }

  function ClockStart(g: Segment): int {
    g.playbackStart + g.config.outputLatency * MILLISECOND
  }

  function FramesPerPacket(g: Segment): nat
    requires g.channels > 0 && g.config.packetMilliseconds > 0
  {
    var maximumFrames := Wire.MAXIMUM_PAYLOAD_SIZE / (g.channels * 2);
    var product := g.sampleRate * g.config.packetMilliseconds % U64_LIMIT;
    var desiredFrames := Max(1, (product + 999) % U64_LIMIT / 1000);
    Min(desiredFrames, maximumFrames)
  }

  predicate Opens(g: Segment, expectedSampleRate: u32, expectedChannels: u16)
    requires Playable(g)
  {
    && g.initialFrame <= Total(g)
    && g.sampleRate == expectedSampleRate && g.channels == expectedChannels
    && FramesPerPacket(g) != 0 && g.sampleRate != 0
  }

  /** When the frame `offset` frames into a segment is to be heard: the exact ceiling of the offset,
      so nothing accumulates. */
  function DueAt(clockStart: int, sampleRate: nat, offset: nat): int
    requires sampleRate > 0
  {
    clockStart + Clock.ExactDuration(sampleRate, offset)
  }

  function Due(g: Segment, f: nat): int
    requires g.sampleRate != 0 && g.initialFrame <= f
  {
    DueAt(ClockStart(g), g.sampleRate, f - g.initialFrame)
  }

  /** Packets stop here: a seek cuts the stream `sendAhead` early. */
  function CutoffOf(c: Config, a: Action): int {
    a.effective - (if a.kind == Seek then c.sendAhead * MILLISECOND else 0)
  }

  function Cutoff(g: Segment, a: Action): int {
    CutoffOf(g.config, a)
  }

  /** Frames asked of the decoder; the count up to the cutoff is rounded down, but not to zero. */
  function Requested(g: Segment, f: nat, pending: Option<Action>): nat
    requires Playable(g) && g.sampleRate != 0 && g.initialFrame <= f
    requires pending.Some? ==> Due(g, f) < Cutoff(g, pending.value)
  {
    if pending.None? then FramesPerPacket(g)
    else
      var untilCutoff := (Cutoff(g, pending.value) - Due(g, f)) as real;
      var framesUntilCutoff := untilCutoff * g.sampleRate as real / Clock.SECOND as real;
      if framesUntilCutoff < FramesPerPacket(g) as real then Max(1, framesUntilCutoff.Floor) else FramesPerPacket(g)
  }

  /** A read returns nothing at the end of the source, otherwise between one frame and the
      number requested; `chunk` is the decoder's own wish. */
  function FramesRead(remaining: nat, requested: nat, chunk: nat): nat {
    if remaining == 0 then 0 else Min(Min(Max(1, chunk), requested), remaining)
  }

  function SourceSlice(g: Segment, f: nat, count: nat): (s: seq<i16>)
    requires g.channels > 0 && f + count <= Total(g)
    ensures |s| == count * g.channels
  {
    SliceFits(g, f, count);
    g.source[f * g.channels..(f + count) * g.channels]
  }

  lemma SliceFits(g: Segment, f: nat, count: nat)
    requires g.channels > 0 && f + count <= Total(g)
    ensures 0 <= f * g.channels <= (f + count) * g.channels <= |g.source|
    ensures (f + count) * g.channels == f * g.channels + count * g.channels
  {
    assert (f + count) * g.channels <= Total(g) * g.channels <= |g.source|;
    assert (f + count) * g.channels == f * g.channels + count * g.channels;
  }

  // ---- What a segment emits --------------------------------------------------------

  function EndOf(p: Wire.Packet): nat { p.startFrame + p.frameCount }

  /** Each packet begins where the one before it ended. */
  ghost predicate Tiles(ps: seq<Wire.Packet>, first: nat, last: nat) {
    if ps == [] then first == last
    else
      && ps[|ps| - 1].frameCount > 0 && EndOf(ps[|ps| - 1]) == last
      && Tiles(ps[..|ps| - 1], first, ps[|ps| - 1].startFrame)
  }

  /** The packet carries the source's own frames, due at their exact time. */
  ghost predicate Faithful(g: Segment, p: Wire.Packet)
    requires Playable(g) && g.sampleRate != 0
  {
    && p.sessionId == g.config.sessionId && p.streamId == g.config.streamId
    && p.sampleRate == g.sampleRate && p.channelCount == g.channels && p.flags == 0
    && g.initialFrame <= p.startFrame && EndOf(p) <= Total(g)
    && p.timestamp == Due(g, p.startFrame)
    && Pcm.Decoded(p.payload) == SourceSlice(g, p.startFrame, p.frameCount)
    && Wire.WellFormed(p)
  }

  /** The packet takes what the decoder gave for the request of that iteration. */
  ghost predicate Sized(g: Segment, p: Wire.Packet, pending: Option<Action>, chunk: nat)
    requires Playable(g) && g.sampleRate != 0
  {
    && g.initialFrame <= p.startFrame <= Total(g)
    && (pending.Some? ==> Due(g, p.startFrame) < Cutoff(g, pending.value))
    && p.frameCount == FramesRead(Total(g) - p.startFrame, Requested(g, p.startFrame, pending), chunk)
  }

  ghost predicate Emitted(g: Segment, ps: seq<Wire.Packet>, last: nat, pending: nat -> Option<Action>,
                          chunk: nat -> nat)
    requires Playable(g) && g.sampleRate != 0
  {
    && Tiles(ps, g.initialFrame, last)
    && forall k :: 0 <= k < |ps| ==>
         && ps[k].sequenceNumber == k % U32_LIMIT
         && Faithful(g, ps[k]) && Sized(g, ps[k], pending(k), chunk(k))
  }

  /** Why the loop stopped, in terms of the iteration after the last packet. */
  ghost predicate Explains(g: Segment, o: Outcome, pending: nat -> Option<Action>, routeChanged: nat -> bool)
    requires Playable(g) && g.sampleRate != 0 && g.initialFrame <= o.lastFrame
  {
    var k := |o.packets|;
    match o.ending
    case SourceExhausted =>
      o.lastFrame == Total(g) && (pending(k).Some? ==> Due(g, o.lastFrame) < Cutoff(g, pending(k).value))
    case EndedForCommand => pending(k).Some? && Cutoff(g, pending(k).value) <= Due(g, o.lastFrame) <= I64_MAX
    case CannotOpen => false
    case RouteChanged => routeChanged(k)
    case ClockOverflow =>
      Due(g, o.lastFrame) > I64_MAX || Clock.ExactDuration(g.sampleRate, o.lastFrame - g.initialFrame) > I64_MAX
    case NegativeTimestamp => Due(g, o.lastFrame) < 0
    case PacketRejected => !Supported(g)
  }

  // ---- The loop --------------------------------------------------------------------

  lemma TotalFits(g: Segment)
    requires Playable(g)
    ensures g.channels > 0 && Total(g) < U64_LIMIT
  {
  }

  lemma ReadBounds(remaining: nat, requested: nat, chunk: nat)
    requires requested > 0
    ensures FramesRead(remaining, requested, chunk) <= Min(requested, remaining)
    ensures FramesRead(remaining, requested, chunk) == 0 <==> remaining == 0
  {
  }

  lemma RequestBounds(g: Segment, f: nat, pending: Option<Action>)
    requires Playable(g) && g.sampleRate != 0 && g.initialFrame <= f && FramesPerPacket(g) != 0
    requires pending.Some? ==> Due(g, f) < Cutoff(g, pending.value)
    ensures 1 <= Requested(g, f, pending) <= FramesPerPacket(g)
  {
    hide Due, Cutoff, FramesPerPacket;
  }

  /** An MTU-safe packet has at most 574 frames and its payload fits. */
  lemma PacketFits(g: Segment, count: nat)
    requires Playable(g) && count <= FramesPerPacket(g)
    ensures count <= Wire.MAXIMUM_PAYLOAD_SIZE / 2
    ensures count * g.channels * 2 <= Wire.MAXIMUM_PAYLOAD_SIZE
  {
    var c: nat := g.channels as int * 2;
    assert count <= Wire.MAXIMUM_PAYLOAD_SIZE / c;
    FitsAtMost(count, Wire.MAXIMUM_PAYLOAD_SIZE, c);
    assert count * c == count * g.channels * 2;
  }

  lemma FitsAtMost(count: nat, limit: nat, c: nat)
    requires c >= 2 && count <= limit / c
    ensures count * c <= limit && count <= limit / 2
  {
    assert count * c <= limit / c * c <= limit;
    assert count * 2 <= count * c;
  }

  /** The packet length: long enough for the desired duration unless the payload limit is reached
      first, and never a whole frame longer than that duration needs. */
  lemma PacketLengthIsTight(g: Segment)
    requires Playable(g) && Thousandths(g) + 999 < U64_LIMIT
    ensures var n := FramesPerPacket(g);
            && n * g.channels * 2 <= Wire.MAXIMUM_PAYLOAD_SIZE
            && (n * 1000 >= Thousandths(g) || (n + 1) * g.channels * 2 > Wire.MAXIMUM_PAYLOAD_SIZE)
            && (n > 1 ==> (n - 1) * 1000 < Thousandths(g))
  {
    WithoutWrap(g);
    hide FramesPerPacket, Playable, Thousandths;
    var n := FramesPerPacket(g);
    PacketFits(g, n);
    TightMinimum(n, Thousandths(g), Wire.MAXIMUM_PAYLOAD_SIZE, g.channels as int * 2);
    Regroup(n + 1, g.channels);
  }

  /** The desired packet duration in thousandths of a frame. */
  function Thousandths(g: Segment): int {
    g.sampleRate as int * g.config.packetMilliseconds
  }

  lemma WithoutWrap(g: Segment)
    requires Playable(g) && Thousandths(g) + 999 < U64_LIMIT
    ensures g.channels > 0 && g.config.packetMilliseconds > 0 && Thousandths(g) >= 0
    ensures FramesPerPacket(g)
            == Min(Max(1, (Thousandths(g) + 999) / 1000), Wire.MAXIMUM_PAYLOAD_SIZE / (g.channels as int * 2))
  {
    NoWrap(Thousandths(g));
  }

  lemma NoWrap(product: int)
    requires 0 <= product && product + 999 < U64_LIMIT
    ensures product % U64_LIMIT == product && (product + 999) % U64_LIMIT == product + 999
  {
  }

  lemma Regroup(n: nat, channels: nat)
    ensures n * (channels * 2) == n * channels * 2
  {
  }

  lemma TightMinimum(n: nat, product: nat, limit: nat, c: nat)
    requires c > 0 && n == Min(Max(1, (product + 999) / 1000), limit / c)
    ensures n * 1000 >= product || (n + 1) * c > limit
    ensures n > 1 ==> (n - 1) * 1000 < product
  {
    if n == limit / c {
      Clock.FloorAtLeast(limit, c, n + 1);
    }
  }

  lemma AppendTile(ps: seq<Wire.Packet>, p: Wire.Packet, first: nat)
    requires Tiles(ps, first, p.startFrame) && p.frameCount > 0
    ensures Tiles(ps + [p], first, EndOf(p))
  {
    assert (ps + [p])[..|ps|] == ps;
  }

  function PacketOf(g: Segment, startFrame: u64, timestamp: u64, sequenceNumber: u32, frameCount: u16, payload: seq<u8>)
    : Wire.Packet
  {
    Wire.Packet(Wire.PROTOCOL_VERSION, 0, g.config.sessionId, g.config.streamId, sequenceNumber, g.sampleRate,
                g.channels, Wire.PCM_S16_LITTLE_ENDIAN, startFrame, timestamp, frameCount, payload)
  }

  /** In a supported format `serialize` never rejects what the loop builds. */
  lemma SupportedIsAccepted(g: Segment, startFrame: u64, timestamp: u64, sequenceNumber: u32, frameCount: u16,
                            payload: seq<u8>)
    requires Playable(g) && Supported(g)
    requires 0 < frameCount <= FramesPerPacket(g) && startFrame + frameCount <= Total(g) && timestamp <= I64_MAX
    requires |payload| == frameCount as int * g.channels * 2
    ensures Wire.WellFormed(PacketOf(g, startFrame, timestamp, sequenceNumber, frameCount, payload))
  {
    PacketFits(g, frameCount);
    Wire.PayloadSize(PacketOf(g, startFrame, timestamp, sequenceNumber, frameCount, payload));
    hide FramesPerPacket, Total;
    Positive(frameCount, g.channels);
  }

  lemma Positive(count: nat, channels: nat)
    requires count > 0 && channels > 0
    ensures count * channels * 2 > 0
  {
    assert count * channels > 0;
  }

  method BuildPacket(g: Segment, startFrame: u64, timestamp: u64, sequenceNumber: u32, framesRead: nat)
    returns (p: Wire.Packet, r: Result<seq<u8>>)
    requires Playable(g) && g.sampleRate != 0 && g.initialFrame <= startFrame
    requires 0 < framesRead <= FramesPerPacket(g) && startFrame + framesRead <= Total(g)
    requires timestamp == Due(g, startFrame) <= I64_MAX
    ensures p.startFrame == startFrame && p.frameCount == framesRead && p.sequenceNumber == sequenceNumber
    ensures r == Wire.Encode(p)
    ensures r.Ok? ==> Faithful(g, p)
    ensures r.Err? ==> !Supported(g)
  {
    PacketFits(g, framesRead);
    hide FramesPerPacket, Due, Wire.Header, Wire.HasLayout, Pcm.Decoded, Pcm.Encoded, Total, SourceSlice, ClockStart;
    var samples := SourceSlice(g, startFrame, framesRead);
    var payload := Pcm.ToLittleEndianPcm(samples);
    p := PacketOf(g, startFrame, timestamp, sequenceNumber, framesRead, payload);
    if Supported(g) {
      SupportedIsAccepted(g, startFrame, timestamp, sequenceNumber, framesRead, payload);
    }
    hide Wire.WellFormed;
    r := Wire.Serialize(p);
  }

  lemma AppendPacket(g: Segment, ps: seq<Wire.Packet>, p: Wire.Packet, pending: nat -> Option<Action>,
                     chunk: nat -> nat)
    requires Playable(g) && g.sampleRate != 0
    requires Emitted(g, ps, p.startFrame, pending, chunk) && p.frameCount > 0
    requires p.sequenceNumber == |ps| % U32_LIMIT && Faithful(g, p) && Sized(g, p, pending(|ps|), chunk(|ps|))
    ensures Emitted(g, ps + [p], EndOf(p), pending, chunk)
  {
    hide Faithful, Sized, Tiles;
    AppendTile(ps, p, g.initialFrame);
  }

  lemma NothingEmitted(g: Segment, pending: nat -> Option<Action>, chunk: nat -> nat)
    requires Playable(g) && g.sampleRate != 0
    ensures Emitted(g, [], g.initialFrame, pending, chunk)
  {
  }

  /** The presentation timestamp of the next packet, or the reason there is none. */
  method TimestampOf(g: Segment, startFrame: u64) returns (timestamp: Result<int>)
    requires Playable(g) && g.sampleRate != 0 && g.initialFrame <= startFrame
    ensures timestamp.Ok? ==> timestamp.value == Due(g, startFrame) <= I64_MAX
    ensures timestamp.Err? ==>
              Due(g, startFrame) > I64_MAX || Clock.ExactDuration(g.sampleRate, startFrame - g.initialFrame) > I64_MAX
  {
    Clock.FrameToTimestampIsExact(g.sampleRate, ClockStart(g), startFrame - g.initialFrame);
    timestamp := Clock.FrameToTimestamp(g.sampleRate, ClockStart(g), startFrame - g.initialFrame);
  }

  lemma NextSequence(k: nat)
    ensures (k % U32_LIMIT + 1) % U32_LIMIT == (k + 1) % U32_LIMIT
  {
  }

  method StreamFile(g: Segment, expectedSampleRate: u32, expectedChannels: u16,
                    pending: nat -> Option<Action>, chunk: nat -> nat, routeChanged: nat -> bool)
    returns (o: Outcome)
    requires Playable(g)
    ensures Opens(g, expectedSampleRate, expectedChannels) <==> o.ending != CannotOpen
    ensures o.ending != CannotOpen <==> && g.initialFrame <= |g.source| / g.channels
                                        && g.sampleRate == expectedSampleRate && g.channels == expectedChannels
                                        && 2 * g.channels as int <= Wire.MAXIMUM_PAYLOAD_SIZE && g.sampleRate != 0
    ensures o.ending == CannotOpen ==> o.packets == [] && o.lastFrame == g.initialFrame
    ensures o.ending != CannotOpen ==>
              && g.initialFrame <= o.lastFrame <= Total(g)
              && Emitted(g, o.packets, o.lastFrame, pending, chunk)
              && Explains(g, o, pending, routeChanged)
  {
    AFrameFits(g);
    hide Emitted, Explains, FramesPerPacket;
    if g.initialFrame > Total(g) || g.sampleRate != expectedSampleRate || g.channels != expectedChannels {
      return Outcome([], g.initialFrame, CannotOpen);
    }
    if FramesPerPacket(g) == 0 || g.sampleRate == 0 {
      return Outcome([], g.initialFrame, CannotOpen);
    }
    o := SendPackets(g, pending, chunk, routeChanged);
  }

  /** There is a packet length exactly if the payload holds one frame. */
  lemma AFrameFits(g: Segment)
    requires Playable(g)
    ensures FramesPerPacket(g) != 0 <==> 2 * g.channels as int <= Wire.MAXIMUM_PAYLOAD_SIZE
  {
    Clock.FloorAtLeast(Wire.MAXIMUM_PAYLOAD_SIZE, g.channels * 2, 1);
  }

  /** The sending loop. */
  method SendPackets(g: Segment, pending: nat -> Option<Action>, chunk: nat -> nat, routeChanged: nat -> bool)
    returns (o: Outcome)
    requires Playable(g) && g.sampleRate != 0 && FramesPerPacket(g) != 0 && g.initialFrame <= Total(g)
    ensures g.initialFrame <= o.lastFrame <= Total(g)
    ensures Emitted(g, o.packets, o.lastFrame, pending, chunk)
    ensures Explains(g, o, pending, routeChanged) && o.ending != CannotOpen
  {
    hide FramesPerPacket, Total, FramesRead, Requested, Cutoff, Clock.ExactDuration, Faithful, Tiles, SourceSlice,
         Wire.Encode, Supported, Due, Emitted, Playable;
    TotalFits(g);
    NothingEmitted(g, pending, chunk);
    var packets: seq<Wire.Packet> := [];
    var startFrame: u64 := g.initialFrame;
    var sequenceNumber: u32 := 0;
    while true
      invariant g.initialFrame <= startFrame <= Total(g)
      invariant sequenceNumber == |packets| % U32_LIMIT
      invariant Emitted(g, packets, startFrame, pending, chunk)
      decreases Total(g) - startFrame
    {
      if routeChanged(|packets|) {
        return Outcome(packets, startFrame, RouteChanged);
      }
      var timestamp := TimestampOf(g, startFrame);
      if timestamp.Err? {
        return Outcome(packets, startFrame, ClockOverflow);
      }
      var action := pending(|packets|);
      if action.Some? && timestamp.value >= Cutoff(g, action.value) {
        return Outcome(packets, startFrame, EndedForCommand);
      }
      var requestedFrames := Requested(g, startFrame, action);
      var framesRead := FramesRead(Total(g) - startFrame, requestedFrames, chunk(|packets|));
      RequestBounds(g, startFrame, action);
      ReadBounds(Total(g) - startFrame, requestedFrames, chunk(|packets|));
      if framesRead == 0 {
        return Outcome(packets, startFrame, SourceExhausted);
      }
      if timestamp.value < 0 {
        return Outcome(packets, startFrame, NegativeTimestamp);
      }
      var packet, datagram := BuildPacket(g, startFrame, timestamp.value, sequenceNumber, framesRead);
      if datagram.Err? {
        return Outcome(packets, startFrame, PacketRejected);
      }
      NextSequence(|packets|);
      AppendPacket(g, packets, packet, pending, chunk);
      packets := packets + [packet];
      sequenceNumber := (sequenceNumber + 1) % U32_LIMIT;
      startFrame := startFrame + framesRead;
    }
  }

  // ---- What the packets of a segment mean --------------------------------------------

  /** Tiles laid in order never overlap, and together cover the range. */
  lemma {:induction false} TilesAreOrdered(ps: seq<Wire.Packet>, first: nat, last: nat)
    requires Tiles(ps, first, last)
    ensures first <= last
    ensures forall i :: 0 <= i < |ps| ==> first <= ps[i].startFrame < EndOf(ps[i]) <= last
    ensures forall i, j :: 0 <= i < j < |ps| ==> EndOf(ps[i]) <= ps[j].startFrame
  {
    if ps != [] {
      TilesAreOrdered(ps[..|ps| - 1], first, ps[|ps| - 1].startFrame);
    }
  }

  lemma {:induction false} TilesCover(ps: seq<Wire.Packet>, first: nat, last: nat, f: nat) returns (i: nat)
    requires Tiles(ps, first, last) && first <= f < last
    ensures i < |ps| && ps[i].startFrame <= f < EndOf(ps[i])
  {
    i := |ps| - 1;
    if f < ps[i].startFrame {
      i := TilesCover(ps[..i], first, ps[i].startFrame, f);
    }
  }

  /** Each source frame of the segment is in exactly one packet. */
  lemma EveryFrameSentOnce(ps: seq<Wire.Packet>, first: nat, last: nat, f: nat)
    requires Tiles(ps, first, last)
    ensures first <= f < last <==> exists i :: 0 <= i < |ps| && ps[i].startFrame <= f < EndOf(ps[i])
    ensures forall i, j :: (&& 0 <= i < |ps| && ps[i].startFrame <= f < EndOf(ps[i])
                            && 0 <= j < |ps| && ps[j].startFrame <= f < EndOf(ps[j])) ==> i == j
  {
    TilesAreOrdered(ps, first, last);
    if first <= f < last {
      var i := TilesCover(ps, first, last, f);
    }
  }

  lemma {:induction false} TilesJoin(ps: seq<Wire.Packet>, qs: seq<Wire.Packet>, first: nat, middle: nat, last: nat)
    requires Tiles(ps, first, middle) && Tiles(qs, middle, last)
    ensures Tiles(ps + qs, first, last)
  {
    if qs == [] {
      assert ps + qs == ps;
    } else {
      var q := qs[|qs| - 1];
      TilesJoin(ps, qs[..|qs| - 1], first, middle, q.startFrame);
      assert (ps + qs)[..|ps + qs| - 1] == ps + qs[..|qs| - 1];
    }
  }

  lemma DueAtGrows(clockStart: int, rate: nat, a: nat, b: nat)
    requires rate > 0 && a <= b
    ensures DueAt(clockStart, rate, a) <= DueAt(clockStart, rate, b)
  {
    Clock.CeilAtMost(b * Clock.SECOND, rate, Clock.ExactDuration(rate, b));
    Clock.CeilAtMost(a * Clock.SECOND, rate, Clock.ExactDuration(rate, b));
  }

  lemma DueGrows(g: Segment, f: nat, h: nat)
    requires g.sampleRate != 0 && g.initialFrame <= f <= h
    ensures Due(g, f) <= Due(g, h)
  {
    DueAtGrows(ClockStart(g), g.sampleRate, f - g.initialFrame, h - g.initialFrame);
  }

  /** With at most one frame per nanosecond, `room` nanoseconds that hold `j + 1` whole frames
      leave the start of the last of them strictly before their end. */
  lemma LastFrameStartsInside(rate: nat, a: nat, j: nat, room: nat)
    requires 0 < rate <= Clock.SECOND && (j + 1) * Clock.SECOND <= room * rate
    ensures Clock.ExactDuration(rate, a + j) < Clock.ExactDuration(rate, a) + room
  {
    var e := Clock.ExactDuration(rate, a);
    Clock.CeilAtMost(a * Clock.SECOND, rate, e);
    assert room > 0;
    assert (a + j) * Clock.SECOND <= (e + room - 1) * rate by {
      assert (e + room - 1) * rate == e * rate + room * rate - rate;
    }
    Clock.CeilAtMost((a + j) * Clock.SECOND, rate, e + room - 1);
  }

  /** The rounded-down request: frame `f + j` of it starts before the cutoff. */
  lemma RequestIsBeforeCutoff(g: Segment, f: nat, a: Action, j: nat)
    requires Playable(g) && 0 < g.sampleRate <= Clock.SECOND && g.initialFrame <= f
    requires Due(g, f) < Cutoff(g, a) && j < Requested(g, f, Some(a))
    ensures Due(g, f + j) < Cutoff(g, a)
  {
    if j > 0 {
      var room: nat := Cutoff(g, a) - Due(g, f);
      RequestFits(g, f, a, j, room);
      LastFrameStartsInside(g.sampleRate, f - g.initialFrame, j, room);
      assert f + j - g.initialFrame == f - g.initialFrame + j;
    }
  }

  lemma RequestFits(g: Segment, f: nat, a: Action, j: nat, room: nat)
    requires Playable(g) && g.sampleRate != 0 && g.initialFrame <= f
    requires Due(g, f) < Cutoff(g, a) && room == Cutoff(g, a) - Due(g, f) && 0 < j < Requested(g, f, Some(a))
    ensures (j + 1) * Clock.SECOND <= room * g.sampleRate
  {
    hide Due, Cutoff, FramesPerPacket;
    var frames := room as real * g.sampleRate as real / Clock.SECOND as real;
    assert (j + 1) as real <= frames;
    ScaleUp(j + 1, room, g.sampleRate, frames);
  }

  lemma ScaleUp(n: nat, room: nat, rate: nat, frames: real)
    requires frames == room as real * rate as real / Clock.SECOND as real && n as real <= frames
    ensures n * Clock.SECOND <= room * rate
  {
    assert frames * Clock.SECOND as real == room as real * rate as real;
    assert n as real * Clock.SECOND as real <= frames * Clock.SECOND as real;
    assert (n * Clock.SECOND) as real == n as real * Clock.SECOND as real;
    assert (room * rate) as real == room as real * rate as real;
  }

  /** Once the loop has seen an action, every frame it still sends is due before the cutoff. */
  lemma NothingAtOrAfterCutoff(g: Segment, ps: seq<Wire.Packet>, last: nat, pending: nat -> Option<Action>,
                               chunk: nat -> nat, k: nat, f: nat)
    requires Playable(g) && 0 < g.sampleRate <= Clock.SECOND && FramesPerPacket(g) != 0
    requires Emitted(g, ps, last, pending, chunk)
    requires k < |ps| && pending(k).Some? && ps[k].startFrame <= f < EndOf(ps[k])
    ensures Due(g, f) < Cutoff(g, pending(k).value)
  {
    hide Due, Cutoff, Faithful, Requested, Tiles;
    var p := ps[k];
    assert Sized(g, p, pending(k), chunk(k));
    RequestBounds(g, p.startFrame, pending(k));
    ReadBounds(Total(g) - p.startFrame, Requested(g, p.startFrame, pending(k)), chunk(k));
    RequestIsBeforeCutoff(g, p.startFrame, pending(k).value, f - p.startFrame);
  }

  /** The segment stops exactly at the cutoff: if the action was already there when the last
      packet was cut, the frames sent are precisely those due before it. */
  lemma StopsExactlyAtCutoff(g: Segment, ps: seq<Wire.Packet>, last: nat, pending: nat -> Option<Action>,
                             chunk: nat -> nat, a: Action, f: nat)
    requires Playable(g) && 0 < g.sampleRate <= Clock.SECOND && FramesPerPacket(g) != 0
    requires Emitted(g, ps, last, pending, chunk) && g.initialFrame <= last
    requires Cutoff(g, a) <= Due(g, last)
    requires ps != [] ==> pending(|ps| - 1) == Some(a)
    requires g.initialFrame <= f
    ensures f < last <==> Due(g, f) < Cutoff(g, a)
  {
    hide Due, Cutoff, Faithful, Sized;
    if f < last {
      TilesAreOrdered(ps, g.initialFrame, last);
      if ps != [] {
        NothingAtOrAfterCutoff(g, ps, last, pending, chunk, |ps| - 1, last - 1);
        DueGrows(g, f, last - 1);
      }
    } else {
      DueGrows(g, last, f);
    }
  }

  // ---- When the packets are due -----------------------------------------------------

  /** Every timestamp is the first nanosecond at which the packet's first frame has been reached, counted from the
      start time plus the output latency at the sample rate; the first packet's is that sum itself. */
  lemma TimestampsAreExact(g: Segment, ps: seq<Wire.Packet>, last: nat, pending: nat -> Option<Action>,
                           chunk: nat -> nat, k: nat)
    requires Playable(g) && g.sampleRate != 0 && Emitted(g, ps, last, pending, chunk) && k < |ps|
    ensures var zero := g.playbackStart + g.config.outputLatency * 1_000_000;
            var elapsed, offset: nat := ps[k].timestamp - zero, Max(0, ps[k].startFrame as int - g.initialFrame);
            && ps[k].startFrame >= g.initialFrame
            && elapsed * g.sampleRate >= offset * 1_000_000_000
            && (elapsed - 1) * g.sampleRate < offset * 1_000_000_000
            && (offset == 0 ==> elapsed == 0)
  {
    hide Tiles, Sized, Total, Wire.WellFormed, Pcm.Decoded, SourceSlice;
    assert Faithful(g, ps[k]);
    var offset: nat := ps[k].startFrame as int - g.initialFrame;
    var elapsed := Clock.ExactDuration(g.sampleRate, offset);
    CeilIs(offset * 1_000_000_000, g.sampleRate, elapsed);
  }

  lemma CeilIs(a: nat, b: nat, k: nat)
    requires b > 0 && k == Clock.Ceil(a, b)
    ensures k * b >= a && (k - 1) * b < a + (if a == 0 then 1 else 0) && (a == 0 ==> k == 0)
  {
    Clock.CeilAtMost(a, b, k);
    if k > 0 {
      Clock.CeilAtMost(a, b, k - 1);
    }
    Clock.CeilAtMost(a, b, 0);
  }

  // ---- How long the packets are ---------------------------------------------------------

  /** When an action takes effect on the stream: a seek one send-ahead early, everything else when it is due. */
  function TakesEffect(g: Segment, a: Action): int {
    if a.kind == Seek then a.effective - 1_000_000 * g.config.sendAhead else a.effective
  }

  /** The last of `count` frames from `f` on has been played before the action takes effect. */
  predicate PlayedBefore(g: Segment, f: nat, count: nat, a: Action)
    requires g.sampleRate != 0 && g.initialFrame <= f
  {
    count * 1_000_000_000 <= (TakesEffect(g, a) - Due(g, f)) * g.sampleRate
  }

  /** Every packet is as long as it can be: the packet length, unless the source ends, the decoder gives less,
      or the action then pending takes effect before one more frame has been played; and it is never longer,
      but for a single frame that starts in time. */
  lemma PacketsAreFull(g: Segment, ps: seq<Wire.Packet>, last: nat, pending: nat -> Option<Action>, chunk: nat -> nat,
                       k: nat)
    requires Playable(g) && g.sampleRate != 0 && FramesPerPacket(g) != 0
    requires Emitted(g, ps, last, pending, chunk) && k < |ps|
    ensures var n, f := ps[k].frameCount as nat, ps[k].startFrame;
            && 1 <= n <= FramesPerPacket(g) && f + n <= Total(g) && n <= Max(1, chunk(k))
            && (|| n == FramesPerPacket(g) || f + n == Total(g) || n == Max(1, chunk(k))
                || (pending(k).Some? && !PlayedBefore(g, f, n + 1, pending(k).value)))
            && (pending(k).Some? ==>
                  Due(g, f) < TakesEffect(g, pending(k).value) && (n == 1 || PlayedBefore(g, f, n, pending(k).value)))
  {
    hide Faithful, Due, FramesPerPacket, Tiles, Total;
    var f := ps[k].startFrame;
    assert Sized(g, ps[k], pending(k), chunk(k));
    TotalFits(g);
    assert f < Total(g) by { StartsInside(g, ps, last, pending, chunk, k); }
    RequestIs(g, f, pending(k));
  }

  lemma StartsInside(g: Segment, ps: seq<Wire.Packet>, last: nat, pending: nat -> Option<Action>, chunk: nat -> nat,
                     k: nat)
    requires Playable(g) && g.sampleRate != 0 && Emitted(g, ps, last, pending, chunk) && k < |ps|
    ensures ps[k].startFrame < Total(g)
  {
    TilesAreOrdered(ps, g.initialFrame, last);
    hide Due, Total, Wire.WellFormed;
    assert Faithful(g, ps[k]);
  }

  lemma RequestIs(g: Segment, f: nat, pending: Option<Action>)
    requires Playable(g) && g.sampleRate != 0 && g.initialFrame <= f && FramesPerPacket(g) != 0
    requires pending.Some? ==> Due(g, f) < Cutoff(g, pending.value)
    ensures var n := Requested(g, f, pending);
            && 1 <= n <= FramesPerPacket(g)
            && (n == FramesPerPacket(g) || (pending.Some? && !PlayedBefore(g, f, n + 1, pending.value)))
            && (pending.Some? ==> Due(g, f) < TakesEffect(g, pending.value))
            && (pending.Some? ==> forall m: nat :: 1 < m <= n ==> PlayedBefore(g, f, m, pending.value))
  {
    hide Due, FramesPerPacket;
    if pending.Some? {
      var room := Cutoff(g, pending.value) - Due(g, f);
      assert room == TakesEffect(g, pending.value) - Due(g, f);
      var frames := room as real * g.sampleRate as real / Clock.SECOND as real;
      RequestBounds(g, f, pending);
      forall m: nat
        ensures m as real <= frames <==> m * 1_000_000_000 <= room * g.sampleRate
      {
        FitsIff(m, room, g.sampleRate, frames);
      }
    }
  }

  lemma FitsIff(m: nat, room: nat, rate: nat, frames: real)
    requires frames == room as real * rate as real / Clock.SECOND as real
    ensures m as real <= frames <==> m * 1_000_000_000 <= room * rate
  {
    assert frames * Clock.SECOND as real == room as real * rate as real;
    assert (m * Clock.SECOND) as real == m as real * Clock.SECOND as real;
    assert (room * rate) as real == room as real * rate as real;
  }

  /** An action that was visible when the last packet was cut ends the segment at the first frame that is due at or
      after it takes effect. */
  lemma StopsWhenActionTakesEffect(g: Segment, ps: seq<Wire.Packet>, last: nat, pending: nat -> Option<Action>,
                                   chunk: nat -> nat, a: Action, f: nat)
    requires Playable(g) && 0 < g.sampleRate <= Clock.SECOND && FramesPerPacket(g) != 0
    requires Emitted(g, ps, last, pending, chunk) && g.initialFrame <= last
    requires TakesEffect(g, a) <= Due(g, last)
    requires ps != [] ==> pending(|ps| - 1) == Some(a)
    requires g.initialFrame <= f
    ensures f < last <==> Due(g, f) < TakesEffect(g, a)
  {
    hide Due, Emitted, FramesPerPacket, Playable;
    assert TakesEffect(g, a) == Cutoff(g, a);
    StopsExactlyAtCutoff(g, ps, last, pending, chunk, a, f);
  }

  // ---- A resume ----------------------------------------------------------------------

  /** One call of `streamFile` and what it sent. */
  datatype Sending = Sending(
    segment: Segment,
    packets: seq<Wire.Packet>,
    last: nat,
    pending: nat -> Option<Action>,
    chunk: nat -> nat)

  ghost predicate IsSending(x: Sending) {
    && Playable(x.segment) && x.segment.sampleRate != 0
    && Emitted(x.segment, x.packets, x.last, x.pending, x.chunk) && |x.packets| <= U32_LIMIT
  }

  /** `y` goes on where `x` stopped, as after a pause: same source, session and stream ID. */
  ghost predicate Resumes(x: Sending, y: Sending) {
    && y.segment.initialFrame == x.last && y.segment.source == x.segment.source
    && y.segment.sampleRate == x.segment.sampleRate && y.segment.channels == x.segment.channels
    && y.segment.config.sessionId == x.segment.config.sessionId
    && y.segment.config.streamId == x.segment.config.streamId
  }
}
