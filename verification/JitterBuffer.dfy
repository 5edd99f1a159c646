/** core/src/JitterBuffer.cpp: the bounded, sorted packet map and the frame reader. */
module JitterBuffers {
  import opened Numbers
  import Wire
  import Pcm

  const MAXIMUM_PACKETS := 1024

  datatype Buffered = Buffered(start: nat, timestamp: nat, frames: nat, samples: seq<i16>) {
    function End(): nat { start + frames }
    predicate Covers(frame: nat) { start <= frame < End() }
  }

  datatype Format = Format(sampleRate: nat, channels: nat)

  /** `packets` is the ordered map: strictly ascending start frames. */
  datatype State = State(
    packets: seq<Buffered>,
    format: Option<Format>,
    latestEnd: nat,
    mark: nat,
    late: nat,
    duplicates: nat,
    overflow: nat)

  const EMPTY := State([], None, 0, 0, 0, 0, 0)

  ghost predicate Ascending(ps: seq<Buffered>) {
    forall i, j :: 0 <= i < j < |ps| ==> ps[i].start < ps[j].start
  }

  ghost predicate Disjoint(ps: seq<Buffered>) {
    forall i, j :: 0 <= i < j < |ps| ==> ps[i].End() <= ps[j].start
  }

  ghost predicate Shaped(b: Buffered, channels: nat) {
    0 < b.frames < U16_LIMIT && |b.samples| == b.frames * channels && b.End() < U64_LIMIT
  }

  ghost predicate AllShaped(ps: seq<Buffered>, channels: nat) {
    forall b :: b in ps ==> Shaped(b, channels)
  }

  ghost predicate EndsWithin(ps: seq<Buffered>, end: nat) {
    forall b :: b in ps ==> b.End() <= end
  }

  ghost predicate WellFormed(s: State) {
    && Ascending(s.packets)
    && |s.packets| <= MAXIMUM_PACKETS
    && s.mark < U64_LIMIT
    && (s.format.None? ==> s.packets == [])
    && (s.format.Some? ==>
          && 1 <= s.format.value.channels <= 2
          && AllShaped(s.packets, s.format.value.channels))
    && EndsWithin(s.packets, s.latestEnd)
  }

  // ---- push ----------------------------------------------------------------

  predicate Acceptable(p: Wire.Packet) {
    && p.sampleFormat == Wire.PCM_S16_LITTLE_ENDIAN
    && 8000 <= p.sampleRate <= 192000
    && 0 < p.channelCount <= 2
    && p.frameCount != 0
    && p.startFrame <= U64_LIMIT - 1 - p.frameCount
    && |p.payload| == p.frameCount as int * p.channelCount * 2
  }

  function ToBuffered(p: Wire.Packet): Buffered {
    Buffered(p.startFrame, p.timestamp, p.frameCount, Pcm.Decoded(p.payload))
  }

  function FormatOf(p: Wire.Packet): Format {
    Format(p.sampleRate, p.channelCount)
  }

  datatype Outcome = Inserted | Late | Duplicate | Invalid

  /** The pruning loop: drop from the front while the front is expired. */
  function Prune(ps: seq<Buffered>, mark: nat): seq<Buffered> {
    if ps != [] && ps[0].End() <= mark then Prune(ps[1..], mark) else ps
  }

  predicate HasStart(ps: seq<Buffered>, frame: nat) {
    exists i :: 0 <= i < |ps| && ps[i].start == frame
  }

  /** `b` placed before the first packet that starts after it. */
  function Insert(ps: seq<Buffered>, b: Buffered): seq<Buffered> {
    if ps == [] || b.start < ps[0].start then [b] + ps else [ps[0]] + Insert(ps[1..], b)
  }

  /** The step that `push` takes, exceptions included. */
  function PushStep(s: State, p: Wire.Packet): (State, Outcome) {
    if !Acceptable(p) then (s, Invalid)
    else
      var b := ToBuffered(p);
      var pruned := Prune(s.packets, s.mark);
      var s1 := s.(packets := pruned);
      if b.End() <= s.mark then (s1.(late := s.late + 1), Late)
      else if s.format.Some? && s.format.value != FormatOf(p) then (s1, Invalid)
      else if HasStart(pruned, b.start)
        then (s1.(duplicates := s.duplicates + 1, format := Some(FormatOf(p))), Duplicate)
      else (Admit(s1, b, FormatOf(p)), Inserted)
  }

  /** A new start frame enters the map; if that makes 1025 packets, the oldest leaves. */
  function Admit(s: State, b: Buffered, format: Format): State {
    var all := Insert(s.packets, b);
    var full := |all| > MAXIMUM_PACKETS;
    s.(packets := if full then all[1..] else all,
       format := Some(format),
       latestEnd := Max(s.latestEnd, b.End()),
       overflow := if full then s.overflow + 1 else s.overflow)
  }

  // ---- readFrames ------------------------------------------------------------

  /** Sample `a` counts interleaved samples from frame 0. The last packet of the map that
      covers it wins; silence otherwise. */
  function SampleAt(ps: seq<Buffered>, channels: nat, a: nat): i16 {
    if ps == [] then 0
    else
      var b := ps[|ps| - 1];
      var first := b.start * channels;
      if first <= a < first + |b.samples| then b.samples[a - first] else SampleAt(ps[..|ps| - 1], channels, a)
  }

  function Render(ps: seq<Buffered>, channels: nat, start: nat, size: nat): (r: seq<i16>)
    ensures |r| == size
    ensures forall i :: 0 <= i < size ==> r[i] == SampleAt(ps, channels, start * channels + i)
  {
    seq<i16>(size, i requires 0 <= i => SampleAt(ps, channels, start * channels + i))
  }

  /** Frames of `b` inside the window. */
  function Overlap(b: Buffered, start: nat, end: nat): nat {
    var lo, hi := Max(start, b.start), Min(end, b.End());
    if lo < hi then hi - lo else 0
  }

  function Copied(ps: seq<Buffered>, start: nat, end: nat): nat {
    if ps == [] then 0 else Copied(ps[..|ps| - 1], start, end) + Overlap(ps[|ps| - 1], start, end)
  }

  /** Whether the request reaches the packet map at all. */
  predicate Served(s: State, size: nat, lockAcquired: bool) {
    lockAcquired && s.format.Some? && s.format.value.channels != 0 && size % s.format.value.channels == 0
  }

  /** The expiry mark after a served read; both the end of the window and the lookahead
      subtraction are 64-bit. */
  function MarkAfter(mark: nat, start: nat, frames: nat, retainLookahead: bool): nat {
    var end := (start + frames) % U64_LIMIT;
    Max(mark, (end - (if retainLookahead then Min(2, frames) else 0)) % U64_LIMIT)
  }

  // ---- Facts about the map operations ------------------------------------------

  lemma {:induction false} PruneIsSuffix(ps: seq<Buffered>, mark: nat) returns (k: nat)
    ensures k <= |ps| && Prune(ps, mark) == ps[k..]
    ensures forall i :: 0 <= i < k ==> ps[i].End() <= mark
    ensures k < |ps| ==> ps[k].End() > mark
  {
    if ps != [] && ps[0].End() <= mark {
      var j := PruneIsSuffix(ps[1..], mark);
      k := j + 1;
      assert ps[1..][j..] == ps[k..];
      forall i | 0 <= i < k
        ensures ps[i].End() <= mark
      {
        if i > 0 {
          assert ps[i] == ps[1..][i - 1];
        }
      }
    } else {
      k := 0;
    }
  }

  lemma {:induction false} InsertElements(ps: seq<Buffered>, b: Buffered)
    requires Ascending(ps) && !HasStart(ps, b.start)
    ensures |Insert(ps, b)| == |ps| + 1
    ensures forall x :: x in Insert(ps, b) <==> x in ps || x == b
    ensures Ascending(Insert(ps, b))
  {
    if ps == [] || b.start < ps[0].start {
    } else {
      var t := ps[1..];
      assert ps == [ps[0]] + t;
      forall i | 0 <= i < |t|
        ensures t[i].start != b.start
      {
        assert t[i] == ps[i + 1];
      }
      InsertElements(t, b);
      var r := Insert(t, b);
      forall i | 0 <= i < |r|
        ensures ps[0].start < r[i].start
      {
        assert r[i] in r;
        assert ps[0].start != b.start;
      }
    }
  }

  lemma BufferedIsShaped(p: Wire.Packet)
    requires Acceptable(p)
    ensures Shaped(ToBuffered(p), p.channelCount)
  {
    assert p.frameCount as int * p.channelCount * 2 / 2 == p.frameCount as int * p.channelCount;
  }

  /** What the buffer takes: 16-bit samples of one or two channels, at least a frame, all of them below the last
      64-bit frame number. */
  lemma AcceptableIff(p: Wire.Packet)
    ensures Acceptable(p) <==>
            && p.sampleFormat == 1
            && !(p.sampleRate < 8000 || p.sampleRate > 192000)
            && (p.channelCount == 1 || p.channelCount == 2)
            && p.frameCount >= 1
            && p.startFrame + p.frameCount <= 0xFFFF_FFFF_FFFF_FFFF
            && |p.payload| == (if p.channelCount == 1 then 2 else 4) * p.frameCount
  {
  }

  /** The expired packets at the front are `k`. */
  ghost predicate ExpiredAtFront(s: State, k: nat) {
    && k <= |s.packets|
    && (forall i :: 0 <= i < k ==> s.packets[i].End() <= s.mark)
    && (k < |s.packets| ==> s.packets[k].End() > s.mark)
  }

  lemma PruneDropsFront(s: State, k: nat)
    requires ExpiredAtFront(s, k)
    ensures Prune(s.packets, s.mark) == s.packets[k..]
  {
    var j := PruneIsSuffix(s.packets, s.mark);
    assert j == k;
  }

  /** Which packet is late, which a duplicate and which refused. */
  lemma PushOutcomeIff(s: State, p: Wire.Packet, k: nat)
    requires WellFormed(s) && ExpiredAtFront(s, k)
    ensures var outcome := PushStep(s, p).1;
            var end := p.startFrame + p.frameCount;
            var foreign := s.format.Some? && s.format != Some(Format(p.sampleRate, p.channelCount));
            && (outcome == Invalid <==> !Acceptable(p) || (end > s.mark && foreign))
            && (!Acceptable(p) ==> PushStep(s, p).0 == s)
            && (outcome == Late <==> Acceptable(p) && end <= s.mark)
            && (outcome == Duplicate <==>
                  && Acceptable(p) && end > s.mark && !foreign
                  && exists b :: b in s.packets[k..] && b.start == p.startFrame)
  {
    hide Acceptable, Prune, Pcm.Decoded;
    PruneDropsFront(s, k);
    HasStartIff(s.packets[k..], p.startFrame);
  }

  /** What each outcome leaves behind. A packet that is refused for its form prunes nothing. */
  lemma PushLeaves(s: State, p: Wire.Packet, k: nat)
    requires WellFormed(s) && ExpiredAtFront(s, k) && Acceptable(p)
    ensures var (t, outcome) := PushStep(s, p);
            var end := p.startFrame + p.frameCount;
            var kept := s.(packets := s.packets[k..]);
            && (outcome == Invalid ==> t == kept)
            && (outcome == Late ==> t == kept.(late := s.late + 1))
            && (outcome == Duplicate ==> t == kept.(duplicates := s.duplicates + 1))
            && (outcome == Inserted ==>
                  && t.late == s.late && t.duplicates == s.duplicates && t.mark == s.mark
                  && t.format == Some(Format(p.sampleRate, p.channelCount))
                  && t.latestEnd == (if end > s.latestEnd then end else s.latestEnd)
                  && |t.packets| == (if |s.packets| - k == 1024 then 1024 else |s.packets| - k + 1)
                  && t.overflow == (if |s.packets| - k == 1024 then s.overflow + 1 else s.overflow))
  {
    hide Acceptable, Prune, Admit, Ascending, AllShaped, EndsWithin, Pcm.Decoded;
    PruneDropsFront(s, k);
    HasStartIff(s.packets[k..], p.startFrame);
    AdmitCounts(s.(packets := s.packets[k..]), ToBuffered(p), FormatOf(p));
  }

  lemma AdmitCounts(s: State, b: Buffered, format: Format)
    requires |s.packets| <= 1024
    ensures var t := Admit(s, b, format);
            && t.late == s.late && t.duplicates == s.duplicates && t.mark == s.mark && t.format == Some(format)
            && t.latestEnd == (if b.End() > s.latestEnd then b.End() else s.latestEnd)
            && |t.packets| == (if |s.packets| == 1024 then 1024 else |s.packets| + 1)
            && t.overflow == (if |s.packets| == 1024 then s.overflow + 1 else s.overflow)
  {
    InsertSize(s.packets, b);
  }

  lemma {:induction false} InsertSize(ps: seq<Buffered>, b: Buffered)
    ensures |Insert(ps, b)| == |ps| + 1
  {
    if ps != [] && ps[0].start <= b.start {
      InsertSize(ps[1..], b);
    }
  }

  lemma HasStartIff(ps: seq<Buffered>, frame: nat)
    ensures HasStart(ps, frame) <==> exists b :: b in ps && b.start == frame
  {
    if HasStart(ps, frame) {
      var i :| 0 <= i < |ps| && ps[i].start == frame;
      assert ps[i] in ps;
    }
  }

  /** A read is served with the lock taken and a format known, if it asks for whole frames. */
  lemma ServedIffWholeFrames(s: State, size: nat, lockAcquired: bool)
    requires WellFormed(s)
    ensures Served(s, size, lockAcquired) <==>
            lockAcquired && s.format.Some? && exists frames: nat :: size == frames * s.format.value.channels
  {
    if s.format.Some? {
      var channels := s.format.value.channels;
      if exists frames: nat :: size == frames * channels {
        var frames: nat :| size == frames * channels;
        Times(frames, channels);
        assert size % channels == 0;
      } else {
        assert size == (size / channels) * channels + size % channels;
      }
    }
  }

  /** After a read a packet has expired if it had before, or if it ends by the end of the window, less the two
      frames kept back for interpolation. */
  lemma ExpiredAfterRead(mark: nat, start: nat, frames: nat, retainLookahead: bool, b: Buffered)
    requires start + frames < U64_LIMIT && mark < U64_LIMIT
    ensures b.End() <= MarkAfter(mark, start, frames, retainLookahead) <==>
            || b.End() <= mark
            || (!retainLookahead && b.End() <= start + frames)
            || (retainLookahead && (b.End() <= start || b.End() + 2 <= start + frames))
  {
  }

  lemma DropKeepsWellFormed(s: State, k: nat)
    requires WellFormed(s) && k <= |s.packets|
    ensures WellFormed(s.(packets := s.packets[k..]))
  {
  }

  lemma AdmitKeepsWellFormed(s: State, b: Buffered, format: Format)
    requires WellFormed(s) && !HasStart(s.packets, b.start)
    requires 1 <= format.channels <= 2 && Shaped(b, format.channels)
    requires s.format.Some? ==> s.format.value == format
    ensures WellFormed(Admit(s, b, format))
  {
    InsertElements(s.packets, b);
  }

  /** Every step keeps the map sorted, bounded and well shaped. */
  lemma PushKeepsWellFormed(s: State, p: Wire.Packet)
    requires WellFormed(s)
    ensures WellFormed(PushStep(s, p).0)
  {
    if Acceptable(p) {
      var k := PruneIsSuffix(s.packets, s.mark);
      DropKeepsWellFormed(s, k);
      BufferedIsShaped(p);
      if PushStep(s, p).1 == Inserted {
        AdmitKeepsWellFormed(s.(packets := s.packets[k..]), ToBuffered(p), FormatOf(p));
      }
    }
  }

  /** The loop keeps exactly the packets that are not expired at `mark`. */
  ghost predicate PrunedExactly(ps: seq<Buffered>, mark: nat) {
    forall b :: b in Prune(ps, mark) <==> b in ps && b.End() > mark
  }

  ghost predicate EndsAscend(ps: seq<Buffered>) {
    forall i, j :: 0 <= i < j < |ps| ==> ps[i].End() <= ps[j].End()
  }

  /** Stopping at the first unexpired packet loses nothing, whatever the mark, exactly when end
      frames never decrease along the map; packets may overlap as long as none outlasts a later one. */
  lemma PruneExactIff(ps: seq<Buffered>)
    ensures (forall mark: nat :: PrunedExactly(ps, mark)) <==> EndsAscend(ps)
  {
    if EndsAscend(ps) {
      forall mark: nat
        ensures PrunedExactly(ps, mark)
      {
        PruneExact(ps, mark);
      }
    } else {
      var i, j :| 0 <= i < j < |ps| && ps[i].End() > ps[j].End();
      var mark := ps[j].End();
      var k := PruneIsSuffix(ps, mark);
      assert k <= i;
      assert ps[k..][j - k] == ps[j];
      assert !PrunedExactly(ps, mark);
    }
  }

  lemma PruneExact(ps: seq<Buffered>, mark: nat)
    requires EndsAscend(ps)
    ensures PrunedExactly(ps, mark)
  {
    var k := PruneIsSuffix(ps, mark);
    forall b | b in ps
      ensures b in ps[k..] <==> b.End() > mark
    {
      var i :| 0 <= i < |ps| && ps[i] == b;
      if i >= k {
        assert ps[k..][i - k] == b;
        assert ps[k].End() > mark;
      }
      if b in ps[k..] {
        var j :| 0 <= j < |ps[k..]| && ps[k..][j] == b;
        assert ps[k + j] == b && ps[k].End() > mark;
      }
    }
  }

  lemma DisjointEndsAscend(ps: seq<Buffered>)
    requires Disjoint(ps)
    ensures EndsAscend(ps)
  {
  }

  function Unexpired(ps: seq<Buffered>, mark: nat): nat {
    if ps == [] then 0 else Unexpired(ps[..|ps| - 1], mark) + (if ps[|ps| - 1].End() > mark then 1 else 0)
  }

  lemma {:induction false} UnexpiredIsPruned(ps: seq<Buffered>, mark: nat)
    requires EndsAscend(ps)
    ensures Unexpired(ps, mark) == |Prune(ps, mark)|
  {
    var k := PruneIsSuffix(ps, mark);
    assert forall i :: k < i < |ps| ==> ps[k].End() <= ps[i].End();
    UnexpiredFrom(ps, mark, k);
  }

  lemma {:induction false} UnexpiredFrom(ps: seq<Buffered>, mark: nat, k: nat)
    requires k <= |ps| && forall i :: 0 <= i < |ps| ==> (ps[i].End() > mark <==> k <= i)
    ensures Unexpired(ps, mark) == |ps| - k
  {
    if ps != [] {
      UnexpiredFrom(ps[..|ps| - 1], mark, if k == |ps| then |ps| - 1 else k);
    }
  }

  /** A packet of 48 kHz mono. */
  function Mono(start: nat, payload: seq<u8>): Wire.Packet
    requires start < U64_LIMIT && |payload| / 2 < U16_LIMIT
  {
    Wire.Packet(1, 0, 1, 1, 0, 48000, 1, Wire.PCM_S16_LITTLE_ENDIAN, start, 0, |payload| / 2, payload)
  }

  lemma TwoPushes(p: Wire.Packet, q: Wire.Packet)
    requires Acceptable(p) && Acceptable(q) && FormatOf(p) == FormatOf(q) && p.startFrame < q.startFrame
    ensures PushStep(EMPTY, p).1 == Inserted && PushStep(PushStep(EMPTY, p).0, q).1 == Inserted
    ensures PushStep(PushStep(EMPTY, p).0, q).0
            == State([ToBuffered(p), ToBuffered(q)], Some(FormatOf(p)), Max(ToBuffered(p).End(), ToBuffered(q).End()),
                     0, 0, 0, 0)
  {
    hide Acceptable, FormatOf;
    var b, c := ToBuffered(p), ToBuffered(q);
    assert b.End() > 0 && c.End() > 0 by { BufferedIsShaped(p); BufferedIsShaped(q); }
    assert Prune([], 0) == [] && Prune([b], 0) == [b];
    assert Insert([], b) == [b] && [b][1..] == [];
    assert Insert([b], c) == [b, c];
  }

  /** An expired packet can hide behind an earlier one that outlasts it: two overlapping packets arrive,
      five frames are read, and the next push leaves the packet of frame 1 in the map. */
  lemma PruneLeavesHiddenExpired()
    ensures var long, short, next := Mono(0, seq(20, _ => 1)), Mono(1, [2, 0]), Mono(10, [3, 0]);
            var s := PushStep(PushStep(EMPTY, long).0, short).0;
            var read := s.(mark := MarkAfter(s.mark, 0, 5, false));
            && PushStep(read, next).1 == Inserted
            && ToBuffered(short).End() <= PushStep(read, next).0.mark
            && ToBuffered(short) in PushStep(read, next).0.packets
  {
    var long, short, next := Mono(0, seq(20, _ => 1)), Mono(1, [2, 0]), Mono(10, [3, 0]);
    TwoPushes(long, short);
    hide ToBuffered;
    var held := [ToBuffered(long), ToBuffered(short)];
    assert ToBuffered(long).End() == 10 && ToBuffered(short).End() == 2 && ToBuffered(next).End() == 11 by {
      Ends(long);
      Ends(short);
      Ends(next);
    }
    assert Prune(held, 5) == held;
    assert !HasStart(held, 10) && Ascending(held) by {
      Ends(long);
      Ends(short);
    }
    InsertElements(held, ToBuffered(next));
    assert ToBuffered(short) in held;
  }

  lemma Ends(p: Wire.Packet)
    ensures ToBuffered(p).start == p.startFrame && ToBuffered(p).End() == p.startFrame as int + p.frameCount
  {
  }

  // ---- Facts about reading -----------------------------------------------------

  /** A packet covers an interleaved sample exactly when it covers its frame. */
  lemma FrameOfSample(b: Buffered, channels: nat, frame: nat, channel: nat)
    requires 1 <= channels <= 2 && channel < channels && Shaped(b, channels)
    ensures var a := frame * channels + channel;
            b.start * channels <= a < b.start * channels + |b.samples| <==> b.Covers(frame)
    ensures b.Covers(frame) ==>
              frame * channels + channel - b.start * channels == (frame - b.start) * channels + channel
  {
    if channels == 1 {
    } else {
      assert channels == 2;
    }
  }

  /** `readFrames` is the pointwise function "frame -> sample or silence", overlaps
      included: a frame comes from the covering packet with the greatest start frame. */
  lemma {:induction false} GreatestCoverWins(ps: seq<Buffered>, channels: nat, b: Buffered, frame: nat, channel: nat)
    requires Ascending(ps) && 1 <= channels <= 2 && AllShaped(ps, channels) && channel < channels
    requires b in ps && b.Covers(frame)
    requires forall o :: o in ps && o.Covers(frame) ==> o.start <= b.start
    ensures var k := (frame - b.start) * channels + channel;
            0 <= k < |b.samples| && SampleAt(ps, channels, frame * channels + channel) == b.samples[k]
  {
    var last := ps[|ps| - 1];
    FrameOfSample(last, channels, frame, channel);
    if b != last {
      var i :| 0 <= i < |ps| && ps[i] == b;
      assert !last.Covers(frame);
      assert ps[..|ps| - 1][i] == b;
      GreatestCoverWins(ps[..|ps| - 1], channels, b, frame, channel);
    }
  }

  lemma {:induction false} UncoveredIsSilent(ps: seq<Buffered>, channels: nat, frame: nat, channel: nat)
    requires 1 <= channels <= 2 && AllShaped(ps, channels) && channel < channels
    requires forall b :: b in ps ==> !b.Covers(frame)
    ensures SampleAt(ps, channels, frame * channels + channel) == 0
  {
    if ps != [] {
      FrameOfSample(ps[|ps| - 1], channels, frame, channel);
      UncoveredIsSilent(ps[..|ps| - 1], channels, frame, channel);
    }
  }

  /** Packets that start at or after the window cannot contribute: `break` loses nothing. */
  lemma {:induction false} LaterPacketsDoNotMatter(ps: seq<Buffered>, channels: nat, a: nat, k: nat)
    requires k <= |ps|
    requires forall i :: k <= i < |ps| ==> a < ps[i].start * channels
    ensures SampleAt(ps, channels, a) == SampleAt(ps[..k], channels, a)
  {
    if k == |ps| {
      assert ps[..k] == ps;
    } else {
      LaterPacketsDoNotMatter(ps[..|ps| - 1], channels, a, k);
      assert ps[..|ps| - 1][..k] == ps[..k];
    }
  }

  lemma {:induction false} LaterPacketsAddNothing(ps: seq<Buffered>, start: nat, end: nat, k: nat)
    requires k <= |ps|
    requires forall i :: k <= i < |ps| ==> end <= ps[i].start
    ensures Copied(ps, start, end) == Copied(ps[..k], start, end)
  {
    if k == |ps| {
      assert ps[..k] == ps;
    } else {
      LaterPacketsAddNothing(ps[..|ps| - 1], start, end, k);
      assert ps[..|ps| - 1][..k] == ps[..k];
    }
  }

  predicate Received(ps: seq<Buffered>, frame: nat) {
    exists i :: 0 <= i < |ps| && ps[i].Covers(frame)
  }

  /** How many frames of the window some packet covers, counted frame by frame. */
  function ReceivedCount(ps: seq<Buffered>, start: nat, end: nat): nat {
    if end <= start then 0
    else ReceivedCount(ps, start, end - 1) + if Received(ps, end - 1) then 1 else 0
  }

  /** How many packets cover a frame. */
  function Covering(ps: seq<Buffered>, frame: nat): nat {
    if ps == [] then 0 else Covering(ps[..|ps| - 1], frame) + if ps[|ps| - 1].Covers(frame) then 1 else 0
  }

  function CoveringSum(ps: seq<Buffered>, start: nat, end: nat): nat {
    if end <= start then 0 else CoveringSum(ps, start, end - 1) + Covering(ps, end - 1)
  }

  ghost predicate NoFrameTwice(ps: seq<Buffered>, start: nat, end: nat) {
    forall f :: start <= f < end ==> Covering(ps, f) <= 1
  }

  lemma {:induction false} ReceivedIffCovering(ps: seq<Buffered>, frame: nat)
    ensures Received(ps, frame) <==> Covering(ps, frame) > 0
  {
    if ps != [] {
      var rest, last := ps[..|ps| - 1], ps[|ps| - 1];
      ReceivedIffCovering(rest, frame);
      if Received(rest, frame) {
        var i :| 0 <= i < |rest| && rest[i].Covers(frame);
        assert ps[i].Covers(frame);
      }
      if Received(ps, frame) && !last.Covers(frame) {
        var i :| 0 <= i < |ps| && ps[i].Covers(frame);
        assert rest[i].Covers(frame);
      }
      if last.Covers(frame) {
        assert ps[|ps| - 1].Covers(frame);
      }
    }
  }

  /** The overlap of one packet with the window, counted frame by frame. */
  lemma {:induction false} SumWithLast(ps: seq<Buffered>, start: nat, end: nat)
    requires ps != []
    ensures CoveringSum(ps, start, end) == CoveringSum(ps[..|ps| - 1], start, end) + Overlap(ps[|ps| - 1], start, end)
  {
    if start < end {
      SumWithLast(ps, start, end - 1);
    }
  }

  lemma {:induction false} EmptySum(start: nat, end: nat)
    ensures CoveringSum([], start, end) == 0
  {
    if start < end {
      EmptySum(start, end - 1);
    }
  }

  /** The returned count adds up, frame by frame, how many packets cover it. */
  lemma {:induction false} CopiedIsSum(ps: seq<Buffered>, start: nat, end: nat)
    ensures Copied(ps, start, end) == CoveringSum(ps, start, end)
  {
    if ps == [] {
      EmptySum(start, end);
    } else {
      CopiedIsSum(ps[..|ps| - 1], start, end);
      SumWithLast(ps, start, end);
    }
  }

  lemma {:induction false} SumAgainstCount(ps: seq<Buffered>, start: nat, end: nat)
    ensures CoveringSum(ps, start, end) >= ReceivedCount(ps, start, end)
    ensures CoveringSum(ps, start, end) == ReceivedCount(ps, start, end) <==> NoFrameTwice(ps, start, end)
  {
    if start < end {
      SumAgainstCount(ps, start, end - 1);
      ReceivedIffCovering(ps, end - 1);
      assert NoFrameTwice(ps, start, end) <==> NoFrameTwice(ps, start, end - 1) && Covering(ps, end - 1) <= 1;
    }
  }

  /** The returned count is the number of frames actually received exactly when no frame of the
      window is covered twice; otherwise it is greater. */
  lemma CopiedCountsFramesIff(ps: seq<Buffered>, start: nat, end: nat)
    ensures Copied(ps, start, end) == ReceivedCount(ps, start, end) <==> NoFrameTwice(ps, start, end)
    ensures Copied(ps, start, end) >= ReceivedCount(ps, start, end)
  {
    CopiedIsSum(ps, start, end);
    SumAgainstCount(ps, start, end);
  }

  lemma {:induction false} DisjointCoversOnce(ps: seq<Buffered>, frame: nat)
    requires Disjoint(ps)
    ensures Covering(ps, frame) <= 1
  {
    if ps != [] {
      var rest, last := ps[..|ps| - 1], ps[|ps| - 1];
      DisjointCoversOnce(rest, frame);
      ReceivedIffCovering(rest, frame);
      if Received(rest, frame) {
        var i :| 0 <= i < |rest| && rest[i].Covers(frame);
        assert ps[i].End() <= last.start;
      }
    }
  }

  lemma DisjointHasNoFrameTwice(ps: seq<Buffered>, start: nat, end: nat)
    requires Disjoint(ps)
    ensures NoFrameTwice(ps, start, end)
  {
    forall f | start <= f < end
      ensures Covering(ps, f) <= 1
    {
      DisjointCoversOnce(ps, f);
    }
  }

  /** Overlapping packets are counted once each: the count then exceeds the window. */
  lemma OverlapCountsTwice()
    ensures var p, q := Mono(0, [5, 0, 6, 0]), Mono(1, [7, 0, 8, 0]);
            var s := PushStep(PushStep(EMPTY, p).0, q).0;
            PushStep(PushStep(EMPTY, p).0, q).1 == Inserted && Copied(s.packets, 0, 3) == 4
  {
    var p, q := Mono(0, [5, 0, 6, 0]), Mono(1, [7, 0, 8, 0]);
    TwoPushes(p, q);
    Ends(p);
    Ends(q);
    hide ToBuffered;
    var ps := [ToBuffered(p), ToBuffered(q)];
    assert ps[..1] == [ps[0]] && ps[..1][..0] == [];
    assert Copied(ps[..1], 0, 3) == Copied([], 0, 3) + 2;
    assert Copied(ps, 0, 3) == Copied(ps[..1], 0, 3) + 2;
  }

  // ---- The class -----------------------------------------------------------------

  method CopyN(source: seq<i16>, from: nat, count: nat, output: array<i16>, to: nat)
    requires from + count <= |source| && to + count <= output.Length
    modifies output
    ensures forall j :: 0 <= j < output.Length ==>
              output[j] == if to <= j < to + count then source[from + (j - to)] else old(output[j])
  {
    for k := 0 to count
      invariant forall j :: 0 <= j < output.Length ==>
                  output[j] == if to <= j < to + k then source[from + (j - to)] else old(output[j])
    {
      output[to + k] := source[from + k];
    }
  }

  method Silence(output: array<i16>, size: nat)
    requires size <= output.Length
    modifies output
    ensures forall i :: 0 <= i < output.Length ==> output[i] == if i < size then 0 else old(output[i])
  {
    for j := 0 to size
      invariant forall i :: 0 <= i < output.Length ==> output[i] == if i < j then 0 else old(output[i])
    {
      output[j] := 0;
    }
  }

  /** A frame-aligned span holds whole frames, and a window end either fits or wraps to at
      most its start. */
  lemma WindowArithmetic(start: nat, size: nat, channels: nat)
    requires 1 <= channels <= 2 && size % channels == 0 && start < U64_LIMIT && size < U64_LIMIT
    ensures size / channels * channels == size
    ensures var end := (start + size / channels) % U64_LIMIT;
            if start + size / channels < U64_LIMIT then end == start + size / channels
            else end <= start && end != start + size / channels
  {
    Times(size / channels, channels);
    if start + size / channels >= U64_LIMIT {
      assert (start + size / channels) % U64_LIMIT == start + size / channels - U64_LIMIT;
    }
  }

  /** Where a packet lands in the output window, in samples. */
  lemma CopyWindow(b: Buffered, channels: nat, start: nat, frames: nat)
    requires 1 <= channels <= 2 && Shaped(b, channels)
    requires Max(start, b.start) < Min(start + frames, b.End())
    ensures var lo, hi := Max(start, b.start), Min(start + frames, b.End());
            var to, from, count := (lo - start) * channels, (lo - b.start) * channels, (hi - lo) * channels;
            && 0 <= to && 0 <= from && 0 <= count && from + count <= |b.samples| && to + count <= frames * channels
            && from - to == start * channels - b.start * channels
            && to == Max(0, b.start * channels - start * channels)
            && to + count == Min(frames * channels, b.start * channels + |b.samples| - start * channels)
  {
    var lo, hi := Max(start, b.start), Min(start + frames, b.End());
    Times(lo - start, channels);
    Times(lo - b.start, channels);
    Times(hi - lo, channels);
    Times(start, channels);
    Times(b.start, channels);
    Times(b.frames, channels);
    Times(frames, channels);
  }

  /** Mono or stereo: the only two channel counts that any part of the pipeline accepts. */
  lemma Times(x: int, channels: nat)
    requires 1 <= channels <= 2
    ensures x * channels == if channels == 1 then x else x + x
  {
  }

  lemma OutsideWindow(b: Buffered, channels: nat, start: nat, frames: nat)
    requires 1 <= channels <= 2 && Shaped(b, channels)
    requires b.End() <= start || start + frames <= b.start || frames == 0
    ensures frames * channels == 0 || b.start * channels + |b.samples| <= start * channels
            || start * channels + frames * channels <= b.start * channels
  {
    Times(start, channels);
    Times(b.start, channels);
    Times(b.frames, channels);
    Times(frames, channels);
  }

  /** The position `try_emplace` finds. */
  method LowerBound(ps: seq<Buffered>, b: Buffered) returns (i: nat)
    requires Ascending(ps)
    ensures i <= |ps|
    ensures HasStart(ps, b.start) <==> i < |ps| && ps[i].start == b.start
    ensures !HasStart(ps, b.start) ==> Insert(ps, b) == ps[..i] + [b] + ps[i..]
  {
    i := 0;
    while i < |ps| && ps[i].start < b.start
      invariant i <= |ps|
      invariant forall j :: 0 <= j < i ==> ps[j].start < b.start
    {
      i := i + 1;
    }
    if !(i < |ps| && ps[i].start == b.start) {
      InsertAt(ps, b, i);
    }
  }

  lemma {:induction false} InsertAt(ps: seq<Buffered>, b: Buffered, i: nat)
    requires i <= |ps|
    requires forall j :: 0 <= j < i ==> ps[j].start < b.start
    requires i < |ps| ==> b.start < ps[i].start
    ensures Insert(ps, b) == ps[..i] + [b] + ps[i..]
  {
    if i > 0 {
      InsertAt(ps[1..], b, i - 1);
      assert ps[..i] == [ps[0]] + ps[1..][..i - 1] && ps[i..] == ps[1..][i - 1..];
    }
  }

  method DropExpired(ps: seq<Buffered>, mark: nat) returns (r: seq<Buffered>)
    ensures r == Prune(ps, mark)
  {
    r := ps;
    while r != [] && r[0].End() <= mark
      invariant Prune(r, mark) == Prune(ps, mark)
      decreases |r|
    {
      r := r[1..];
    }
  }

  /** The copying loop of `readFrames` over an output window already filled with silence.
      `end` is the 64-bit sum; when it wrapped it lies at or before `start`. */
  method CopyPackets(ps: seq<Buffered>, channels: nat, start: nat, frames: nat, end: nat, output: array<i16>)
    returns (copied: nat)
    requires Ascending(ps) && 1 <= channels <= 2 && AllShaped(ps, channels)
    requires end == start + frames || end <= start
    requires frames * channels <= output.Length
    requires forall j :: 0 <= j < frames * channels ==> output[j] == 0
    modifies output
    ensures forall j :: frames * channels <= j < output.Length ==> output[j] == old(output[j])
    ensures end == start + frames ==>
              && copied == Copied(ps, start, end)
              && output[..frames * channels] == Render(ps, channels, start, frames * channels)
    ensures end != start + frames ==> copied == 0 && forall j :: 0 <= j < frames * channels ==> output[j] == 0
  {
    var size := frames * channels;
    ghost var whole := end == start + frames;
    copied := 0;
    var i := 0;
    assert ps[..0] == [];
    while i < |ps|
      invariant i <= |ps|
      invariant forall j :: size <= j < output.Length ==> output[j] == old(output[j])
      invariant whole ==> output[..size] == Render(ps[..i], channels, start, size)
      invariant whole ==> copied == Copied(ps[..i], start, end)
      invariant !whole ==> copied == 0 && forall j :: 0 <= j < size ==> output[j] == 0
    {
      var b := ps[i];
      assert ps[..i + 1][..i] == ps[..i] && ps[..i + 1][i] == b;
      if b.End() > start {
        if b.start >= end {
          break;
        }
        var copyStart, copyEnd := Max(start, b.start), Min(end, b.End());
        if copyStart < copyEnd {
          CopyOne(ps, b, channels, start, frames, i, output);
          copied := copied + (copyEnd - copyStart);
        } else if whole {
          RenderSkip(ps, channels, start, frames, i);
        }
      } else if whole {
        RenderSkip(ps, channels, start, frames, i);
      }
      i := i + 1;
    }
    if whole {
      BreakLosesNothing(ps, channels, start, frames, i);
    }
  }

  /** The 32-bit counter cannot wrap: at most 1024 packets of at most 65535 frames. */
  lemma {:induction false} CopiedBound(ps: seq<Buffered>, channels: nat, start: nat, end: nat)
    requires AllShaped(ps, channels)
    ensures Copied(ps, start, end) <= |ps| * 0xFFFF
  {
    if ps != [] {
      CopiedBound(ps[..|ps| - 1], channels, start, end);
      assert ps[|ps| - 1] in ps;
    }
  }

  /** One more packet overwrites exactly its own part of the window. */
  method CopyOne(ghost ps: seq<Buffered>, b: Buffered, channels: nat, start: nat, frames: nat, ghost i: nat,
                 output: array<i16>)
    requires i < |ps| && ps[i] == b && 1 <= channels <= 2 && AllShaped(ps, channels)
    requires Max(start, b.start) < Min(start + frames, b.End()) && frames * channels <= output.Length
    requires output[..frames * channels] == Render(ps[..i], channels, start, frames * channels)
    modifies output
    ensures forall j :: frames * channels <= j < output.Length ==> output[j] == old(output[j])
    ensures output[..frames * channels] == Render(ps[..i + 1], channels, start, frames * channels)
  {
    CopyWindow(b, channels, start, frames);
    var copyStart, copyEnd := Max(start, b.start), Min(start + frames, b.End());
    CopyN(b.samples, (copyStart - b.start) * channels, (copyEnd - copyStart) * channels, output,
          (copyStart - start) * channels);
    forall j | 0 <= j < frames * channels
      ensures output[j] == SampleAt(ps[..i + 1], channels, start * channels + j)
    {
      assert ps[..i + 1][..i] == ps[..i] && ps[..i + 1][i] == b;
      assert old(output[j]) == old(output[..frames * channels])[j];
    }
  }

  lemma RenderSkip(ps: seq<Buffered>, channels: nat, start: nat, frames: nat, i: nat)
    requires i < |ps| && 1 <= channels <= 2 && AllShaped(ps, channels)
    requires Min(start + frames, ps[i].End()) <= Max(start, ps[i].start)
    ensures Render(ps[..i + 1], channels, start, frames * channels)
            == Render(ps[..i], channels, start, frames * channels)
  {
    OutsideWindow(ps[i], channels, start, frames);
    assert ps[..i + 1][..i] == ps[..i];
  }

  /** Once a packet starts at or after the end of the window, the rest cannot contribute. */
  lemma BreakLosesNothing(ps: seq<Buffered>, channels: nat, start: nat, frames: nat, i: nat)
    requires Ascending(ps) && 1 <= channels <= 2 && AllShaped(ps, channels)
    requires i <= |ps| && (i < |ps| ==> start + frames <= ps[i].start)
    ensures Copied(ps, start, start + frames) == Copied(ps[..i], start, start + frames)
    ensures Render(ps, channels, start, frames * channels) == Render(ps[..i], channels, start, frames * channels)
  {
    assert forall k :: i < k < |ps| ==> ps[i].start < ps[k].start;
    LaterPacketsAddNothing(ps, start, start + frames, i);
    forall k | i <= k < |ps|
      ensures start * channels + frames * channels <= ps[k].start * channels
    {
      OutsideWindow(ps[k], channels, start, frames);
      Times(frames, channels);
      Times(start, channels);
      Times(ps[k].start, channels);
    }
    forall j | 0 <= j < frames * channels
      ensures Render(ps, channels, start, frames * channels)[j]
              == Render(ps[..i], channels, start, frames * channels)[j]
    {
      LaterPacketsDoNotMatter(ps, channels, start * channels + j, i);
    }
  }

  class JitterBuffer {
    var packets: seq<Buffered>
    var format: Option<Format>
    var latestEnd: nat
    var mark: nat
    var late: nat
    var duplicates: nat
    var overflow: nat

    ghost function Value(): State
      reads this
    {
      State(packets, format, latestEnd, mark, late, duplicates, overflow)
    }

    ghost predicate Valid()
      reads this
    {
      WellFormed(Value())
    }

    constructor ()
      ensures Valid() && Value() == EMPTY
    {
      packets, format, latestEnd, mark := [], None, 0, 0;
      late, duplicates, overflow := 0, 0, 0;
    }

    method Push(p: Wire.Packet) returns (outcome: Outcome)
      requires Valid()
      modifies this
      ensures Valid()
      ensures (Value(), outcome) == PushStep(old(Value()), p)
    {
      ghost var before := Value();
      PushKeepsWellFormed(before, p);
      if !Acceptable(p) {
        return Invalid;
      }
      var samples := Pcm.DecodePcm(p.payload);
      var b := Buffered(p.startFrame, p.timestamp, p.frameCount, samples);
      packets := DropExpired(packets, mark);
      ghost var k := PruneIsSuffix(before.packets, mark);
      assert Value() == before.(packets := Prune(before.packets, before.mark));
      assert b == ToBuffered(p);
      if b.End() <= mark {
        late := late + 1;
        return Late;
      }
      if format.Some? && format.value != FormatOf(p) {
        return Invalid;
      }
      outcome := TryEmplace(b, FormatOf(p));
    }

    method TryEmplace(b: Buffered, incoming: Format) returns (outcome: Outcome)
      requires Ascending(packets)
      modifies this
      ensures var s := old(Value());
              if HasStart(s.packets, b.start)
              then outcome == Duplicate && Value() == s.(duplicates := s.duplicates + 1, format := Some(incoming))
              else outcome == Inserted && Value() == Admit(s, b, incoming)
    {
      hide Insert;
      format := Some(incoming);
      var i := LowerBound(packets, b);
      if i < |packets| && packets[i].start == b.start {
        duplicates := duplicates + 1;
        return Duplicate;
      }
      packets := packets[..i] + [b] + packets[i..];
      latestEnd := Max(latestEnd, b.End());
      if |packets| > MAXIMUM_PACKETS {
        packets := packets[1..];
        overflow := overflow + 1;
      }
      return Inserted;
    }

    /** The earliest packet, in frame order, that is not expired and is due at or after `timestamp`. */
    method FirstPacketAtOrAfter(timestamp: nat) returns (r: Option<Buffered>)
      requires Valid()
      ensures r.None? <==> forall b :: b in packets && b.End() > mark ==> b.timestamp < timestamp
      ensures r.Some? ==> r.value in packets && r.value.End() > mark && r.value.timestamp >= timestamp
      ensures r.Some? ==>
                forall b :: b in packets && b.End() > mark && b.timestamp >= timestamp ==> r.value.start <= b.start
    {
      for i := 0 to |packets|
        invariant forall j :: 0 <= j < i ==> packets[j].End() <= mark || packets[j].timestamp < timestamp
      {
        if packets[i].End() > mark && packets[i].timestamp >= timestamp {
          return Some(packets[i]);
        }
      }
      return None;
    }

    /** The packets still worth holding: when end frames never decrease, exactly those that the
        next push keeps. */
    method PacketCount() returns (count: nat)
      requires Valid()
      ensures count == Unexpired(packets, mark)
      ensures EndsAscend(packets) ==> count == |Prune(packets, mark)|
    {
      count := 0;
      assert packets[..0] == [];
      for i := 0 to |packets|
        invariant count == Unexpired(packets[..i], mark)
      {
        assert packets[..i + 1][..i] == packets[..i];
        if packets[i].End() > mark {
          count := count + 1;
        }
      }
      assert packets[..|packets|] == packets;
      if EndsAscend(packets) {
        UnexpiredIsPruned(packets, mark);
      }
    }

    /** Frames known to lie ahead of a playback position. */
    method DepthFrames(playbackFrame: nat) returns (depth: nat)
      requires Valid()
      ensures depth == Max(0, latestEnd - playbackFrame)
      ensures forall b :: b in packets ==> b.End() <= playbackFrame + depth
    {
      depth := if latestEnd > playbackFrame then latestEnd - playbackFrame else 0;
    }

    /** `size` is the length of the output span, the prefix of `output`; `lockAcquired`
        is the outcome of the try-lock. */
    method ReadFrames(start: nat, output: array<i16>, size: nat, retainLookahead: bool, lockAcquired: bool)
      returns (r: Result<nat>)
      requires Valid() && size <= output.Length && start < U64_LIMIT && size < U64_LIMIT
      modifies this`mark, output
      ensures Valid()
      ensures forall j :: size <= j < output.Length ==> output[j] == old(output[j])
      ensures Served(Value(), size, lockAcquired) ==>
                var channels := format.value.channels;
                var frames := size / channels;
                && mark == MarkAfter(old(mark), start, frames, retainLookahead)
                && (start + frames < U64_LIMIT ==>
                      && output[..size] == Render(packets, channels, start, size)
                      && r == Ok(Copied(packets, start, start + frames)))
      ensures !Served(Value(), size, lockAcquired) ==> mark == old(mark)
      ensures r.Ok? ==> r.value < U32_LIMIT
      ensures !Served(Value(), size, lockAcquired) || start + size / format.value.channels >= U64_LIMIT ==>
                && (forall j :: 0 <= j < size ==> output[j] == 0)
                && r == if lockAcquired && format.Some? && size % format.value.channels != 0 then Err else Ok(0)
    {
      hide Copied, SampleAt, Ascending, AllShaped, EndsWithin;
      Silence(output, size);
      if !lockAcquired {
        return Ok(0);
      }
      if format.None? {
        return Ok(0);
      }
      var channels := format.value.channels;
      if size % channels != 0 {
        return Err;
      }
      var frames := size / channels;
      WindowArithmetic(start, size, channels);
      var end := (start + frames) % U64_LIMIT;
      mark := Max(mark, (end - (if retainLookahead then Min(2, frames) else 0)) % U64_LIMIT);
      var copied := CopyPackets(packets, channels, start, frames, end, output);
      CopiedBound(packets, channels, start, start + frames);
      r := Ok(copied);
    }
  }
}
