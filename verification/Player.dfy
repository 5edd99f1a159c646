/** desktop/src/DesktopAudioClient.cpp: the rate-adjusting audio callback that reads the
    jitter buffer through a fractional cursor. `double` is an exact real here. */
module Players {
  import opened Numbers
  import opened JitterBuffers

  const CHUNK_LIMIT := 256
  const SOURCE_CAPACITY := 260
  const MAXIMUM_STEP := 0.00002
  const MAXIMUM_CORRECTION_PPM := 500.0

  function Clamp(x: real, low: real, high: real): (r: real)
    requires low <= high
    ensures low <= r <= high
    ensures low <= x <= high ==> r == x
    ensures x < low ==> r == low
    ensures x > high ==> r == high
  {
    if x < low then low else if x > high then high else x
  }

  predicate RatioInRange(ratio: real) {
    0.9995 <= ratio <= 1.0005
  }

  /** `GradualDriftCorrector::correctionRatio` for finite inputs: faster than the source exactly when the sum
      of the drift and of the surplus in the buffer is positive, and never beyond 500 ppm. */
  function CorrectionRatio(driftPpm: real, bufferErrorMs: real): (r: real)
    ensures RatioInRange(r)
    ensures r > 1.0 <==> driftPpm > -20.0 * bufferErrorMs
    ensures r < 1.0 <==> driftPpm < -20.0 * bufferErrorMs
    ensures r == 1.0005 <==> driftPpm >= 500.0 - 20.0 * bufferErrorMs
    ensures r == 0.9995 <==> driftPpm <= -500.0 - 20.0 * bufferErrorMs
  {
    1.0 + Clamp(driftPpm + 20.0 * bufferErrorMs, -MAXIMUM_CORRECTION_PPM, MAXIMUM_CORRECTION_PPM) / 1000000.0
  }

  /** Within its limits the correction follows the drift part by part, and removes a buffer error in fifty
      seconds of playing: what it plays too much in them is the surplus. */
  lemma CorrectionRemovesError(driftPpm: real, bufferErrorMs: real)
    requires -500.0 <= driftPpm <= 500.0 && -25.0 <= bufferErrorMs <= 25.0
    ensures (CorrectionRatio(driftPpm, 0.0) - 1.0) * 1000000.0 == driftPpm
    ensures (CorrectionRatio(0.0, bufferErrorMs) - 1.0) * 50000.0 == bufferErrorMs
    ensures -500.0 <= driftPpm + 20.0 * bufferErrorMs <= 500.0 ==>
              (CorrectionRatio(driftPpm, bufferErrorMs) - 1.0) * 50000.0 == bufferErrorMs + driftPpm * 0.05
  {
  }

  /** One callback moves the ratio towards its target, by 20 ppm or all the way. */
  function Slew(ratio: real, target: real): (r: real)
    ensures RatioInRange(ratio) && RatioInRange(target) ==> RatioInRange(r)
    ensures -MAXIMUM_STEP <= r - ratio <= MAXIMUM_STEP
    ensures ratio <= target ==> ratio <= r <= target
    ensures target <= ratio ==> target <= r <= ratio
    ensures -MAXIMUM_STEP <= target - ratio <= MAXIMUM_STEP ==> r == target
    ensures target - ratio > MAXIMUM_STEP ==> r - ratio == MAXIMUM_STEP
    ensures ratio - target > MAXIMUM_STEP ==> ratio - r == MAXIMUM_STEP
  {
    ratio + Clamp(target - ratio, -MAXIMUM_STEP, MAXIMUM_STEP)
  }

  /** Over any run of targets the ratio never leaves its range. */
  function SlewAll(ratio: real, targets: seq<real>): (r: real)
    requires RatioInRange(ratio) && forall t :: t in targets ==> RatioInRange(t)
    ensures RatioInRange(r)
  {
    if targets == [] then ratio else Slew(SlewAll(ratio, targets[..|targets| - 1]), targets[|targets| - 1])
  }

  /** Callbacks with one target walk to it in whole steps and stay there. */
  lemma {:induction false} SlewReaches(ratio: real, target: real, callbacks: nat)
    requires RatioInRange(ratio) && RatioInRange(target)
    ensures var r := SlewAll(ratio, seq(callbacks, _ => target));
            var reach := callbacks as real * 0.00002;
            && (-reach <= target - ratio <= reach ==> r == target)
            && (target - ratio > reach ==> r == ratio + reach)
            && (ratio - target > reach ==> r == ratio - reach)
  {
    if callbacks > 0 {
      SlewReaches(ratio, target, callbacks - 1);
      var targets := seq(callbacks, _ => target);
      assert targets[..callbacks - 1] == seq(callbacks - 1, _ => target);
      assert callbacks as real * 0.00002 == (callbacks - 1) as real * 0.00002 + 0.00002;
    }
  }

  // ---- Interpolation -------------------------------------------------------

  /** `std::lround`: to the nearest integer, halves away from zero. */
  function Lround(x: real): (n: int)
    ensures x - 0.5 <= n as real <= x + 0.5
    ensures n as real == x + 0.5 ==> x >= 0.0
    ensures n as real == x - 0.5 ==> x <= 0.0
  {
    if x >= 0.0 then (x + 0.5).Floor else -((0.5 - x).Floor)
  }

  lemma Scale(a: real, b: real, c: real)
    requires a <= b && 0.0 <= c
    ensures a * c <= b * c
  {
  }

  lemma LroundBetween(y: real, low: int, high: int)
    requires low as real <= y <= high as real
    ensures low <= Lround(y) <= high
  {
  }

  lemma FractionOf(fraction: real, d: real, p: real)
    requires 0.0 <= fraction <= 1.0 && p == fraction * d
    ensures if d >= 0.0 then 0.0 <= p <= d else d <= p <= 0.0
  {
    if d >= 0.0 {
      Scale(0.0, fraction, d);
      Scale(fraction, 1.0, d);
    } else {
      Scale(0.0, fraction, -d);
      Scale(fraction, 1.0, -d);
      assert fraction * (-d) == -p;
    }
  }

  lemma BlendForm(l: real, r: real, fraction: real, p: real)
    requires p == fraction * (r - l)
    ensures Blend(l, r, fraction) == l + p
  {
    assert (1.0 - fraction) * l == l - fraction * l;
    assert p == fraction * r - fraction * l;
  }

  lemma BlendBetween(l: real, r: real, fraction: real)
    requires 0.0 <= fraction <= 1.0
    ensures var y := Blend(l, r, fraction);
            if l <= r then l <= y <= r else r <= y <= l
  {
    hide Blend;
    var p := fraction * (r - l);
    FractionOf(fraction, r - l, p);
    BlendForm(l, r, fraction, p);
  }

  function Blend(l: real, r: real, fraction: real): real {
    (1.0 - fraction) * l + fraction * r
  }

  /** Never leaves the interval of its neighbours, so the 16-bit cast cannot overflow. */
  lemma BlendInRange(left: i16, right: i16, fraction: real)
    requires 0.0 <= fraction < 1.0
    ensures Min(left, right) <= Lround(Blend(left as real, right as real, fraction)) <= Max(left, right)
  {
    hide Blend, Lround;
    BlendBetween(left as real, right as real, fraction);
    LroundBetween(Blend(left as real, right as real, fraction), Min(left, right), Max(left, right));
  }

  /** The point `fraction` of the way from `left` to `right`, to the nearest integer. */
  ghost predicate Nearest(s: int, left: int, right: int, fraction: real) {
    left as real + fraction * (right - left) as real - 0.5 <= s as real
    <= left as real + fraction * (right - left) as real + 0.5
  }

  function Interpolate(left: i16, right: i16, fraction: real): (s: i16)
    requires 0.0 <= fraction < 1.0
    ensures Min(left, right) <= s <= Max(left, right)
    ensures Nearest(s, left, right, fraction) && (fraction == 0.0 ==> s == left)
  {
    BlendInRange(left, right, fraction);
    BlendForm(left as real, right as real, fraction, fraction * (right - left) as real);
    Lround(Blend(left as real, right as real, fraction))
  }

  /** What should be heard on one channel at `position` source frames after frame `base`. */
  function HeardAt(ps: seq<Buffered>, channels: nat, base: nat, position: real, channel: nat): i16
    requires position >= 0.0
  {
    var index := position.Floor;
    Interpolate(SampleAt(ps, channels, (base + index) * channels + channel),
                SampleAt(ps, channels, (base + index + 1) * channels + channel),
                position - index as real)
  }

  function HeardFrame(ps: seq<Buffered>, channels: nat, base: nat, position: real): (frame: seq<i16>)
    requires position >= 0.0
    ensures |frame| == channels
  {
    seq<i16>(channels, c requires 0 <= c => HeardAt(ps, channels, base, position, c))
  }

  /** `n` output frames at positions `position`, `position + ratio`, ... */
  function Heard(ps: seq<Buffered>, channels: nat, base: nat, position: real, ratio: real, n: nat): (r: seq<i16>)
    requires position >= 0.0 && ratio >= 0.0
  {
    if n == 0 then []
    else
      Heard(ps, channels, base, position, ratio, n - 1)
      + HeardFrame(ps, channels, base, Position(position, ratio, n - 1))
  }

  function Position(position: real, ratio: real, k: nat): (p: real)
    ensures position >= 0.0 && ratio >= 0.0 ==> p >= position
  {
    assert ratio >= 0.0 ==> k as real * ratio >= 0.0;
    position + k as real * ratio
  }

  /** Only the absolute position matters, not how it is split into base and offset. */
  lemma HeardFrameShift(ps: seq<Buffered>, channels: nat, base: nat, position: real, n: nat)
    requires position >= 0.0
    ensures HeardFrame(ps, channels, base + n, position) == HeardFrame(ps, channels, base, position + n as real)
  {
    assert (position + n as real).Floor == position.Floor + n;
  }

  lemma {:induction false} HeardShift(ps: seq<Buffered>, channels: nat, base: nat, position: real, ratio: real, n: nat,
                                      k: nat)
    requires position >= 0.0 && ratio >= 0.0
    ensures Heard(ps, channels, base + n, position, ratio, k)
            == Heard(ps, channels, base, position + n as real, ratio, k)
  {
    if k > 0 {
      HeardShift(ps, channels, base, position, ratio, n, k - 1);
      HeardFrameShift(ps, channels, base, Position(position, ratio, k - 1), n);
      assert Position(position, ratio, k - 1) + n as real == Position(position + n as real, ratio, k - 1);
    }
  }

  /** Rendering in two pieces is rendering once: how callbacks and chunks split the output
      does not show in it. */
  lemma {:induction false} HeardSplits(ps: seq<Buffered>, channels: nat, base: nat, position: real, ratio: real, m: nat,
                                       n: nat)
    requires position >= 0.0 && ratio >= 0.0
    ensures Heard(ps, channels, base, position, ratio, m + n)
            == Heard(ps, channels, base, position, ratio, m)
               + Heard(ps, channels, base, Position(position, ratio, m), ratio, n)
  {
    hide HeardFrame, Position;
    if n > 0 {
      HeardSplits(ps, channels, base, position, ratio, m, n - 1);
      NextPosition(position, ratio, m, n - 1);
    }
  }

  // ---- One chunk -------------------------------------------------------------

  /** `floor(fraction + chunk * ratio) + 2`: the frames one chunk asks for. */
  function SourceFrames(fraction: real, ratio: real, chunk: nat): int {
    Position(fraction, ratio, chunk).Floor + 2
  }

  lemma PositionGrows(fraction: real, ratio: real, k: nat, m: nat)
    requires k <= m && RatioInRange(ratio)
    ensures Position(fraction, ratio, k) <= Position(fraction, ratio, m)
    ensures Position(fraction, ratio, k) >= fraction
  {
    Scale(k as real, m as real, ratio);
    Scale(0.0, k as real, ratio);
  }

  /** A chunk asks for at most 259 frames, and every interpolation index is inside. */
  lemma ChunkRequest(fraction: real, ratio: real, chunk: nat, k: nat)
    requires 0.0 <= fraction < 1.0 && RatioInRange(ratio) && k < chunk <= CHUNK_LIMIT
    ensures 2 <= SourceFrames(fraction, ratio, chunk) <= 259
    ensures 0 <= Position(fraction, ratio, k).Floor
    ensures Position(fraction, ratio, k).Floor + 1 < SourceFrames(fraction, ratio, chunk)
  {
    PositionGrows(fraction, ratio, k, chunk);
    Scale(chunk as real, 256.0, ratio);
    assert Position(fraction, ratio, chunk) < 257.5;
  }

  /** Frames of the request that the stream is known to reach. */
  function KnownFrames(latestEnd: nat, frame: nat, sourceFrames: nat): (known: nat)
    ensures known <= sourceFrames
    ensures known > 0 ==> frame + known <= latestEnd
    ensures known < sourceFrames ==> latestEnd <= frame + known
  {
    if latestEnd > frame then Min(sourceFrames, latestEnd - frame) else 0
  }

  function Shortfall(copied: nat, known: nat): nat {
    if copied < known then known - copied else 0
  }

  /** An underrun counts the known frames that nobody sent, as long as no frame of the request is
      covered twice. `latestEnd` is loaded after the read and may already include later arrivals:
      any value that bounds the packets of the read will do. */
  lemma ShortfallIsMissingFrames(ps: seq<Buffered>, latestEnd: nat, frame: nat, sourceFrames: nat)
    requires NoFrameTwice(ps, frame, frame + sourceFrames) && EndsWithin(ps, latestEnd)
    ensures var known := KnownFrames(latestEnd, frame, sourceFrames);
            Shortfall(Copied(ps, frame, frame + sourceFrames), known)
            == known - ReceivedCount(ps, frame, frame + known)
  {
    hide Copied, ReceivedCount, NoFrameTwice, EndsWithin;
    var known := KnownFrames(latestEnd, frame, sourceFrames);
    assert known <= sourceFrames && (known < sourceFrames ==> latestEnd <= frame + known);
    CopiedCountsFramesIff(ps, frame, frame + sourceFrames);
    NothingBeyondLatestEnd(ps, latestEnd, frame, frame + known, frame + sourceFrames);
    CountAtMost(ps, frame, frame + known);
  }

  lemma {:induction false} NothingBeyondLatestEnd(ps: seq<Buffered>, latestEnd: nat, start: nat, mid: nat, end: nat)
    requires EndsWithin(ps, latestEnd) && start <= mid <= end && (mid < end ==> latestEnd <= mid)
    ensures ReceivedCount(ps, start, end) == ReceivedCount(ps, start, mid)
    decreases end - mid
  {
    if mid < end {
      NothingBeyondLatestEnd(ps, latestEnd, start, mid, end - 1);
      if Received(ps, end - 1) {
        var i :| 0 <= i < |ps| && ps[i].Covers(end - 1);
        assert false;
      }
    }
  }

  lemma {:induction false} CountAtMost(ps: seq<Buffered>, start: nat, end: nat)
    requires start <= end
    ensures ReceivedCount(ps, start, end) <= end - start
  {
    if start < end {
      CountAtMost(ps, start, end - 1);
    }
  }

  // ---- The callback ------------------------------------------------------------

  /** The interpolation of one chunk over the frames that were read into `window`. */
  function BlendedAt(window: seq<i16>, channels: nat, position: real, channel: nat): i16 {
    if && position >= 0.0 && (position.Floor + 1) * channels + channel < |window|
       && position.Floor * channels + channel < |window|
    then
      Interpolate(window[position.Floor * channels + channel], window[(position.Floor + 1) * channels + channel],
                  position - position.Floor as real)
    else 0
  }

  function BlendedFrame(window: seq<i16>, channels: nat, position: real): (frame: seq<i16>)
    ensures |frame| == channels
  {
    seq<i16>(channels, c requires 0 <= c => BlendedAt(window, channels, position, c))
  }

  function Blended(window: seq<i16>, channels: nat, fraction: real, ratio: real, n: nat): seq<i16> {
    if n == 0 then []
    else
      Blended(window, channels, fraction, ratio, n - 1)
      + BlendedFrame(window, channels, Position(fraction, ratio, n - 1))
  }

  /** Interpolating a served window is hearing the buffer itself. */
  lemma {:induction false} BlendedIsHeard(ps: seq<Buffered>, channels: nat, frame: nat, fraction: real, ratio: real,
                                          chunk: nat, n: nat)
    requires 1 <= channels <= 2 && 0.0 <= fraction < 1.0 && RatioInRange(ratio) && n <= chunk <= CHUNK_LIMIT
    ensures var size := Max(0, SourceFrames(fraction, ratio, chunk)) * channels;
            Blended(Render(ps, channels, frame, size), channels, fraction, ratio, n)
            == Heard(ps, channels, frame, fraction, ratio, n)
  {
    if n > 0 {
      BlendedIsHeard(ps, channels, frame, fraction, ratio, chunk, n - 1);
      ChunkRequest(fraction, ratio, chunk, n - 1);
      var sourceFrames: nat := SourceFrames(fraction, ratio, chunk);
      var window := Render(ps, channels, frame, sourceFrames * channels);
      var p := Position(fraction, ratio, n - 1);
      forall c | 0 <= c < channels
        ensures BlendedAt(window, channels, p, c) == HeardAt(ps, channels, frame, p, c)
      {
        InterleavedIndex(channels, frame, p.Floor, c, sourceFrames);
        InterleavedIndex(channels, frame, p.Floor + 1, c, sourceFrames);
        InterleavedIndex(channels, 0, p.Floor, c, sourceFrames);
        InterleavedIndex(channels, 0, p.Floor + 1, c, sourceFrames);
      }
      assert BlendedFrame(window, channels, p) == HeardFrame(ps, channels, frame, p);
    }
  }

  function Zeros(n: nat): (z: seq<i16>)
    ensures |z| == n && forall i :: 0 <= i < n ==> z[i] == 0
  {
    seq(n, _ => 0)
  }

  /** A failed try-lock leaves silence, and interpolated silence is silence. */
  lemma {:induction false} BlendedZeros(channels: nat, size: nat, fraction: real, ratio: real, n: nat)
    ensures Blended(Zeros(size), channels, fraction, ratio, n) == Zeros(n * channels)
  {
    if n > 0 {
      BlendedZeros(channels, size, fraction, ratio, n - 1);
      assert BlendedFrame(Zeros(size), channels, Position(fraction, ratio, n - 1)) == Zeros(channels);
      assert n * channels == (n - 1) * channels + channels;
    }
  }

  /** Interleaved addressing of frame `start + k`. */
  lemma InterleavedIndex(channels: nat, start: nat, k: nat, channel: nat, count: nat)
    requires 1 <= channels <= 2 && channel < channels && k < count
    ensures var j := (start + k) * channels + channel;
            && start * channels <= j < (start + count) * channels
            && j == start * channels + (k * channels + channel)
            && (start + k + 1) * channels == (start + k) * channels + channels
  {
    Times(start, channels);
    Times(k, channels);
    Times(start + k, channels);
    Times(start + k + 1, channels);
    Times(start + count, channels);
  }

  /** One chunk as heard: silence if the try-lock failed. */
  function ChunkOutput(ps: seq<Buffered>, channels: nat, lock: bool, base: nat, position: real, ratio: real,
                       n: nat): seq<i16>
    requires position >= 0.0 && ratio >= 0.0
  {
    if lock then Heard(ps, channels, base, position, ratio, n) else Zeros(n * channels)
  }

  /** A whole callback of `n` frames, in chunks of 256, one try-lock outcome each. */
  function CallbackOutput(ps: seq<Buffered>, channels: nat, locks: seq<bool>, base: nat, position: real, ratio: real,
                          n: nat)
    : seq<i16>
    requires position >= 0.0 && ratio >= 0.0 && n <= |locks| * CHUNK_LIMIT
  {
    if n == 0 then []
    else
      var m := Min(CHUNK_LIMIT, n);
      ChunkOutput(ps, channels, locks[0], base, position, ratio, m)
      + CallbackOutput(ps, channels, locks[1..], base, Position(position, ratio, m), ratio, n - m)
  }

  /** Without lock failures the chunking is invisible: the output depends only on the start
      position and the ratio. */
  lemma {:induction false} ChunkingIsInvisible(ps: seq<Buffered>, channels: nat, locks: seq<bool>, base: nat,
                                               position: real, ratio: real, n: nat)
    requires position >= 0.0 && ratio >= 0.0 && n <= |locks| * CHUNK_LIMIT
    requires forall i :: 0 <= i < |locks| ==> locks[i]
    ensures CallbackOutput(ps, channels, locks, base, position, ratio, n)
            == Heard(ps, channels, base, position, ratio, n)
    decreases n
  {
    if n > 0 {
      var m := Min(CHUNK_LIMIT, n);
      ChunkingIsInvisible(ps, channels, locks[1..], base, Position(position, ratio, m), ratio, n - m);
      HeardSplits(ps, channels, base, position, ratio, m, n - m);
    }
  }

  lemma ChunkOutputShift(ps: seq<Buffered>, channels: nat, lock: bool, base: nat, position: real, ratio: real, d: nat,
                         n: nat)
    requires position >= 0.0 && ratio >= 0.0
    ensures ChunkOutput(ps, channels, lock, base + d, position, ratio, n)
            == ChunkOutput(ps, channels, lock, base, position + d as real, ratio, n)
  {
    HeardShift(ps, channels, base, position, ratio, d, n);
  }

  /** A callback depends only on the absolute cursor position, failed locks included. */
  lemma {:induction false} CallbackOutputShift(ps: seq<Buffered>, channels: nat, locks: seq<bool>, base: nat,
                                               position: real, ratio: real, d: nat, n: nat)
    requires position >= 0.0 && ratio >= 0.0 && n <= |locks| * CHUNK_LIMIT
    ensures CallbackOutput(ps, channels, locks, base + d, position, ratio, n)
            == CallbackOutput(ps, channels, locks, base, position + d as real, ratio, n)
    decreases n
  {
    hide ChunkOutput;
    if n > 0 {
      var m := Min(CHUNK_LIMIT, n);
      ChunkOutputShift(ps, channels, locks[0], base, position, ratio, d, m);
      CallbackOutputShift(ps, channels, locks[1..], base, Position(position, ratio, m), ratio, d, n - m);
      assert Position(position, ratio, m) + d as real == Position(position + d as real, ratio, m);
    }
  }

  /** Two callbacks at one ratio sound like one longer callback. The second starts from the cursor
      that the first one left: a new frame and a new fraction at the same absolute position. */
  lemma CallbacksCompose(ps: seq<Buffered>, channels: nat, locks: seq<bool>, more: seq<bool>, all: seq<bool>,
                         frame: nat, fraction: real, ratio: real, n: nat, k: nat, nextFrame: nat, nextFraction: real)
    requires fraction >= 0.0 && ratio >= 0.0 && nextFraction >= 0.0 && frame <= nextFrame
    requires nextFrame as real + nextFraction == frame as real + Position(fraction, ratio, n)
    requires n <= |locks| * CHUNK_LIMIT && k <= |more| * CHUNK_LIMIT && n + k <= |all| * CHUNK_LIMIT
    requires forall b :: b in locks + more + all ==> b
    ensures CallbackOutput(ps, channels, locks, frame, fraction, ratio, n)
            + CallbackOutput(ps, channels, more, nextFrame, nextFraction, ratio, k)
            == CallbackOutput(ps, channels, all, frame, fraction, ratio, n + k)
  {
    hide CallbackOutput, Heard;
    assert forall i :: 0 <= i < |locks| ==> locks[i] in locks + more + all;
    assert forall i :: 0 <= i < |more| ==> more[i] in locks + more + all;
    assert forall i :: 0 <= i < |all| ==> all[i] in locks + more + all;
    CallbackOutputShift(ps, channels, more, frame, nextFraction, ratio, nextFrame - frame, k);
    ChunkingIsInvisible(ps, channels, locks, frame, fraction, ratio, n);
    ChunkingIsInvisible(ps, channels, more, frame, Position(fraction, ratio, n), ratio, k);
    ChunkingIsInvisible(ps, channels, all, frame, fraction, ratio, n + k);
    HeardSplits(ps, channels, frame, fraction, ratio, n, k);
  }

  // ---- Underruns of a callback ------------------------------------------------------------

  /** The cursor `n` output frames further, as a whole frame and the fraction left over. */
  function Advanced(frame: nat, fraction: real, ratio: real, n: nat): (r: (nat, real))
    requires fraction >= 0.0 && ratio >= 0.0
    ensures 0.0 <= r.1 < 1.0
    ensures r.0 as real + r.1 == frame as real + Position(fraction, ratio, n)
  {
    var next := Position(fraction, ratio, n);
    (frame + next.Floor, next - next.Floor as real)
  }

  lemma AdvancedIs(frame: nat, fraction: real, ratio: real, n: nat, nextFrame: nat, nextFraction: real)
    requires fraction >= 0.0 && ratio >= 0.0 && 0.0 <= nextFraction < 1.0
    requires nextFrame as real + nextFraction == frame as real + Position(fraction, ratio, n)
    ensures (nextFrame, nextFraction) == Advanced(frame, fraction, ratio, n)
  {
    hide Position;
    FloorUnique(Position(fraction, ratio, n), nextFrame - frame, nextFraction);
  }

  lemma FloorUnique(p: real, k: int, f: real)
    requires p == k as real + f && 0.0 <= f < 1.0
    ensures p.Floor == k
  {
  }

  /** The known frames that one chunk misses; all of them if its try-lock failed. */
  function ChunkUnderrun(ps: seq<Buffered>, lock: bool, latestEnd: nat, frame: nat, fraction: real, ratio: real, m: nat)
    : nat
  {
    var requested: nat := Max(0, SourceFrames(fraction, ratio, m));
    var copied := if lock then Copied(ps, frame, frame + requested) else 0;
    Shortfall(copied, KnownFrames(latestEnd, frame, requested))
  }

  /** With the lock taken a chunk misses what has not arrived of the frames the stream is known to reach. */
  lemma UnderrunIsMissingFrames(ps: seq<Buffered>, lock: bool, latestEnd: nat, frame: nat, fraction: real,
                                ratio: real, m: nat, known: nat)
    requires fraction >= 0.0 && ratio >= 0.0 && EndsWithin(ps, latestEnd)
    requires var sourceFrames := SourceFrames(fraction, ratio, m);
             && known <= sourceFrames && NoFrameTwice(ps, frame, frame + sourceFrames)
             && (known > 0 ==> frame + known <= latestEnd) && (known < sourceFrames ==> latestEnd <= frame + known)
    ensures ChunkUnderrun(ps, lock, latestEnd, frame, fraction, ratio, m)
            == if lock then known - ReceivedCount(ps, frame, frame + known) else known
  {
    ShortfallIsMissingFrames(ps, latestEnd, frame, SourceFrames(fraction, ratio, m));
  }

  /** Over a callback, chunk by chunk from chunk `i` on. */
  function Underruns(ps: seq<Buffered>, locks: seq<bool>, latestEnds: nat -> nat, i: nat, frame: nat, fraction: real,
                     ratio: real, n: nat): nat
    requires fraction >= 0.0 && ratio >= 0.0 && n <= |locks| * CHUNK_LIMIT
  {
    if n == 0 then 0
    else
      var m := Min(CHUNK_LIMIT, n);
      var (nextFrame, nextFraction) := Advanced(frame, fraction, ratio, m);
      ChunkUnderrun(ps, locks[0], latestEnds(i), frame, fraction, ratio, m)
      + Underruns(ps, locks[1..], latestEnds, i + 1, nextFrame, nextFraction, ratio, n - m)
  }

  lemma UnderrunsStep(ps: seq<Buffered>, locks: seq<bool>, latestEnds: nat -> nat, i: nat, frame: nat, fraction: real,
                      ratio: real, n: nat, nextFrame: nat, nextFraction: real)
    requires fraction >= 0.0 && ratio >= 0.0 && 0 < n <= |locks| * CHUNK_LIMIT
    requires (nextFrame, nextFraction) == Advanced(frame, fraction, ratio, Min(CHUNK_LIMIT, n))
    ensures Underruns(ps, locks, latestEnds, i, frame, fraction, ratio, n)
            == ChunkUnderrun(ps, locks[0], latestEnds(i), frame, fraction, ratio, Min(CHUNK_LIMIT, n))
               + Underruns(ps, locks[1..], latestEnds, i + 1, nextFrame, nextFraction, ratio, n - Min(CHUNK_LIMIT, n))
  {
    hide Advanced, ChunkUnderrun;
  }

  /** The state of the counters after some chunks of a callback: `before` is the mark at its start, `count` what the
      underruns have come to since, `total` what they will come to. */
  ghost predicate Counted(ps: seq<Buffered>, locks: seq<bool>, latestEnds: nat -> nat, chunks: nat, n: nat, done: nat,
                          frame: nat, fraction: real, ratio: real, before: nat, mark: nat, count: int, total: int)
  {
    && fraction >= 0.0 && ratio >= 0.0 && n <= |locks| * CHUNK_LIMIT && chunks <= |locks|
    && done == Min(n, chunks * CHUNK_LIMIT) && (0 < chunks ==> (chunks - 1) * CHUNK_LIMIT < n)
    && (0 < chunks && locks[chunks - 1] ==> mark == frame)
    && ((forall i :: 0 <= i < chunks ==> !locks[i]) ==> mark == before)
    && count + Underruns(ps, locks[chunks..], latestEnds, chunks, frame, fraction, ratio, n - done) == total
  }

  lemma CountedAtStart(ps: seq<Buffered>, locks: seq<bool>, latestEnds: nat -> nat, n: nat, frame: nat, fraction: real,
                       ratio: real, mark: nat)
    requires fraction >= 0.0 && ratio >= 0.0 && n <= |locks| * CHUNK_LIMIT
    ensures Counted(ps, locks, latestEnds, 0, n, 0, frame, fraction, ratio, mark, mark, 0,
                    Underruns(ps, locks, latestEnds, 0, frame, fraction, ratio, n))
  {
    assert locks[0..] == locks;
  }

  lemma CountedStep(ps: seq<Buffered>, locks: seq<bool>, latestEnds: nat -> nat, chunks: nat, n: nat, done: nat,
                    frame: nat, fraction: real, ratio: real, before: nat, mark: nat, count: int, total: int,
                    nextFrame: nat, nextFraction: real, nextMark: nat, nextCount: int)
    requires Counted(ps, locks, latestEnds, chunks, n, done, frame, fraction, ratio, before, mark, count, total)
    requires done < n && chunks < |locks| && fraction >= 0.0 && ratio >= 0.0
    requires var m := Min(CHUNK_LIMIT, n - done);
             && (nextFrame, nextFraction) == Advanced(frame, fraction, ratio, m)
             && nextMark == (if locks[chunks] then nextFrame else mark)
             && nextCount - count == ChunkUnderrun(ps, locks[chunks], latestEnds(chunks), frame, fraction, ratio, m)
    ensures Counted(ps, locks, latestEnds, chunks + 1, n, done + Min(CHUNK_LIMIT, n - done), nextFrame, nextFraction,
                    ratio, before, nextMark, nextCount, total)
  {
    hide Advanced, ChunkUnderrun, Underruns;
    UnderrunsStep(ps, locks[chunks..], latestEnds, chunks, frame, fraction, ratio, n - done, nextFrame, nextFraction);
    assert locks[chunks..][1..] == locks[chunks + 1..];
  }

  lemma CountedAtEnd(ps: seq<Buffered>, locks: seq<bool>, latestEnds: nat -> nat, chunks: nat, n: nat, frame: nat,
                     fraction: real, ratio: real, before: nat, mark: nat, count: int, total: int)
    requires Counted(ps, locks, latestEnds, chunks, n, n, frame, fraction, ratio, before, mark, count, total)
    ensures count == total
    ensures n > 0 ==> (n - 1) / CHUNK_LIMIT < |locks| && (locks[(n - 1) / CHUNK_LIMIT] ==> mark == frame)
    ensures (forall i :: 0 <= i < |locks| ==> !locks[i]) ==> mark == before
  {
    LastChunk(n, chunks);
  }

  // ---- What is put out, position by position ---------------------------------------------

  /** Sample `channel` at the absolute position `at`: the point between the two frames around it, to the nearest
      integer, and the frame itself at a whole position. */
  ghost predicate SoundsAt(s: i16, ps: seq<Buffered>, channels: nat, at: real, channel: nat)
    requires at >= 0.0
  {
    var left := SampleAt(ps, channels, at.Floor * channels + channel);
    var right := SampleAt(ps, channels, (at.Floor + 1) * channels + channel);
    Nearest(s, left, right, at - at.Floor as real) && (at == at.Floor as real ==> s == left)
  }

  lemma HeardAtSounds(ps: seq<Buffered>, channels: nat, base: nat, position: real, channel: nat)
    requires position >= 0.0
    ensures SoundsAt(HeardAt(ps, channels, base, position, channel), ps, channels, base as real + position, channel)
  {
    assert (base as real + position).Floor == base + position.Floor;
    assert base as real + position - (base + position.Floor) as real == position - position.Floor as real;
    hide Nearest, SampleAt;
  }

  /** Where frame `k` of a callback is read. */
  function ReadPosition(base: nat, position: real, ratio: real, k: nat): real {
    base as real + position + k as real * ratio
  }

  lemma PositionIsRead(base: nat, position: real, ratio: real, k: nat)
    requires position >= 0.0 && ratio >= 0.0
    ensures ReadPosition(base, position, ratio, k) >= 0.0
    ensures ReadPosition(base, position, ratio, k) == base as real + Position(position, ratio, k)
  {
    assert k as real * ratio >= 0.0;
  }

  ghost predicate HeardThroughout(out: seq<i16>, ps: seq<Buffered>, channels: nat, base: nat, position: real,
                                  ratio: real, n: nat)
    requires position >= 0.0 && ratio >= 0.0
  {
    && |out| == n * channels
    && forall k: nat, c: nat :: k < n && c < channels ==> FrameSounds(out, ps, channels, base, position, ratio, k, c)
  }

  ghost predicate FrameSounds(out: seq<i16>, ps: seq<Buffered>, channels: nat, base: nat, position: real, ratio: real,
                              k: nat, c: nat)
    requires position >= 0.0 && ratio >= 0.0
  {
    PositionIsRead(base, position, ratio, k);
    k * channels + c < |out|
    && SoundsAt(out[k * channels + c], ps, channels, ReadPosition(base, position, ratio, k), c)
  }

  lemma FrameIndex(n: nat, k: nat, c: nat, channels: nat)
    requires 1 <= channels <= 2 && c < channels
    ensures k < n ==> k * channels + c < n * channels
    ensures (n + k) * channels + c == n * channels + (k * channels + c)
  {
  }

  /** Served reads: every output sample is the buffer at its own position. */
  lemma {:induction false} HeardSounds(ps: seq<Buffered>, channels: nat, base: nat, position: real, ratio: real, n: nat)
    requires position >= 0.0 && ratio >= 0.0 && 1 <= channels <= 2
    ensures HeardThroughout(Heard(ps, channels, base, position, ratio, n), ps, channels, base, position, ratio, n)
  {
    hide SoundsAt, HeardAt, Position, ReadPosition;
    var out := Heard(ps, channels, base, position, ratio, n);
    if n > 0 {
      HeardSounds(ps, channels, base, position, ratio, n - 1);
      var before, p := Heard(ps, channels, base, position, ratio, n - 1), Position(position, ratio, n - 1);
      FrameIndex(n - 1, 1, 0, channels);
      forall k: nat, c: nat | k < n && c < channels
        ensures FrameSounds(out, ps, channels, base, position, ratio, k, c)
      {
        PositionIsRead(base, position, ratio, k);
        FrameIndex(n - 1, k, c, channels);
        if k < n - 1 {
          assert FrameSounds(before, ps, channels, base, position, ratio, k, c);
          assert out[k * channels + c] == before[k * channels + c];
        } else {
          HeardAtSounds(ps, channels, base, p, c);
          assert out[k * channels + c] == HeardFrame(ps, channels, base, p)[c];
        }
      }
    }
  }

  /** A whole callback: frame `k` belongs to chunk `k / 256`, and is silent if that chunk's try-lock failed. */
  ghost predicate CallbackSounds(out: seq<i16>, ps: seq<Buffered>, channels: nat, locks: seq<bool>, base: nat,
                                 position: real, ratio: real, n: nat)
    requires position >= 0.0 && ratio >= 0.0
  {
    && |out| == n * channels && n <= |locks| * CHUNK_LIMIT
    && forall k: nat, c: nat :: k < n && c < channels ==>
         CallbackFrameSounds(out, ps, channels, locks, base, position, ratio, k, c)
  }

  ghost predicate CallbackFrameSounds(out: seq<i16>, ps: seq<Buffered>, channels: nat, locks: seq<bool>, base: nat,
                                      position: real, ratio: real, k: nat, c: nat)
    requires position >= 0.0 && ratio >= 0.0
  {
    && k / CHUNK_LIMIT < |locks|
    && if locks[k / CHUNK_LIMIT] then FrameSounds(out, ps, channels, base, position, ratio, k, c)
       else k * channels + c < |out| && out[k * channels + c] == 0
  }

  lemma {:induction false} CallbackOutputSounds(ps: seq<Buffered>, channels: nat, locks: seq<bool>, base: nat,
                                                position: real, ratio: real, n: nat)
    requires position >= 0.0 && ratio >= 0.0 && 1 <= channels <= 2 && n <= |locks| * CHUNK_LIMIT
    ensures CallbackSounds(CallbackOutput(ps, channels, locks, base, position, ratio, n), ps, channels, locks, base,
                           position, ratio, n)
    decreases n
  {
    hide FrameSounds, CallbackFrameSounds, ChunkOutput, Position;
    if n > 0 {
      var m := Min(CHUNK_LIMIT, n);
      var chunk := ChunkOutput(ps, channels, locks[0], base, position, ratio, m);
      var rest := CallbackOutput(ps, channels, locks[1..], base, Position(position, ratio, m), ratio, n - m);
      CallbackOutputSounds(ps, channels, locks[1..], base, Position(position, ratio, m), ratio, n - m);
      ChunkSounds(ps, channels, locks[0], base, position, ratio, m);
      FrameIndex(m, n - m, 0, channels);
      forall k: nat, c: nat | k < n && c < channels
        ensures CallbackFrameSounds(chunk + rest, ps, channels, locks, base, position, ratio, k, c)
      {
        FrameIndex(m, k, c, channels);
        if k < m {
          EarlyFrame(chunk, rest, ps, channels, locks, base, position, ratio, k, c);
        } else {
          LateFrame(chunk, rest, ps, channels, locks, base, position, ratio, m, k - m, c);
          assert m + (k - m) == k;
        }
      }
    }
  }

  lemma ChunkSounds(ps: seq<Buffered>, channels: nat, lock: bool, base: nat, position: real, ratio: real, m: nat)
    requires position >= 0.0 && ratio >= 0.0 && 1 <= channels <= 2 && m <= CHUNK_LIMIT
    ensures CallbackSounds(ChunkOutput(ps, channels, lock, base, position, ratio, m), ps, channels, [lock], base,
                           position, ratio, m)
  {
    hide FrameSounds, Heard;
    if lock {
      HeardSounds(ps, channels, base, position, ratio, m);
    }
    var out := ChunkOutput(ps, channels, lock, base, position, ratio, m);
    forall k: nat, c: nat | k < m && c < channels
      ensures CallbackFrameSounds(out, ps, channels, [lock], base, position, ratio, k, c)
    {
      FrameIndex(m, k, c, channels);
      assert k / CHUNK_LIMIT == 0;
    }
  }

  lemma EarlyFrame(chunk: seq<i16>, rest: seq<i16>, ps: seq<Buffered>, channels: nat, locks: seq<bool>, base: nat,
                   position: real, ratio: real, k: nat, c: nat)
    requires position >= 0.0 && ratio >= 0.0 && locks != [] && k < CHUNK_LIMIT
    requires CallbackFrameSounds(chunk, ps, channels, [locks[0]], base, position, ratio, k, c)
    ensures CallbackFrameSounds(chunk + rest, ps, channels, locks, base, position, ratio, k, c)
  {
    hide SoundsAt, ReadPosition;
    assert k / CHUNK_LIMIT == 0;
  }

  lemma LateFrame(chunk: seq<i16>, rest: seq<i16>, ps: seq<Buffered>, channels: nat, locks: seq<bool>, base: nat,
                  position: real, ratio: real, m: nat, k: nat, c: nat)
    requires position >= 0.0 && ratio >= 0.0 && locks != [] && m == CHUNK_LIMIT && |chunk| == m * channels
    requires 1 <= channels <= 2 && c < channels
    requires CallbackFrameSounds(rest, ps, channels, locks[1..], base, Position(position, ratio, m), ratio, k, c)
    ensures CallbackFrameSounds(chunk + rest, ps, channels, locks, base, position, ratio, m + k, c)
  {
    hide SoundsAt;
    FrameIndex(m, k, c, channels);
    assert (m + k) / CHUNK_LIMIT == 1 + k / CHUNK_LIMIT;
    assert ReadPosition(base, Position(position, ratio, m), ratio, k) == ReadPosition(base, position, ratio, m + k) by {
      assert (m + k) as real * ratio == m as real * ratio + k as real * ratio;
    }
  }

  /** From a whole frame on, at the source's own speed and with every read served, the callback puts out the
      buffer's own samples. */
  lemma WholeSpeedIsRender(out: seq<i16>, ps: seq<Buffered>, channels: nat, locks: seq<bool>, base: nat, n: nat)
    requires 1 <= channels <= 2 && CallbackSounds(out, ps, channels, locks, base, 0.0, 1.0, n)
    requires forall i :: 0 <= i < |locks| ==> locks[i]
    ensures out == Render(ps, channels, base, n * channels)
  {
    hide SampleAt, Nearest;
    forall i | 0 <= i < n * channels
      ensures out[i] == SampleAt(ps, channels, base * channels + i)
    {
      var k, c := i / channels, i % channels;
      PlaceOf(i, n, channels);
      assert CallbackFrameSounds(out, ps, channels, locks, base, 0.0, 1.0, k, c);
      assert ReadPosition(base, 0.0, 1.0, k) == (base + k) as real;
      FrameIndex(base, k, c, channels);
    }
  }

  lemma PlaceOf(i: nat, n: nat, channels: nat)
    requires 1 <= channels <= 2 && i < n * channels
    ensures i / channels < n && i % channels < channels && i / channels * channels + i % channels == i
  {
  }

  /** What a callback puts out: the chunked rendering, which is the buffer at every position. */
  ghost predicate Rendered(out: seq<i16>, ps: seq<Buffered>, channels: nat, locks: seq<bool>, base: nat, position: real,
                           ratio: real, n: nat)
    requires position >= 0.0 && ratio >= 0.0 && n <= |locks| * CHUNK_LIMIT
  {
    && out == CallbackOutput(ps, channels, locks, base, position, ratio, n)
    && CallbackSounds(out, ps, channels, locks, base, position, ratio, n)
    && (position == 0.0 && ratio == 1.0 && (forall i :: 0 <= i < |locks| ==> locks[i]) ==>
          out == Render(ps, channels, base, n * channels))
  }

  lemma OutputIsRendered(ps: seq<Buffered>, channels: nat, locks: seq<bool>, base: nat, position: real, ratio: real,
                         n: nat)
    requires 1 <= channels <= 2 && position >= 0.0 && RatioInRange(ratio) && n <= |locks| * CHUNK_LIMIT
    ensures Rendered(CallbackOutput(ps, channels, locks, base, position, ratio, n), ps, channels, locks, base, position,
                     ratio, n)
    ensures base as real + Position(position, ratio, n) == ReadPosition(base, position, ratio, n)
  {
    hide CallbackSounds, CallbackOutput, Render;
    PositionIsRead(base, position, ratio, n);
    CallbackOutputSounds(ps, channels, locks, base, position, ratio, n);
    if position == 0.0 && ratio == 1.0 && forall i :: 0 <= i < |locks| ==> locks[i] {
      WholeSpeedIsRender(CallbackOutput(ps, channels, locks, base, position, ratio, n), ps, channels, locks, base, n);
    }
  }

  class ScheduledStreamPlayer {
    const buffer: JitterBuffer
    const channelCount: nat
    const sourceSamples: array<i16>
    var sourceFrame: nat
    var sourceFraction: real
    var ratio: real
    var targetRatio: real
    var startTime: int
    var started: bool
    var startLateness: int
    var currentFrame: nat
    var underrunFrames: nat

    ghost predicate Valid()
      reads this, buffer
    {
      && buffer.Valid()
      && buffer.format.Some? && buffer.format.value.channels == channelCount
      && sourceSamples.Length == SOURCE_CAPACITY * channelCount
      && 0.0 <= sourceFraction < 1.0
      && RatioInRange(ratio) && RatioInRange(targetRatio)
      && buffer.mark <= sourceFrame
    }

    /** `schedule` places the cursor on a packet that is still to be played. */
    constructor (jitterBuffer: JitterBuffer, startFrame: nat, time: int)
      requires jitterBuffer.Valid() && jitterBuffer.format.Some? && jitterBuffer.mark <= startFrame
      ensures Valid() && fresh(sourceSamples) && buffer == jitterBuffer
      ensures sourceFrame == startFrame && sourceFraction == 0.0 && ratio == 1.0 && !started && startTime == time
    {
      buffer := jitterBuffer;
      channelCount := jitterBuffer.format.value.channels;
      sourceSamples := new i16[SOURCE_CAPACITY * jitterBuffer.format.value.channels](_ => 0);
      sourceFrame, sourceFraction, ratio, targetRatio := startFrame, 0.0, 1.0, 1.0;
      startTime, started, startLateness := time, false, 0;
      currentFrame, underrunFrames := startFrame, 0;
    }

    method SetCorrectionRatio(driftPpm: real, bufferErrorMs: real)
      requires Valid()
      modifies this`targetRatio
      ensures Valid() && targetRatio == CorrectionRatio(driftPpm, bufferErrorMs)
    {
      targetRatio := CorrectionRatio(driftPpm, bufferErrorMs);
    }

    /** The two interpolation loops of one chunk. */
    method InterpolateChunk(output: array<i16>, outputStart: nat, chunk: nat, sourceFrames: nat)
      requires 1 <= channelCount <= 2 && 0.0 <= sourceFraction < 1.0 && RatioInRange(ratio)
      requires 0 < chunk <= CHUNK_LIMIT && sourceFrames == SourceFrames(sourceFraction, ratio, chunk)
      requires sourceFrames * channelCount <= sourceSamples.Length
      requires (outputStart + chunk) * channelCount <= output.Length && output != sourceSamples
      modifies output
      ensures var first, last := outputStart * channelCount, (outputStart + chunk) * channelCount;
              && output[..first] == old(output[..first])
              && output[first..last]
                 == Blended(sourceSamples[..sourceFrames * channelCount], channelCount, sourceFraction, ratio, chunk)
              && output[last..] == old(output[last..])
    {
      ghost var first := outputStart * channelCount;
      var at := outputStart * channelCount;
      InterleavedIndex(channelCount, outputStart, 0, 0, chunk);
      for outputFrame := 0 to chunk
        modifies output
        invariant at == (outputStart + outputFrame) * channelCount && first <= at <= output.Length
        invariant output[..first] == old(output[..first])
        invariant output[first..at]
                  == Blended(sourceSamples[..sourceFrames * channelCount], channelCount, sourceFraction, ratio,
                             outputFrame)
        invariant output[at..] == old(output[at..])
      {
        ChunkRequest(sourceFraction, ratio, chunk, outputFrame);
        InterleavedIndex(channelCount, outputStart, outputFrame, 0, chunk);
        var sourcePosition := Position(sourceFraction, ratio, outputFrame);
        AppendFrame(output, first, at, sourceFrames, sourcePosition);
        at := at + channelCount;
      }
    }

    method AppendFrame(output: array<i16>, ghost first: nat, at: nat, sourceFrames: nat, sourcePosition: real)
      requires 1 <= channelCount <= 2 && sourcePosition >= 0.0 && sourcePosition.Floor + 1 < sourceFrames
      requires sourceFrames * channelCount <= sourceSamples.Length
      requires first <= at && at + channelCount <= output.Length && output != sourceSamples
      modifies output
      ensures output[..first] == old(output[..first])
      ensures output[first..at + channelCount]
              == old(output[first..at])
                 + BlendedFrame(sourceSamples[..sourceFrames * channelCount], channelCount, sourcePosition)
      ensures output[at + channelCount..] == old(output[at + channelCount..])
    {
      WriteFrame(output, at, sourceFrames, sourcePosition);
      assert output[..first] == output[..at][..first] == old(output[..at])[..first];
      assert output[first..at] == output[..at][first..] == old(output[..at])[first..];
      assert output[first..at + channelCount] == output[first..at] + output[at..at + channelCount];
    }

    method WriteFrame(output: array<i16>, at: nat, sourceFrames: nat, sourcePosition: real)
      requires 1 <= channelCount <= 2 && sourcePosition >= 0.0 && sourcePosition.Floor + 1 < sourceFrames
      requires sourceFrames * channelCount <= sourceSamples.Length
      requires at + channelCount <= output.Length && output != sourceSamples
      modifies output
      ensures output[..at] == old(output[..at]) && output[at + channelCount..] == old(output[at + channelCount..])
      ensures output[at..at + channelCount]
              == BlendedFrame(sourceSamples[..sourceFrames * channelCount], channelCount, sourcePosition)
    {
      ghost var frame := BlendedFrame(sourceSamples[..sourceFrames * channelCount], channelCount, sourcePosition);
      var index := sourcePosition.Floor;
      var fraction := sourcePosition - index as real;
      for channel := 0 to channelCount
        modifies output
        invariant forall j :: 0 <= j < output.Length ==>
                    output[j] == if at <= j < at + channel then frame[j - at] else old(output[j])
      {
        InterleavedIndex(channelCount, 0, index, channel, sourceFrames);
        InterleavedIndex(channelCount, 0, index + 1, channel, sourceFrames);
        var left := sourceSamples[index * channelCount + channel];
        var right := sourceSamples[(index + 1) * channelCount + channel];
        output[at + channel] := Interpolate(left, right, fraction);
      }
    }

    /** One pass of the chunk loop: read, interpolate, advance. `latestEnd` is what the loop loads
        after the read, when more packets may have arrived. */
    method RenderChunk(output: array<i16>, outputStart: nat, chunk: nat, lock: bool, latestEnd: nat)
      requires Valid() && 0 < chunk <= CHUNK_LIMIT
      requires (outputStart + chunk) * channelCount <= output.Length && output != sourceSamples
      requires sourceFrame + SOURCE_CAPACITY < U64_LIMIT
      modifies `sourceFrame, `sourceFraction, `underrunFrames, sourceSamples, buffer`mark, output
      ensures Valid()
      ensures var first, last := outputStart * channelCount, (outputStart + chunk) * channelCount;
              && output[..first] == old(output[..first])
              && output[first..last] == ChunkOutput(buffer.packets, channelCount, lock, old(sourceFrame),
                                                    old(sourceFraction), ratio, chunk)
              && output[last..] == old(output[last..])
      ensures old(sourceFrame) <= sourceFrame <= old(sourceFrame) + 257
      ensures sourceFrame as real + sourceFraction
              == old(sourceFrame) as real + Position(old(sourceFraction), ratio, chunk)
      ensures buffer.mark == if lock then sourceFrame else old(buffer.mark)
      ensures var requested: nat := SourceFrames(old(sourceFraction), ratio, chunk);
              var copied := if lock then Copied(buffer.packets, old(sourceFrame), old(sourceFrame) + requested) else 0;
              underrunFrames == old(underrunFrames)
                                + Shortfall(copied, KnownFrames(latestEnd, old(sourceFrame), requested))
    {
      assert 1 <= channelCount <= 2;
      hide Copied, WellFormed, Heard, Blended, Render, RatioInRange, Zeros, Position, ChunkOutput;
      var frame := sourceFrame;
      ChunkRequest(sourceFraction, ratio, chunk, 0);
      var sourceFrames: nat := SourceFrames(sourceFraction, ratio, chunk);
      RequestIsAligned(sourceFrames, channelCount);
      var copied := ReadAndInterpolate(output, outputStart, chunk, sourceFrames, lock);
      var known := KnownFrames(latestEnd, frame, sourceFrames);
      if copied < known {
        underrunFrames := underrunFrames + (known - copied);
      }
      AdvanceCursor(chunk);
    }

    method ReadAndInterpolate(output: array<i16>, outputStart: nat, chunk: nat, sourceFrames: nat, lock: bool)
      returns (copied: nat)
      requires Valid() && 0 < chunk <= CHUNK_LIMIT && sourceFrames == SourceFrames(sourceFraction, ratio, chunk)
      requires 2 <= sourceFrames <= 259 && sourceFrames * channelCount <= sourceSamples.Length
      requires (outputStart + chunk) * channelCount <= output.Length && output != sourceSamples
      requires sourceFrame + SOURCE_CAPACITY < U64_LIMIT
      modifies sourceSamples, buffer`mark, output
      ensures buffer.Valid()
      ensures var first, last := outputStart * channelCount, (outputStart + chunk) * channelCount;
              && output[..first] == old(output[..first])
              && output[first..last]
                 == ChunkOutput(buffer.packets, channelCount, lock, sourceFrame, sourceFraction, ratio, chunk)
              && output[last..] == old(output[last..])
      ensures copied == if lock then Copied(buffer.packets, sourceFrame, sourceFrame + sourceFrames) else 0
      ensures buffer.mark == if lock then sourceFrame + sourceFrames - 2 else old(buffer.mark)
    {
      assert 1 <= channelCount <= 2;
      hide Copied, WellFormed, Heard, Blended, Render, Zeros, Position;
      copied := Fetch(sourceFrames, lock);
      InterpolateChunk(output, outputStart, chunk, sourceFrames);
      BlendedIsHeard(buffer.packets, channelCount, sourceFrame, sourceFraction, ratio, chunk, chunk);
      BlendedZeros(channelCount, sourceFrames * channelCount, sourceFraction, ratio, chunk);
    }

    method AdvanceCursor(chunk: nat)
      requires 0.0 <= sourceFraction < 1.0 && RatioInRange(ratio) && 0 < chunk <= CHUNK_LIMIT
      modifies `sourceFrame, `sourceFraction
      ensures 0.0 <= sourceFraction < 1.0
      ensures sourceFrame == old(sourceFrame) + SourceFrames(old(sourceFraction), ratio, chunk) - 2
      ensures sourceFrame as real + sourceFraction
              == old(sourceFrame) as real + Position(old(sourceFraction), ratio, chunk)
    {
      ChunkRequest(sourceFraction, ratio, chunk, 0);
      var nextPosition := Position(sourceFraction, ratio, chunk);
      var advanced := nextPosition.Floor;
      sourceFrame := sourceFrame + advanced;
      sourceFraction := nextPosition - advanced as real;
    }

    /** The read of one chunk. The lookahead of two frames cancels the two extra frames of the
        request: the expiry mark moves exactly to the next cursor position. */
    method Fetch(sourceFrames: nat, lock: bool) returns (copied: nat)
      requires Valid() && 2 <= sourceFrames <= 259 && sourceFrame + SOURCE_CAPACITY < U64_LIMIT
      requires sourceFrames * channelCount <= sourceSamples.Length
      modifies sourceSamples, buffer`mark
      ensures buffer.Valid()
      ensures sourceSamples[..sourceFrames * channelCount]
              == if lock then Render(buffer.packets, channelCount, sourceFrame, sourceFrames * channelCount)
                 else Zeros(sourceFrames * channelCount)
      ensures copied == if lock then Copied(buffer.packets, sourceFrame, sourceFrame + sourceFrames) else 0
      ensures buffer.mark == if lock then sourceFrame + sourceFrames - 2 else old(buffer.mark)
    {
      assert 1 <= channelCount <= 2;
      hide Copied, WellFormed, Position, RatioInRange, MarkAfter, Served;
      RequestIsServed(buffer.Value(), sourceFrame, sourceFrames, lock);
      var read := buffer.ReadFrames(sourceFrame, sourceSamples, sourceFrames * channelCount, true, lock);
      copied := read.value;
    }

    /** The audio callback at time `now`. `locks` are the outcomes of the try-locks and
        `latestEnds` the latest ends loaded after them, one per chunk. The cursor lands exactly
        `frameCount * ratio` source frames further, with no accumulated error, and the output is
        the pointwise rendering from the old cursor. */
    method DataCallback(output: array<i16>, frameCount: nat, now: int, locks: seq<bool>, latestEnds: nat -> nat)
      requires Valid() && output.Length == frameCount * channelCount && output != sourceSamples
      requires frameCount <= |locks| * CHUNK_LIMIT
      requires sourceFrame + 2 * frameCount + SOURCE_CAPACITY < U64_LIMIT
      modifies this, sourceSamples, buffer`mark, output
      ensures Valid() && targetRatio == old(targetRatio) && startTime == old(startTime)
      ensures started <==> old(started) || now >= startTime
      ensures !started ==>
                && output[..] == Zeros(output.Length)
                && sourceFrame == old(sourceFrame) && sourceFraction == old(sourceFraction) && ratio == old(ratio)
                && buffer.mark == old(buffer.mark) && underrunFrames == old(underrunFrames)
      ensures started ==>
                && ratio == Slew(old(ratio), targetRatio)
                && Rendered(output[..], buffer.packets, channelCount, locks, old(sourceFrame), old(sourceFraction),
                            ratio, frameCount)
                && sourceFrame as real + sourceFraction
                   == ReadPosition(old(sourceFrame), old(sourceFraction), ratio, frameCount)
                && currentFrame == sourceFrame
                && buffer.mark >= old(buffer.mark) && MarkMoved(old(buffer.mark), frameCount, locks)
                && underrunFrames - old(underrunFrames)
                   == Underruns(buffer.packets, locks, latestEnds, 0, old(sourceFrame), old(sourceFraction), ratio,
                                frameCount)
      ensures started && !old(started) ==> startLateness == now - startTime
    {
      Silence(output, output.Length);
      if !started {
        if now < startTime {
          return;
        }
        startLateness := now - startTime;
        started := true;
      }
      ratio := Slew(ratio, targetRatio);
      hide WellFormed, Rendered, ReadPosition, Underruns, MarkMoved;
      RenderCallback(output, frameCount, locks, latestEnds);
      currentFrame := sourceFrame;
    }

    /** The chunks, with what they put out said position by position. */
    method RenderCallback(output: array<i16>, frameCount: nat, locks: seq<bool>, latestEnds: nat -> nat)
      requires Valid() && output.Length == frameCount * channelCount && output != sourceSamples
      requires frameCount <= |locks| * CHUNK_LIMIT
      requires sourceFrame + 2 * frameCount + SOURCE_CAPACITY < U64_LIMIT
      modifies `sourceFrame, `sourceFraction, `underrunFrames, sourceSamples, buffer`mark, output
      ensures Valid() && buffer.mark >= old(buffer.mark) && MarkMoved(old(buffer.mark), frameCount, locks)
      ensures underrunFrames - old(underrunFrames)
              == Underruns(buffer.packets, locks, latestEnds, 0, old(sourceFrame), old(sourceFraction), ratio,
                           frameCount)
      ensures Rendered(output[..], buffer.packets, channelCount, locks, old(sourceFrame), old(sourceFraction), ratio,
                       frameCount)
      ensures sourceFrame as real + sourceFraction
              == ReadPosition(old(sourceFrame), old(sourceFraction), ratio, frameCount)
    {
      assert 1 <= channelCount <= 2 && 0.0 <= sourceFraction < 1.0 && RatioInRange(ratio);
      hide Valid, CallbackOutput, Position, ReadPosition, Rendered, RatioInRange, Underruns, MarkMoved;
      RenderChunks(output, frameCount, locks, latestEnds);
      OutputIsRendered(buffer.packets, channelCount, locks, old(sourceFrame), old(sourceFraction), ratio, frameCount);
    }

    method RenderChunks(output: array<i16>, frameCount: nat, locks: seq<bool>, latestEnds: nat -> nat)
      requires Valid() && output.Length == frameCount * channelCount && output != sourceSamples
      requires frameCount <= |locks| * CHUNK_LIMIT
      requires sourceFrame + 2 * frameCount + SOURCE_CAPACITY < U64_LIMIT
      modifies `sourceFrame, `sourceFraction, `underrunFrames, sourceSamples, buffer`mark, output
      ensures Valid()
      ensures output[..] == CallbackOutput(buffer.packets, channelCount, locks, old(sourceFrame), old(sourceFraction),
                                           ratio, frameCount)
      ensures sourceFrame as real + sourceFraction
              == old(sourceFrame) as real + Position(old(sourceFraction), ratio, frameCount)
      ensures buffer.mark >= old(buffer.mark)
      ensures MarkMoved(old(buffer.mark), frameCount, locks)
      ensures underrunFrames - old(underrunFrames)
              == Underruns(buffer.packets, locks, latestEnds, 0, old(sourceFrame), old(sourceFraction), ratio,
                           frameCount)
    {
      assert 1 <= channelCount <= 2 && ratio >= 0.0;
      ghost var base, first := sourceFrame, sourceFraction;
      ghost var total := CallbackOutput(buffer.packets, channelCount, locks, base, first, ratio, frameCount);
      PendingAtStart(total, buffer.packets, channelCount, locks, base, first, ratio, frameCount);
      assert output[..0] == [];
      assert Underway(output, 0, frameCount, locks[0..], total, base, first) by { assert locks[0..] == locks; }
      ghost var underruns := Underruns(buffer.packets, locks, latestEnds, 0, base, first, ratio, frameCount);
      CountedAtStart(buffer.packets, locks, latestEnds, frameCount, base, first, ratio, buffer.mark);
      hide Valid, Underway, CallbackOutput, Position, Underruns, ChunkUnderrun, Advanced, Counted;
      var chunks := RenderLoop(output, frameCount, locks, latestEnds, total, base, first, buffer.mark, underrunFrames,
                               underruns);
      AllWritten(output, frameCount, locks[chunks..], total, base, first);
      CountedAtEnd(buffer.packets, locks, latestEnds, chunks, frameCount, sourceFrame, sourceFraction, ratio,
                   old(buffer.mark), buffer.mark, underrunFrames - old(underrunFrames), underruns);
    }

    method RenderLoop(output: array<i16>, frameCount: nat, locks: seq<bool>, latestEnds: nat -> nat,
                      ghost total: seq<i16>, ghost base: nat, ghost first: real, ghost before: nat, ghost earlier: nat,
                      ghost underruns: nat)
      returns (chunkIndex: nat)
      requires Underway(output, 0, frameCount, locks[0..], total, base, first)
      requires Counted(buffer.packets, locks, latestEnds, 0, frameCount, 0, sourceFrame, sourceFraction, ratio, before,
                       buffer.mark, underrunFrames - earlier, underruns)
      modifies `sourceFrame, `sourceFraction, `underrunFrames, sourceSamples, buffer`mark, output
      ensures chunkIndex <= |locks| && buffer.mark >= old(buffer.mark)
      ensures Underway(output, frameCount, frameCount, locks[chunkIndex..], total, base, first)
      ensures Counted(buffer.packets, locks, latestEnds, chunkIndex, frameCount, frameCount, sourceFrame,
                      sourceFraction, ratio, before, buffer.mark, underrunFrames - earlier, underruns)
    {
      hide Underway, Underruns, ChunkUnderrun, Advanced, Counted;
      var outputStart := 0;
      chunkIndex := 0;
      while outputStart < frameCount
        modifies `sourceFrame, `sourceFraction, `underrunFrames, sourceSamples, buffer`mark, output
        invariant outputStart <= frameCount && chunkIndex <= |locks| && buffer.mark >= old(buffer.mark)
        invariant Underway(output, outputStart, frameCount, locks[chunkIndex..], total, base, first)
        invariant Counted(buffer.packets, locks, latestEnds, chunkIndex, frameCount, outputStart, sourceFrame,
                          sourceFraction, ratio, before, buffer.mark, underrunFrames - earlier, underruns)
      {
        var chunkFrames := Min(CHUNK_LIMIT, frameCount - outputStart);
        MoreLocks(output, outputStart, frameCount, locks[chunkIndex..], total, base, first);
        ghost var frame, fraction, mark, count := sourceFrame, sourceFraction, buffer.mark, underrunFrames;
        RenderAhead(output, outputStart, frameCount, chunkFrames, locks[chunkIndex..], latestEnds(chunkIndex), total,
                    base, first);
        CountedStep(buffer.packets, locks, latestEnds, chunkIndex, frameCount, outputStart, frame, fraction, ratio,
                    before, mark, count - earlier, underruns, sourceFrame, sourceFraction, buffer.mark,
                    underrunFrames - earlier);
        outputStart := outputStart + chunkFrames;
        chunkIndex := chunkIndex + 1;
        assert locks[chunkIndex - 1..][1..] == locks[chunkIndex..];
      }
    }

    /** If the last chunk's read was served the expiry mark is at the cursor; if none was it has not moved. */
    ghost predicate MarkMoved(before: nat, frameCount: nat, locks: seq<bool>)
      requires frameCount <= |locks| * CHUNK_LIMIT
      reads this, buffer
    {
      && (frameCount > 0 && locks[(frameCount - 1) / CHUNK_LIMIT] ==> buffer.mark == sourceFrame)
      && ((forall i :: 0 <= i < |locks| ==> !locks[i]) ==> buffer.mark == before)
    }

    /** The first `outputStart` frames are written and the cursor stands after them. */
    ghost predicate Underway(output: array<i16>, outputStart: nat, frameCount: nat, locks: seq<bool>, total: seq<i16>,
                             base: nat, first: real)
      reads this, buffer, output
    {
      && Valid() && outputStart <= frameCount && output.Length == frameCount * channelCount && output != sourceSamples
      && 0.0 <= first < 1.0 && base <= sourceFrame && base + 2 * frameCount + SOURCE_CAPACITY < U64_LIMIT
      && outputStart * channelCount <= output.Length
      && sourceFrame as real + sourceFraction == base as real + Position(first, ratio, outputStart)
      && Pending(total, output[..outputStart * channelCount], buffer.packets, channelCount, locks, base,
                 Position(first, ratio, outputStart), ratio, frameCount - outputStart)
    }

    lemma MoreLocks(output: array<i16>, outputStart: nat, frameCount: nat, locks: seq<bool>, total: seq<i16>, base: nat,
                    first: real)
      requires Underway(output, outputStart, frameCount, locks, total, base, first) && outputStart < frameCount
      ensures locks != []
    {
      hide Valid, CallbackOutput, Position;
    }

    lemma AllWritten(output: array<i16>, frameCount: nat, locks: seq<bool>, total: seq<i16>, base: nat, first: real)
      requires Underway(output, frameCount, frameCount, locks, total, base, first)
      ensures Valid() && output[..] == total
      ensures sourceFrame as real + sourceFraction == base as real + Position(first, ratio, frameCount)
    {
      hide Valid, CallbackOutput, Position, Pending;
      PendingAtEnd(total, output[..frameCount * channelCount], buffer.packets, channelCount, locks, base,
                   Position(first, ratio, frameCount), ratio);
      assert output[..output.Length] == output[..];
    }

    /** One chunk of the callback, with the lock outcomes that are left. */
    method RenderAhead(output: array<i16>, outputStart: nat, frameCount: nat, chunk: nat, locks: seq<bool>,
                       latestEnd: nat, ghost total: seq<i16>, ghost base: nat, ghost first: real)
      requires Underway(output, outputStart, frameCount, locks, total, base, first) && locks != []
      requires outputStart < frameCount && chunk == Min(CHUNK_LIMIT, frameCount - outputStart)
      modifies `sourceFrame, `sourceFraction, `underrunFrames, sourceSamples, buffer`mark, output
      ensures Underway(output, outputStart + chunk, frameCount, locks[1..], total, base, first)
      ensures buffer.mark >= old(buffer.mark) && buffer.mark == if locks[0] then sourceFrame else old(buffer.mark)
      ensures ratio >= 0.0 && old(sourceFraction) >= 0.0
      ensures (sourceFrame, sourceFraction) == Advanced(old(sourceFrame), old(sourceFraction), ratio, chunk)
      ensures underrunFrames - old(underrunFrames)
              == ChunkUnderrun(buffer.packets, locks[0], latestEnd, old(sourceFrame), old(sourceFraction), ratio, chunk)
    {
      assert 1 <= channelCount <= 2 && ratio >= 0.0 && 0.0 <= sourceFraction < 1.0 && RatioInRange(ratio);
      hide Valid, ChunkOutput, Position, Pending, CallbackOutput, RatioInRange, Advanced, ChunkUnderrun;
      ghost var position := Position(first, ratio, outputStart);
      ghost var done := output[..outputStart * channelCount];
      NextChunkFits(sourceFrame, sourceFraction, base, first, ratio, outputStart, chunk, frameCount, channelCount);
      PendingStep(total, done, buffer.packets, channelCount, locks, base, position, ratio, frameCount - outputStart);
      RenderNext(output, outputStart, chunk, locks[0], latestEnd, base, position);
    }

    /** A chunk seen from the callback's starting cursor. */
    method RenderNext(output: array<i16>, outputStart: nat, chunk: nat, lock: bool, latestEnd: nat, ghost base: nat,
                      ghost position: real)
      requires Valid() && 0 < chunk <= CHUNK_LIMIT
      requires (outputStart + chunk) * channelCount <= output.Length && output != sourceSamples
      requires sourceFrame + SOURCE_CAPACITY < U64_LIMIT
      requires base <= sourceFrame && position >= 0.0
      requires sourceFrame as real + sourceFraction == base as real + position
      modifies `sourceFrame, `sourceFraction, `underrunFrames, sourceSamples, buffer`mark, output
      ensures Valid() && base <= sourceFrame && buffer.mark >= old(buffer.mark)
      ensures buffer.mark == if lock then sourceFrame else old(buffer.mark)
      ensures ratio >= 0.0 && old(sourceFraction) >= 0.0
      ensures (sourceFrame, sourceFraction) == Advanced(old(sourceFrame), old(sourceFraction), ratio, chunk)
      ensures underrunFrames - old(underrunFrames)
              == ChunkUnderrun(buffer.packets, lock, latestEnd, old(sourceFrame), old(sourceFraction), ratio, chunk)
      ensures sourceFrame as real + sourceFraction == base as real + Position(position, ratio, chunk)
      ensures output[..(outputStart + chunk) * channelCount]
              == old(output[..outputStart * channelCount])
                 + ChunkOutput(buffer.packets, channelCount, lock, base, position, ratio, chunk)
    {
      ChunkOutputShift(buffer.packets, channelCount, lock, base, sourceFraction, ratio, sourceFrame - base, chunk);
      ghost var first, last := outputStart * channelCount, (outputStart + chunk) * channelCount;
      RenderChunk(output, outputStart, chunk, lock, latestEnd);
      AdvancedIs(old(sourceFrame), old(sourceFraction), ratio, chunk, sourceFrame, sourceFraction);
      assert output[..last] == output[..first] + output[first..last];
    }
  }

  lemma LastChunk(n: nat, chunks: nat)
    requires chunks * CHUNK_LIMIT >= n && (0 < chunks ==> (chunks - 1) * CHUNK_LIMIT < n)
    ensures n > 0 ==> chunks > 0 && (n - 1) / CHUNK_LIMIT == chunks - 1
  {
  }

  /** What has been written plus what the remaining chunks will write is the whole callback. */
  ghost predicate Pending(total: seq<i16>, done: seq<i16>, ps: seq<Buffered>, channels: nat, locks: seq<bool>,
                          base: nat, position: real, ratio: real, n: nat)
  {
    && position >= 0.0 && ratio >= 0.0 && n <= |locks| * CHUNK_LIMIT
    && done + CallbackOutput(ps, channels, locks, base, position, ratio, n) == total
  }

  lemma PendingAtStart(total: seq<i16>, ps: seq<Buffered>, channels: nat, locks: seq<bool>, base: nat, position: real,
                       ratio: real, n: nat)
    requires position >= 0.0 && ratio >= 0.0 && n <= |locks| * CHUNK_LIMIT
    requires total == CallbackOutput(ps, channels, locks, base, position, ratio, n)
    ensures Pending(total, [], ps, channels, locks[0..], base, position, ratio, n)
    ensures position == Position(position, ratio, 0)
  {
    assert locks[0..] == locks;
  }

  lemma PendingStep(total: seq<i16>, done: seq<i16>, ps: seq<Buffered>, channels: nat, locks: seq<bool>, base: nat,
                    position: real, ratio: real, n: nat)
    requires Pending(total, done, ps, channels, locks, base, position, ratio, n) && 0 < n
    ensures var m := Min(CHUNK_LIMIT, n);
            && locks != []
            && Pending(total, done + ChunkOutput(ps, channels, locks[0], base, position, ratio, m), ps, channels,
                       locks[1..], base, Position(position, ratio, m), ratio, n - m)
  {
  }

  lemma PendingAtEnd(total: seq<i16>, done: seq<i16>, ps: seq<Buffered>, channels: nat, locks: seq<bool>, base: nat,
                     position: real, ratio: real)
    requires Pending(total, done, ps, channels, locks, base, position, ratio, 0)
    ensures done == total
  {
  }

  /** A chunk's request is frame aligned, and the lookahead cancels its two extra frames. */
  lemma RequestIsServed(b: State, frame: nat, frames: nat, lock: bool)
    requires WellFormed(b) && b.format.Some? && 2 <= frames <= 259 && frame + SOURCE_CAPACITY < U64_LIMIT
    ensures var channels := b.format.value.channels;
            && (Served(b, frames * channels, lock) <==> lock)
            && frames * channels % channels == 0
            && frames * channels / channels == frames
            && frames * channels < U64_LIMIT
    ensures b.mark <= frame ==> MarkAfter(b.mark, frame, frames, true) == frame + frames - 2
  {
    hide AllShaped, EndsWithin, Ascending;
    RequestIsAligned(frames, b.format.value.channels);
    SmallSum(frame, frames);
  }

  lemma SmallSum(frame: nat, frames: nat)
    requires frame + frames < U64_LIMIT && 2 <= frames
    ensures (frame + frames) % U64_LIMIT == frame + frames
    ensures (frame + frames - 2) % U64_LIMIT == frame + frames - 2
  {
  }

  lemma CursorBound(frame: nat, fraction: real, base: nat, position: real, n: nat)
    requires frame as real + fraction == base as real + position && fraction >= 0.0 && position < 2.0 * n as real
    ensures frame < base + 2 * n
  {
  }

  lemma CursorFits(fraction: real, ratio: real, k: nat, n: nat)
    requires 0.0 <= fraction < 1.0 && RatioInRange(ratio) && k < n
    ensures Position(fraction, ratio, k) < 2.0 * n as real
  {
    var y := (n - 1) as real;
    Scale(k as real, y, ratio);
    Scale(ratio, 2.0, y);
    assert ratio * y == y * ratio;
    assert y * ratio <= 2.0 * y;
    assert k as real * ratio <= 2.0 * y;
    assert fraction + k as real * ratio < 1.0 + 2.0 * y;
  }

  lemma ChunkFits(start: nat, chunk: nat, count: nat, channels: nat)
    requires start + chunk <= count && 1 <= channels <= 2
    ensures start * channels <= (start + chunk) * channels <= count * channels
  {
    Times(start, channels);
    Times(start + chunk, channels);
    Times(count, channels);
  }

  lemma NextChunkFits(frame: nat, fraction: real, base: nat, first: real, ratio: real, start: nat, chunk: nat,
                      count: nat, channels: nat)
    requires 0.0 <= first < 1.0 && RatioInRange(ratio) && start < count && start + chunk <= count && 1 <= channels <= 2
    requires fraction >= 0.0 && frame as real + fraction == base as real + Position(first, ratio, start)
    ensures frame < base + 2 * count
    ensures start * channels <= (start + chunk) * channels <= count * channels
    ensures Position(Position(first, ratio, start), ratio, chunk) == Position(first, ratio, start + chunk)
    ensures Position(first, ratio, start) >= 0.0
  {
    hide Position;
    CursorFits(first, ratio, start, count);
    CursorBound(frame, fraction, base, Position(first, ratio, start), count);
    ChunkFits(start, chunk, count, channels);
    NextPosition(first, ratio, start, chunk);
  }

  lemma NextPosition(fraction: real, ratio: real, k: nat, m: nat)
    ensures Position(Position(fraction, ratio, k), ratio, m) == Position(fraction, ratio, k + m)
    ensures Position(fraction, ratio, k) + m as real * ratio == Position(fraction, ratio, k + m)
    ensures fraction >= 0.0 && ratio >= 0.0 ==> Position(fraction, ratio, k) >= 0.0
  {
    assert ratio >= 0.0 ==> k as real * ratio >= 0.0;
    assert (k + m) as real * ratio == k as real * ratio + m as real * ratio;
  }

  lemma RequestIsAligned(frames: nat, channels: nat)
    requires 1 <= channels <= 2 && frames <= 259
    ensures frames * channels % channels == 0 && frames * channels / channels == frames
    ensures frames * channels <= SOURCE_CAPACITY * channels < U64_LIMIT
  {
    Times(frames, channels);
    Times(SOURCE_CAPACITY, channels);
  }
}
