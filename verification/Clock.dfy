/** core/src/PlaybackClock.cpp: frames and nanoseconds by split integer arithmetic. */
module Clock {
  import opened Numbers

  const SECOND := 1_000_000_000
  const U64_MAX := U64_LIMIT - 1

  // ---- The exact conversions, in unbounded arithmetic ---------------------------

  function Ceil(a: nat, b: nat): nat
    requires b > 0
  {
    (a + b - 1) / b
  }

  /** The first nanosecond at or after frame `f`. */
  function ExactDuration(rate: nat, f: nat): nat
    requires rate > 0
  {
    Ceil(f * SECOND, rate)
  }

  /** The last frame at or before nanosecond `t`. */
  function ExactFrame(rate: nat, t: nat): nat {
    t * rate / SECOND
  }

  // ---- The code ------------------------------------------------------------------

  /** Unsigned 64-bit arithmetic. */
  function Wrap(x: int): nat {
    x % U64_LIMIT
  }

  function FrameToDuration(rate: u32, f: u64): Result<nat>
    requires rate > 0
  {
    var wholeSeconds := f / rate;
    var remainingFrames := f % rate;
    if wholeSeconds > I64_MAX / SECOND then Err
    else
      var wholeNanoseconds := Wrap(wholeSeconds as int * SECOND);
      var partialNanoseconds := Wrap(Wrap(remainingFrames as int * SECOND) + rate - 1) / rate;
      if partialNanoseconds > Wrap(I64_MAX - wholeNanoseconds) then Err
      else Ok(Wrap(wholeNanoseconds + partialNanoseconds))
  }

  function FrameToTimestamp(rate: u32, start: i64, f: u64): Result<int>
    requires rate > 0
  {
    var offset := FrameToDuration(rate, f);
    if offset.Err? then Err
    else if start > I64_MAX - offset.value then Err
    else Ok(start as int + offset.value)
  }

  /** Subtracting the start time is 64-bit signed: the caller keeps the difference in range. */
  predicate ElapsedFits(start: i64, t: i64) {
    t as int - start <= I64_MAX
  }

  function TimestampToFrame(rate: u32, start: i64, t: i64): Result<nat>
    requires rate > 0 && ElapsedFits(start, t)
  {
    if t <= start then Ok(0)
    else
      var nanoseconds: nat := t as int - start;
      var wholeSeconds := nanoseconds / SECOND;
      var remaining := nanoseconds % SECOND;
      if wholeSeconds > U64_MAX / rate then Err
      else
        var wholeFrames := Wrap(wholeSeconds * rate);
        var partialFrames := Wrap(remaining * rate) / SECOND;
        if partialFrames > Wrap(U64_MAX - wholeFrames) then Err else Ok(Wrap(wholeFrames + partialFrames))
  }

  // ---- Division facts ---------------------------------------------------------------

  /** `floor(a / b) >= k` exactly when `a >= k * b`. */
  lemma FloorAtLeast(a: nat, b: nat, k: nat)
    requires b > 0
    ensures a / b >= k <==> a >= k * b
  {
    var q, r := a / b, a % b;
    assert a == q * b + r;
    if q >= k {
      assert q * b >= k * b;
    } else {
      assert (q + 1) * b <= k * b;
      assert (q + 1) * b == q * b + b;
    }
  }

  /** `ceil(a / b) <= k` exactly when `a <= k * b`. */
  lemma CeilAtMost(a: nat, b: nat, k: nat)
    requires b > 0
    ensures Ceil(a, b) <= k <==> a <= k * b
  {
    FloorAtLeast(a + b - 1, b, k + 1);
    assert (k + 1) * b == k * b + b;
  }

  /** Taking whole units out first changes nothing. */
  lemma SplitFloor(q: nat, r: nat, b: nat, unit: nat)
    requires unit > 0
    ensures (q * unit + r) * b / unit == q * b + r * b / unit
  {
    var x, y := (q * unit + r) * b, r * b;
    assert x == (q * b) * unit + y by {
      assert (q * unit + r) * b == q * unit * b + r * b;
      assert q * unit * b == (q * b) * unit;
    }
    AddMultiple(q * b, y, unit);
  }

  lemma AddMultiple(m: nat, y: nat, unit: nat)
    requires unit > 0
    ensures (m * unit + y) / unit == m + y / unit
  {
    var d := y / unit;
    assert y == d * unit + y % unit;
    FloorAtLeast(m * unit + y, unit, m + d);
    FloorAtLeast(m * unit + y, unit, m + d + 1);
    assert (m + d) * unit == m * unit + d * unit;
    assert (m + d + 1) * unit == m * unit + d * unit + unit;
  }

  lemma SplitCeil(q: nat, r: nat, n: nat, rate: nat)
    requires rate > 0
    ensures Ceil((q * rate + r) * n, rate) == q * n + Ceil(r * n, rate)
  {
    assert (q * rate + r) * n == (q * n) * rate + r * n by {
      assert (q * rate + r) * n == q * rate * n + r * n;
      assert q * rate * n == (q * n) * rate;
    }
    AddMultiple(q * n, r * n + rate - 1, rate);
  }

  // ---- Split arithmetic is exact --------------------------------------------------------

  lemma WrapIs(x: int)
    requires 0 <= x < U64_LIMIT
    ensures Wrap(x) == x
  {
  }

  /** The split computation is the unbounded ceiling and throws exactly when that ceiling does not
      fit: none of its 64-bit intermediates wraps. */
  lemma FrameToDurationIsExact(rate: u32, f: u64)
    requires rate > 0
    ensures FrameToDuration(rate, f)
            == if ExactDuration(rate, f) <= I64_MAX then Ok(ExactDuration(rate, f)) else Err
  {
    hide Wrap;
    var q: nat, r: nat := f / rate, f % rate;
    assert f == q * rate + r;
    SplitCeil(q, r, SECOND, rate);
    FloorAtLeast(I64_MAX, SECOND, q);
    assert r * SECOND <= (rate - 1) * SECOND;
    WrapIs(r * SECOND);
    WrapIs(r * SECOND + rate - 1);
    var partial: nat := (r * SECOND + rate - 1) / rate;
    AtMostSecond(r, rate);
    if q <= I64_MAX / SECOND {
      WrapIs(q * SECOND);
      WrapIs(I64_MAX - q * SECOND);
      WrapIs(q * SECOND + partial);
    }
  }

  lemma AtMostSecond(r: nat, rate: nat)
    requires r < rate
    ensures (r * SECOND + rate - 1) / rate <= SECOND
  {
    CeilAtMost(r * SECOND, rate, SECOND);
    assert r * SECOND <= SECOND * rate;
  }

  /** `frameToTimestamp` throws exactly when the duration or the timestamp is not representable;
      from a non-negative start that is exactly when the timestamp is not. */
  lemma FrameToTimestampIsExact(rate: u32, start: i64, f: u64)
    requires rate > 0
    ensures var d := ExactDuration(rate, f);
            FrameToTimestamp(rate, start, f)
            == if d <= I64_MAX && start as int + d <= I64_MAX then Ok(start as int + d) else Err
    ensures start >= 0 ==>
              (FrameToTimestamp(rate, start, f).Err? <==> start as int + ExactDuration(rate, f) > I64_MAX)
  {
    FrameToDurationIsExact(rate, f);
  }

  /** With a negative start the duration can overflow although the timestamp would fit. */
  lemma NegativeStartThrowsEarly()
    ensures var f: u64 := I64_MAX + 1;
            -1 + ExactDuration(SECOND, f) == I64_MAX && FrameToTimestamp(SECOND, -1, f).Err?
  {
    var f: u64 := I64_MAX + 1;
    CeilAtMost(f as int * SECOND, SECOND, f);
    CeilAtMost(f as int * SECOND, SECOND, f as int - 1);
    FrameToTimestampIsExact(SECOND, -1, f);
  }

  lemma Partial(r: nat, rate: u32)
    requires r < SECOND
    ensures r * rate < U64_LIMIT
  {
    assert r * rate <= SECOND * rate;
  }

  lemma TimestampToFrameIsExact(rate: u32, start: i64, t: i64)
    requires rate > 0 && ElapsedFits(start, t)
    ensures var elapsed: nat := Max(0, t as int - start);
            TimestampToFrame(rate, start, t)
            == if ExactFrame(rate, elapsed) <= U64_MAX then Ok(ExactFrame(rate, elapsed)) else Err
  {
    hide Wrap;
    if t > start {
      var n: nat := t as int - start;
      var q, r := n / SECOND, n % SECOND;
      assert n == q * SECOND + r;
      SplitFloor(q, r, rate, SECOND);
      FloorAtLeast(U64_MAX, rate, q);
      Partial(r, rate);
      WrapIs(r * rate);
      FloorAtLeast(r * rate, SECOND, rate as nat);
      if q <= U64_MAX / rate {
        WrapIs(q * rate);
        WrapIs(U64_MAX - q * rate);
        if r * rate / SECOND <= U64_MAX - q * rate {
          WrapIs(q * rate + r * rate / SECOND);
        }
      }
    } else {
      assert ExactFrame(rate, 0) == 0;
    }
  }

  // ---- The adjunction ------------------------------------------------------------------------

  lemma ExactAdjunction(rate: nat, f: nat, t: nat)
    requires rate > 0
    ensures ExactFrame(rate, t) >= f <==> t >= ExactDuration(rate, f)
  {
    FloorAtLeast(t * rate, SECOND, f);
    CeilAtMost(f * SECOND, rate, t);
  }

  /** Frame `f` has been reached at `t` exactly when `t` is at or after the frame's timestamp.
      If the timestamp is not representable, no representable time reaches the frame; if the
      frame number is not representable, every representable frame has been reached. */
  lemma ReachedIffAtOrAfterTimestamp(rate: u32, start: i64, f: u64, t: i64)
    requires rate > 0 && f >= 1 && ElapsedFits(start, t)
    ensures var reached, due := TimestampToFrame(rate, start, t), FrameToTimestamp(rate, start, f);
            match (reached, due)
            case (Ok(g), Ok(d)) => g >= f <==> t >= d
            case (Ok(g), Err) => g < f
            case (Err, Ok(d)) => t >= d
            case (Err, Err) => false
  {
    var elapsed: nat := Max(0, t as int - start);
    TimestampToFrameIsExact(rate, start, t);
    FrameToTimestampIsExact(rate, start, f);
    ExactAdjunction(rate, f, elapsed);
    CeilAtMost(f as int * SECOND, rate, 0);
    assert ExactFrame(rate, elapsed) > U64_MAX ==> ExactFrame(rate, elapsed) >= f;
  }

  // ---- The round trip ------------------------------------------------------------------------

  /** The ceiling is less than one nanosecond late, so it has not reached frame `f + 1`. */
  lemma ExactRoundTrip(rate: nat, f: nat)
    requires 0 < rate <= SECOND
    ensures ExactFrame(rate, ExactDuration(rate, f)) == f
  {
    var d := ExactDuration(rate, f);
    ExactAdjunction(rate, f, d);
    if d > 0 {
      CeilAtMost(f * SECOND, rate, d - 1);
      LessThanOneMore((d - 1) * rate, f * SECOND, d, rate);
    }
    FloorAtLeast(d * rate, SECOND, f + 1);
  }

  lemma LessThanOneMore(x: nat, y: nat, d: nat, rate: nat)
    requires d > 0 && x == (d - 1) * rate && x < y && rate <= SECOND
    ensures d * rate < y + SECOND
  {
    assert d * rate == (d - 1) * rate + rate;
  }

  /** Up to one frame per nanosecond, a frame survives the trip through its timestamp. */
  lemma FrameRoundTrip(rate: u32, start: i64, f: u64)
    requires 0 < rate <= SECOND && FrameToTimestamp(rate, start, f).Ok?
    ensures ElapsedFits(start, FrameToTimestamp(rate, start, f).value)
    ensures TimestampToFrame(rate, start, FrameToTimestamp(rate, start, f).value) == Ok(f)
  {
    FrameToTimestampIsExact(rate, start, f);
    TimestampToFrameIsExact(rate, start, FrameToTimestamp(rate, start, f).value);
    hide ExactDuration, ExactFrame;
    ExactRoundTrip(rate, f);
  }

  /** ... and that limit is exact: at every higher rate the frame `rate - 1` is lost, because it
      shares its nanosecond with frame `rate`, from every start time that leaves room for a second. */
  lemma HigherRatesLoseAFrame(rate: u32, start: i64)
    requires rate > SECOND && start <= I64_MAX - SECOND
    ensures FrameToTimestamp(rate, start, rate - 1) == Ok(start as int + SECOND)
    ensures TimestampToFrame(rate, start, start as int + SECOND) == Ok(rate)
  {
    var f: u64 := rate - 1;
    FrameToTimestampIsExact(rate, start, f);
    assert f as int * SECOND == rate as int * SECOND - SECOND;
    CeilAtMost(f as int * SECOND, rate, SECOND);
    CeilAtMost(f as int * SECOND, rate, SECOND - 1);
    assert (SECOND - 1) * rate == SECOND * rate - rate;
    TimestampToFrameIsExact(rate, start, start as int + SECOND);
    FloorAtLeast(SECOND * rate, SECOND, rate);
    FloorAtLeast(SECOND * rate, SECOND, rate as int + 1);
  }

  /** The frame survives wherever it has a timestamp. */
  predicate Survives(rate: u32, start: i64, f: u64)
    requires rate > 0
  {
    match FrameToTimestamp(rate, start, f)
    case Ok(t) => ElapsedFits(start, t) && TimestampToFrame(rate, start, t) == Ok(f)
    case Err => true
  }

  /** All frames survive from all start times exactly up to one frame per nanosecond. */
  lemma RoundTripIffAtMostOnePerNanosecond(rate: u32)
    requires rate > 0
    ensures rate <= SECOND <==> forall start: i64, f: u64 :: Survives(rate, start, f)
  {
    if rate <= SECOND {
      forall start: i64, f: u64
        ensures Survives(rate, start, f)
      {
        if FrameToTimestamp(rate, start, f).Ok? {
          FrameRoundTrip(rate, start, f);
        }
      }
    } else {
      RoundTripFromStart(rate, 0);
    }
  }

  /** The same for the frames counted from any one start time that leaves room for a second. */
  lemma RoundTripFromStart(rate: u32, start: i64)
    requires rate > 0 && start <= I64_MAX - SECOND
    ensures rate <= SECOND <==> forall f: u64 :: Survives(rate, start, f)
  {
    if rate <= SECOND {
      forall f: u64
        ensures Survives(rate, start, f)
      {
        if FrameToTimestamp(rate, start, f).Ok? {
          FrameRoundTrip(rate, start, f);
        }
      }
    } else {
      HigherRatesLoseAFrame(rate, start);
      assert !Survives(rate, start, rate - 1);
    }
  }
}
