/** core/src/DriftCorrection.cpp: the sliding-window least-squares clock estimator.
    `double` is an exact real here; times and offsets are unbounded integers. */
module Drift {
  import opened Numbers

  const MAXIMUM_SLOPE := 0.002
  const MAXIMUM_SAMPLES := 32
  const WINDOW_NANOSECONDS := 120_000_000_000
  const MINIMUM_LIMIT := 5000000.0

  datatype Sample = Sample(time: int, offset: int)

  datatype Estimator = Estimator(samples: seq<Sample>, slope: real, fitted: real, outliers: nat)

  const EMPTY := Estimator([], 0.0, 0.0, 0)

  ghost predicate Increasing(w: seq<Sample>) {
    forall i, j :: 0 <= i < j < |w| ==> w[i].time < w[j].time
  }

  function Last(w: seq<Sample>): Sample
    requires w != []
  {
    w[|w| - 1]
  }

  // ---- Sums ------------------------------------------------------------------

  function Total(a: seq<real>): real {
    if a == [] then 0.0 else Total(a[..|a| - 1]) + a[|a| - 1]
  }

  function Dot(a: seq<real>, b: seq<real>): real
    requires |a| == |b|
  {
    if a == [] then 0.0 else Dot(a[..|a| - 1], b[..|b| - 1]) + Product(a[|a| - 1], b[|b| - 1])
  }

  function Product(a: real, b: real): real {
    a * b
  }

  /** Times and offsets relative to the first sample of the window, less `mean`. */
  function Times(w: seq<Sample>, mean: real): (r: seq<real>)
    requires w != []
    ensures |r| == |w|
    ensures forall i :: 0 <= i < |w| ==> r[i] == (w[i].time - w[0].time) as real - mean
  {
    seq(|w|, i requires 0 <= i < |w| => (w[i].time - w[0].time) as real - mean)
  }

  function Offsets(w: seq<Sample>, mean: real): (r: seq<real>)
    requires w != []
    ensures |r| == |w|
    ensures forall i :: 0 <= i < |w| ==> r[i] == (w[i].offset - w[0].offset) as real - mean
  {
    seq(|w|, i requires 0 <= i < |w| => (w[i].offset - w[0].offset) as real - mean)
  }

  function MeanTime(w: seq<Sample>): real
    requires w != []
  {
    Total(Times(w, 0.0)) / |w| as real
  }

  function MeanOffset(w: seq<Sample>): real
    requires w != []
  {
    Total(Offsets(w, 0.0)) / |w| as real
  }

  function Variance(w: seq<Sample>): real
    requires w != []
  {
    Dot(Times(w, MeanTime(w)), Times(w, MeanTime(w)))
  }

  function Covariance(w: seq<Sample>): real
    requires w != []
  {
    Dot(Times(w, MeanTime(w)), Offsets(w, MeanOffset(w)))
  }

  function ClampSlope(x: real): (r: real)
    ensures -MAXIMUM_SLOPE <= r <= MAXIMUM_SLOPE
    ensures -MAXIMUM_SLOPE <= x <= MAXIMUM_SLOPE ==> r == x
    ensures x > MAXIMUM_SLOPE ==> r == MAXIMUM_SLOPE
    ensures x < -MAXIMUM_SLOPE ==> r == -MAXIMUM_SLOPE
  {
    if x < -MAXIMUM_SLOPE then -MAXIMUM_SLOPE else if x > MAXIMUM_SLOPE then MAXIMUM_SLOPE else x
  }

  function FitSlope(w: seq<Sample>): (m: real)
    requires w != []
    ensures -MAXIMUM_SLOPE <= m <= MAXIMUM_SLOPE
  {
    if Variance(w) > 0.0 then ClampSlope(Covariance(w) / Variance(w)) else 0.0
  }

  /** The line's value at the last sample: through the centroid of the window. */
  function FitAtLast(w: seq<Sample>, slope: real): real
    requires w != []
  {
    w[0].offset as real + MeanOffset(w) + slope * ((Last(w).time - w[0].time) as real - MeanTime(w))
  }

  // ---- The step ----------------------------------------------------------------

  function OffsetAt(e: Estimator, time: int): real {
    if e.samples == [] then 0.0 else e.fitted + e.slope * (time - Last(e.samples).time) as real
  }

  function Abs(x: real): (r: real)
    ensures r >= 0.0 && (r == x || r == -x)
  {
    if x < 0.0 then -x else x
  }

  predicate IsOutlier(e: Estimator, s: Sample)
    requires e.samples != []
  {
    var residual := Abs(s.offset as real - OffsetAt(e, s.time));
    var elapsed := (s.time - Last(e.samples).time) as real;
    residual > (if MINIMUM_LIMIT < elapsed * 0.001 then elapsed * 0.001 else MINIMUM_LIMIT)
  }

  predicate TooMuch(w: seq<Sample>, time: int) {
    |w| > MAXIMUM_SAMPLES || (|w| > 2 && time - w[0].time > WINDOW_NANOSECONDS)
  }

  function Trim(w: seq<Sample>, time: int): (r: seq<Sample>)
    ensures w != [] ==> r != []
  {
    if TooMuch(w, time) then Trim(w[1..], time) else w
  }

  /** The estimator after the window `w` was accepted. */
  function Refit(w: seq<Sample>, outliers: nat): Estimator
    requires w != []
  {
    if |w| < 2 then Estimator(w, 0.0, Last(w).offset as real, outliers)
    else Estimator(w, FitSlope(w), FitAtLast(w, FitSlope(w)), outliers)
  }

  /** The retained window and the outlier count after a sample; `None` when it was refused. */
  function NextWindow(w: seq<Sample>, outliers: nat, s: Sample, outlier: bool): (Option<seq<Sample>>, nat) {
    if |w| >= 4 && outlier then
      if outliers + 1 < 3 then (None, outliers + 1) else (Some([s]), 0)
    else (Some(Trim(w + [s], s.time)), 0)
  }

  function Add(e: Estimator, s: Sample): Result<Estimator> {
    if e.samples != [] && s.time <= Last(e.samples).time then Err
    else
      var (window, outliers) := NextWindow(e.samples, e.outliers, s, |e.samples| >= 4 && IsOutlier(e, s));
      TrimShape(e.samples + [s], s.time);
      Ok(if window.Some? then Refit(window.value, outliers) else e.(outliers := outliers))
  }

  lemma {:induction false} TrimShape(w: seq<Sample>, time: int)
    requires w != []
    ensures Trim(w, time) != [] && Last(Trim(w, time)) == Last(w)
    ensures !TooMuch(Trim(w, time), time)
    ensures |w| >= 2 ==> |Trim(w, time)| >= 2
    ensures |Trim(w, time)| <= |w| && Trim(w, time) == w[|w| - |Trim(w, time)|..]
    decreases |w|
  {
    if TooMuch(w, time) {
      TrimShape(w[1..], time);
      var t := Trim(w, time);
      assert w[1..][|w| - 1 - |t|..] == w[|w| - |t|..];
    }
  }

  // ---- Invariants over every run -------------------------------------------------

  ghost predicate WindowValid(w: seq<Sample>, outliers: nat) {
    && Increasing(w)
    && |w| <= MAXIMUM_SAMPLES
    && (|w| > 2 ==> Last(w).time - w[0].time <= WINDOW_NANOSECONDS)
    && outliers < 3
    && (|w| < 4 ==> outliers == 0)
  }

  ghost predicate Valid(e: Estimator) {
    && WindowValid(e.samples, e.outliers)
    && (e.samples != [] ==> e == Refit(e.samples, e.outliers))
  }

  /** Over any samples: the window stays strictly increasing, at most 32 long and, when longer
      than two, at most 120 s wide, and fewer than three outliers are pending. */
  lemma NextWindowValid(w: seq<Sample>, outliers: nat, s: Sample, outlier: bool)
    requires WindowValid(w, outliers) && (w != [] ==> Last(w).time < s.time)
    ensures var (window, count) := NextWindow(w, outliers, s, outlier);
            match window
            case Some(v) => v != [] && Last(v) == s && WindowValid(v, count)
            case None => WindowValid(w, count)
  {
    var v := w + [s];
    TrimShape(v, s.time);
    AppendIncreasing(w, s);
    SuffixIncreasing(v, |v| - |Trim(v, s.time)|);
  }

  lemma AppendIncreasing(w: seq<Sample>, s: Sample)
    requires Increasing(w) && (w != [] ==> Last(w).time < s.time)
    ensures Increasing(w + [s])
  {
    assert forall i :: 0 <= i < |w| - 1 ==> w[i].time < w[|w| - 1].time;
  }

  lemma SuffixIncreasing(w: seq<Sample>, k: nat)
    requires Increasing(w) && k <= |w|
    ensures Increasing(w[k..])
  {
  }

  lemma RefitIsRefit(w: seq<Sample>, outliers: nat, k: nat)
    requires w != []
    ensures var e := Refit(w, outliers); e.samples == w && e.outliers == outliers && e.(outliers := k) == Refit(w, k)
  {
  }

  /** ... and the published line is always the fit of exactly the retained window. */
  lemma AddKeepsValid(e: Estimator, s: Sample)
    requires Valid(e)
    ensures Add(e, s).Ok? <==> e.samples == [] || s.time > Last(e.samples).time
    ensures Add(e, s).Ok? ==> Valid(Add(e, s).value) && Add(e, s).value.samples != []
  {
    if Add(e, s).Ok? {
      var outlier := |e.samples| >= 4 && IsOutlier(e, s);
      NextWindowValid(e.samples, e.outliers, s, outlier);
      var (window, count) := NextWindow(e.samples, e.outliers, s, outlier);
      if window.Some? {
        RefitIsRefit(window.value, count, count);
      } else {
        RefitIsRefit(e.samples, e.outliers, count);
      }
    }
  }

  function AddAll(e: Estimator, ss: seq<Sample>): Result<Estimator> {
    if ss == [] then Ok(e)
    else
      var before := AddAll(e, ss[..|ss| - 1]);
      if before.Err? then Err else Add(before.value, Last(ss))
  }

  lemma {:induction false} AddAllKeepsValid(e: Estimator, ss: seq<Sample>)
    requires Valid(e)
    ensures AddAll(e, ss).Ok? ==> Valid(AddAll(e, ss).value)
  {
    if ss != [] {
      AddAllKeepsValid(e, ss[..|ss| - 1]);
      if AddAll(e, ss).Ok? {
        AddKeepsValid(AddAll(e, ss[..|ss| - 1]).value, Last(ss));
      }
    }
  }

  /** The offset lies above or below the published one by more than 5 ms and by more than a thousandth of the
      time since the last sample. */
  predicate FarOff(e: Estimator, s: Sample)
    requires e.samples != []
  {
    var deviation, elapsed := s.offset as real - OffsetAt(e, s.time), (s.time - Last(e.samples).time) as real;
    || (deviation > 5000000.0 && 1000.0 * deviation > elapsed)
    || (-deviation > 5000000.0 && -1000.0 * deviation > elapsed)
  }

  /** From four samples on, the window and the line are left alone if and only if the offset is far off and not
      the third such in a row; the third restarts from itself; any other sample joins the window. */
  lemma RefusedIffFarOff(e: Estimator, s: Sample)
    requires Valid(e) && |e.samples| >= 4 && Last(e.samples).time < s.time
    ensures Add(e, s).Ok?
    ensures var t := Add(e, s).value;
            && (FarOff(e, s) && e.outliers < 2 <==> t.samples == e.samples)
            && (FarOff(e, s) && e.outliers < 2 ==>
                  t.slope == e.slope && t.fitted == e.fitted && t.outliers == e.outliers + 1)
            && (FarOff(e, s) && e.outliers == 2 <==> t.samples == [s])
            && (FarOff(e, s) && e.outliers == 2 ==> t.slope == 0.0 && t.fitted == s.offset as real && t.outliers == 0)
            && (!FarOff(e, s) <==> |t.samples| >= 2 && Last(t.samples) == s)
            && (!FarOff(e, s) ==> t.outliers == 0)
  {
    FarOffIsOutlier(e, s);
    hide FarOff, IsOutlier, Refit;
    if IsOutlier(e, s) {
      OutlierStep(e, s);
    } else {
      AcceptedSample(e, s);
    }
  }

  lemma FarOffIsOutlier(e: Estimator, s: Sample)
    requires e.samples != [] && Last(e.samples).time < s.time
    ensures FarOff(e, s) <==> IsOutlier(e, s)
  {
    hide OffsetAt;
  }

  /** With fewer than four samples every newer sample joins the window. */
  lemma FewAcceptAll(e: Estimator, s: Sample)
    requires Valid(e) && |e.samples| < 4 && (e.samples != [] ==> Last(e.samples).time < s.time)
    ensures Add(e, s).Ok? && Add(e, s).value.samples != [] && Last(Add(e, s).value.samples) == s
    ensures Add(e, s).value.outliers == 0 && (|e.samples| >= 1 ==> |Add(e, s).value.samples| >= 2)
  {
    hide Refit, IsOutlier, FarOff, OffsetAt;
    if e.samples == [] {
      assert [] + [s] == [s];
      RefitIsRefit([s], 0, 0);
    } else {
      AcceptedSample(e, s);
    }
  }

  /** The window keeps all it may: any longer history would exceed 32 samples, or two samples and 120 s. */
  lemma {:induction false} TrimKeepsMost(w: seq<Sample>, time: int, k: nat)
    requires w != [] && k < |w| - |Trim(w, time)|
    ensures |w| - k > 32 || (|w| - k > 2 && time - w[k].time > 120_000_000_000)
    decreases |w|
  {
    if TooMuch(w, time) && k > 0 {
      TrimKeepsMost(w[1..], time, k - 1);
    }
  }

  /** An outlier leaves the line alone, except that the third in a row restarts tracking from
      itself. */
  lemma OutlierStep(e: Estimator, s: Sample)
    requires Valid(e) && |e.samples| >= 4 && Last(e.samples).time < s.time && IsOutlier(e, s)
    ensures Add(e, s) == Ok(if e.outliers < 2 then e.(outliers := e.outliers + 1)
                            else Estimator([s], 0.0, s.offset as real, 0))
  {
  }

  lemma ThirdOutlierRestarts(e: Estimator, a: Sample, b: Sample, c: Sample)
    requires Valid(e) && |e.samples| >= 4 && e.outliers == 0
    requires Last(e.samples).time < a.time && Last(e.samples).time < b.time && Last(e.samples).time < c.time
    requires IsOutlier(e, a) && IsOutlier(e, b) && IsOutlier(e, c)
    ensures AddAll(e, [a, b]) == Ok(e.(outliers := 2))
    ensures AddAll(e, [a, b, c]) == Ok(Estimator([c], 0.0, c.offset as real, 0))
  {
    hide IsOutlier, Refit, Add;
    var e1, e2 := e.(outliers := 1), e.(outliers := 2);
    OutlierStep(e, a);
    AddKeepsValid(e, a);
    OutlierIgnoresCount(e, 1, b);
    OutlierIgnoresCount(e, 2, c);
    OutlierStep(e1, b);
    AddKeepsValid(e1, b);
    OutlierStep(e2, c);
    AddTwo(e, a, b);
    AddAllStep(e, [a, b], c);
    assert [a, b] + [c] == [a, b, c];
  }

  lemma OutlierIgnoresCount(e: Estimator, k: nat, s: Sample)
    requires e.samples != []
    ensures IsOutlier(e.(outliers := k), s) == IsOutlier(e, s)
  {
  }

  lemma AddTwo(e: Estimator, a: Sample, b: Sample)
    requires Add(e, a).Ok?
    ensures AddAll(e, [a, b]) == Add(Add(e, a).value, b)
  {
    AddAllStep(e, [], a);
    AddAllStep(e, [a], b);
    assert [] + [a] == [a] && [a] + [b] == [a, b];
  }

  lemma AddAllStep(e: Estimator, ss: seq<Sample>, s: Sample)
    requires AddAll(e, ss).Ok?
    ensures AddAll(e, ss + [s]) == Add(AddAll(e, ss).value, s)
  {
    assert (ss + [s])[..|ss|] == ss;
  }

  // ---- Least squares -----------------------------------------------------------------

  /** Residuals against the line with value `a` at time `at` and slope `m`. */
  function Residuals(w: seq<Sample>, a: real, m: real, at: int): (r: seq<real>)
    ensures |r| == |w|
    ensures forall i :: 0 <= i < |w| ==> r[i] == w[i].offset as real - (a + m * (w[i].time - at) as real)
  {
    seq(|w|, i requires 0 <= i < |w| => w[i].offset as real - (a + m * (w[i].time - at) as real))
  }

  function SquaredError(w: seq<Sample>, a: real, m: real, at: int): real {
    Dot(Residuals(w, a, m, at), Residuals(w, a, m, at))
  }

  lemma Distribute(k: real, a: real, b: real)
    ensures k * (a + b) == k * a + k * b
  {
  }

  lemma SquaredResidual(x: real, y: real, m: real, e: real, r: real)
    requires r == y - m * x - e
    ensures r * r == y * y - 2.0 * m * (x * y) + m * m * (x * x) - 2.0 * e * y + 2.0 * e * m * x + e * e
  {
  }

  /** The squared error as a quadratic in slope and vertical shift `e` from the centroid line. */
  function Quadratic(syy: real, sxy: real, sxx: real, cy: real, cx: real, n: real, m: real, e: real): real {
    syy - 2.0 * m * sxy + m * m * sxx - 2.0 * e * cy + 2.0 * e * m * cx + e * e * n
  }

  lemma QuadraticStep(syy: real, sxy: real, sxx: real, cy: real, cx: real, n: real, m: real, e: real, x: real, y: real,
                      r: real)
    requires r == y - m * x - e
    ensures Quadratic(syy + Product(y, y), sxy + Product(x, y), sxx + Product(x, x), cy + y, cx + x, n + 1.0, m, e)
            == Quadratic(syy, sxy, sxx, cy, cx, n, m, e) + Product(r, r)
  {
    SquaredResidual(x, y, m, e, r);
    Distribute(2.0 * m, sxy, x * y);
    Distribute(m * m, sxx, x * x);
    Distribute(2.0 * e, cy, y);
    Distribute(2.0 * e * m, cx, x);
    Distribute(e * e, n, 1.0);
  }

  lemma QuadraticOfNothing(m: real, e: real)
    ensures Quadratic(0.0, 0.0, 0.0, 0.0, 0.0, 0.0, m, e) == 0.0
  {
  }

  lemma {:induction false} DotIsQuadratic(r: seq<real>, x: seq<real>, y: seq<real>, m: real, e: real)
    requires |r| == |x| == |y|
    requires forall i :: 0 <= i < |r| ==> r[i] == y[i] - m * x[i] - e
    ensures Dot(r, r) == Quadratic(Dot(y, y), Dot(x, y), Dot(x, x), Total(y), Total(x), |r| as real, m, e)
  {
    hide Quadratic, Product;
    if r == [] {
      QuadraticOfNothing(m, e);
    } else {
      var k := |r| - 1;
      DotIsQuadratic(r[..k], x[..k], y[..k], m, e);
      QuadraticStep(Dot(y[..k], y[..k]), Dot(x[..k], y[..k]), Dot(x[..k], x[..k]), Total(y[..k]), Total(x[..k]),
                    k as real, m, e, x[k], y[k], r[k]);
      assert |r| as real == k as real + 1.0;
    }
  }

  lemma {:induction false} DotDominates(a: seq<real>, i: nat)
    requires i < |a|
    ensures Dot(a, a) >= a[i] * a[i]
  {
    var k := |a| - 1;
    DotNonNegative(a[..k]);
    if i < k {
      DotDominates(a[..k], i);
    }
  }

  lemma {:induction false} DotNonNegative(a: seq<real>)
    ensures Dot(a, a) >= 0.0
  {
    if a != [] {
      DotNonNegative(a[..|a| - 1]);
    }
  }

  lemma OneSquarePositive(p: real, q: real)
    requires p < q
    ensures p * p > 0.0 || q * q > 0.0
  {
  }

  /** Two distinct times are enough for the division to be defined. */
  lemma VariancePositive(w: seq<Sample>)
    requires Increasing(w) && |w| >= 2
    ensures Variance(w) > 0.0
  {
    var t := Times(w, MeanTime(w));
    DotDominates(t, 0);
    DotDominates(t, |w| - 1);
    OneSquarePositive(t[0], t[|w| - 1]);
  }

  /** Subtracting the mean leaves a sum of zero. */
  lemma {:induction false} ShiftedTotal(a: seq<real>, b: seq<real>, c: real)
    requires |a| == |b| && forall i :: 0 <= i < |a| ==> b[i] == a[i] - c
    ensures Total(b) == Total(a) - |a| as real * c
  {
    if a != [] {
      var k := |a| - 1;
      ShiftedTotal(a[..k], b[..k], c);
      assert |a| as real * c == k as real * c + c;
    }
  }

  lemma CentredTotals(w: seq<Sample>)
    requires w != []
    ensures Total(Times(w, MeanTime(w))) == 0.0 && Total(Offsets(w, MeanOffset(w))) == 0.0
  {
    hide Total;
    ShiftedTotal(Times(w, 0.0), Times(w, MeanTime(w)), MeanTime(w));
    ShiftedTotal(Offsets(w, 0.0), Offsets(w, MeanOffset(w)), MeanOffset(w));
    MeanTimesCount(Total(Times(w, 0.0)), |w| as real);
    MeanTimesCount(Total(Offsets(w, 0.0)), |w| as real);
  }

  lemma MeanTimesCount(total: real, n: real)
    requires n > 0.0
    ensures n * (total / n) == total
  {
  }

  lemma ResidualInCentredTerms(s: Sample, first: Sample, mx: real, my: real, a: real, m: real, at: int, e: real)
    requires e == a - (first.offset as real + my + m * ((at - first.time) as real - mx))
    ensures s.offset as real - (a + m * (s.time - at) as real)
            == ((s.offset - first.offset) as real - my) - m * ((s.time - first.time) as real - mx) - e
  {
    var p, q := (at - first.time) as real - mx, (s.time - at) as real;
    assert (s.time - first.time) as real - mx == p + q;
    Distribute(m, p, q);
  }

  /** Distance from the line to the centroid, measured vertically. */
  function Shift(w: seq<Sample>, a: real, m: real): real
    requires w != []
  {
    a - FitAtLast(w, m)
  }

  /** Every line's error splits into a part for its slope and a part for missing the centroid. */
  lemma ErrorSplits(w: seq<Sample>, a: real, m: real)
    requires w != []
    ensures var e := Shift(w, a, m);
            var y := Offsets(w, MeanOffset(w));
            SquaredError(w, a, m, Last(w).time)
            == Dot(y, y) + Loss(Covariance(w), Variance(w), m) + Miss(e, |w| as real)
  {
    hide Dot, Total, Quadratic, Loss, Miss, FitAtLast, Shift, MeanTime, MeanOffset;
    var e := Shift(w, a, m);
    var x, y, r := Times(w, MeanTime(w)), Offsets(w, MeanOffset(w)), Residuals(w, a, m, Last(w).time);
    forall i | 0 <= i < |w|
      ensures r[i] == y[i] - m * x[i] - e
    {
      ShiftIs(w, a, m);
      ResidualInCentredTerms(w[i], w[0], MeanTime(w), MeanOffset(w), a, m, Last(w).time, e);
    }
    DotIsQuadratic(r, x, y, m, e);
    CentredTotals(w);
    QuadraticAtCentroid(Dot(y, y), Covariance(w), Variance(w), |w| as real, m, e);
  }

  lemma ShiftIs(w: seq<Sample>, a: real, m: real)
    requires w != []
    ensures Shift(w, a, m)
            == a - (w[0].offset as real + MeanOffset(w) + m * ((Last(w).time - w[0].time) as real - MeanTime(w)))
  {
  }

  lemma QuadraticAtCentroid(syy: real, sxy: real, sxx: real, n: real, m: real, e: real)
    ensures Quadratic(syy, sxy, sxx, 0.0, 0.0, n, m, e) == syy + Loss(sxy, sxx, m) + Miss(e, n)
  {
  }

  /** The price of passing the centroid at vertical distance `e`. */
  function Miss(e: real, n: real): real {
    Product(Product(e, e), n)
  }

  /** The part of the error that depends on the slope. */
  function Loss(sxy: real, sxx: real, m: real): real {
    m * m * sxx - 2.0 * m * sxy
  }

  /** On an interval a parabola is least at the clamped vertex. */
  lemma ClampedVertex(sxy: real, sxx: real, m: real)
    requires sxx > 0.0 && -MAXIMUM_SLOPE <= m <= MAXIMUM_SLOPE
    ensures var s := ClampSlope(sxy / sxx);
            Loss(sxy, sxx, s) <= Loss(sxy, sxx, m) && (m != s ==> Loss(sxy, sxx, s) < Loss(sxy, sxx, m))
  {
    hide ClampSlope, Loss;
    var v := sxy / sxx;
    var s := ClampSlope(v);
    assert v * sxx == sxy;
    var a, b := m - s, m + s - 2.0 * v;
    LossDifference(m, s, v, sxx, sxy, a, b);
    if m > s {
      ProductPositive(a, b, sxx);
    } else if m < s {
      ProductPositive(-a, -b, sxx);
      assert (-a) * (-b) == a * b;
    }
  }

  lemma LossDifference(m: real, s: real, v: real, k: real, p: real, a: real, b: real)
    requires v * k == p && a == m - s && b == m + s - 2.0 * v
    ensures Loss(p, k, m) - Loss(p, k, s) == a * b * k
  {
    FactorDifference(m, s, v, k, p);
  }

  lemma FactorDifference(m: real, s: real, v: real, k: real, p: real)
    requires v * k == p
    ensures (m * m * k - 2.0 * m * p) - (s * s * k - 2.0 * s * p) == (m - s) * (m + s - 2.0 * v) * k
  {
    var q := (m - s) * (m + s - 2.0 * v);
    assert q == m * m - s * s - 2.0 * (m - s) * v;
    assert q * k == m * m * k - s * s * k - 2.0 * (m - s) * v * k;
    assert (m - s) * v * k == (m - s) * (v * k);
    assert 2.0 * (m - s) * p == 2.0 * m * p - 2.0 * s * p;
  }

  lemma ProductPositive(a: real, b: real, k: real)
    requires a > 0.0 && b > 0.0 && k > 0.0
    ensures a * b * k > 0.0
  {
    assert a * b > 0.0;
  }

  /** The published line is the least-squares line of the window among all lines of slope at
      most 2000 ppm, and the only one: clamping the slope and then passing through the centroid
      is jointly optimal. */
  lemma FitIsLeastSquares(w: seq<Sample>, outliers: nat, a: real, m: real)
    requires Increasing(w) && |w| >= 2 && -MAXIMUM_SLOPE <= m <= MAXIMUM_SLOPE
    ensures var e := Refit(w, outliers);
            && SquaredError(w, e.fitted, e.slope, Last(w).time) <= SquaredError(w, a, m, Last(w).time)
            && (m != e.slope || a != e.fitted ==>
                  SquaredError(w, e.fitted, e.slope, Last(w).time) < SquaredError(w, a, m, Last(w).time))
  {
    hide SquaredError, Variance, Covariance, FitAtLast, ClampSlope, Dot, Loss, Miss, Shift;
    var e := Refit(w, outliers);
    VariancePositive(w);
    ErrorSplits(w, a, m);
    ErrorSplits(w, e.fitted, e.slope);
    ClampedVertex(Covariance(w), Variance(w), m);
    var shift := Shift(w, a, m);
    MissIsPositive(shift, |w| as real);
    MissIsPositive(Shift(w, e.fitted, e.slope), |w| as real);
    ShiftOfFit(w, a, m);
    ShiftOfFit(w, e.fitted, e.slope);
  }

  lemma ShiftOfFit(w: seq<Sample>, a: real, m: real)
    requires w != []
    ensures Shift(w, a, m) == 0.0 <==> a == FitAtLast(w, m)
  {
    hide FitAtLast;
  }

  lemma MissIsPositive(e: real, n: real)
    requires n > 0.0
    ensures if e == 0.0 then Miss(e, n) == 0.0 else Miss(e, n) > 0.0
  {
    hide Product;
    SquareSign(e);
    ProductSign(Product(e, e), n);
  }

  lemma SquareSign(e: real)
    ensures if e == 0.0 then Product(e, e) == 0.0 else Product(e, e) > 0.0
  {
    if e > 0.0 {
      ProductSign(e, e);
    } else if e < 0.0 {
      ProductSign(-e, -e);
      assert Product(-e, -e) == Product(e, e);
    }
  }

  lemma ProductSign(a: real, b: real)
    requires a >= 0.0 && b > 0.0
    ensures if a == 0.0 then Product(a, b) == 0.0 else Product(a, b) > 0.0
  {
  }

  // ---- A linear host clock ---------------------------------------------------------------

  /** The host's offset at a time of the client. */
  function TrueAt(a: real, b: real, time: int): real {
    a + b * time as real
  }

  /** The offset is within `d` of the truth: rounding, or the noise of the exchange. */
  predicate Near(s: Sample, a: real, b: real, d: real) {
    Abs(s.offset as real - TrueAt(a, b, s.time)) <= d
  }

  ghost predicate NearLine(w: seq<Sample>, a: real, b: real, d: real) {
    forall i :: 0 <= i < |w| ==> Near(w[i], a, b, d)
  }

  ghost predicate Spaced(w: seq<Sample>, gap: real) {
    forall i :: 0 < i < |w| ==> (w[i].time - w[i - 1].time) as real >= gap
  }

  lemma SquareAtMost(x: real, d: real)
    requires Abs(x) <= d
    ensures x * x <= d * d
  {
    var y := Abs(x);
    assert y * y == x * x;
    assert y * y <= y * d;
    assert y * d <= d * d;
  }

  lemma SquareIsPositive(x: real)
    ensures x * x >= 0.0
  {
    if x < 0.0 {
      assert x * x == (-x) * (-x);
    }
  }

  lemma PositiveProduct(p: real, q: real)
    requires p > 0.0 && q > 0.0
    ensures p * q > 0.0
  {
  }

  lemma SquareGrows(d: real, y: real)
    requires 0.0 <= d < y
    ensures d * d < y * y
  {
    PositiveProduct(y - d, y + d);
    assert y * y - d * d == (y - d) * (y + d);
  }

  lemma RootAtMost(x: real, d: real)
    requires x * x <= d * d && d >= 0.0
    ensures Abs(x) <= d
  {
    assert Abs(x) * Abs(x) == x * x;
    if Abs(x) > d {
      SquareGrows(d, Abs(x));
    }
  }

  /** What `n` squares of at most `d` each come to. */
  function NoiseLimit(n: nat, d: real): real {
    n as real * (d * d)
  }

  lemma {:induction false} DotBounded(r: seq<real>, d: real)
    requires forall i :: 0 <= i < |r| ==> Abs(r[i]) <= d
    ensures Dot(r, r) <= NoiseLimit(|r|, d)
  {
    if r != [] {
      var k := |r| - 1;
      DotBounded(r[..k], d);
      SquareAtMost(r[k], d);
      assert |r| as real * (d * d) == k as real * (d * d) + d * d;
    }
  }

  lemma {:induction false} TotalBounded(x: seq<real>, low: real, high: real)
    requires forall i :: 0 <= i < |x| ==> low <= x[i] <= high
    ensures |x| as real * low <= Total(x) <= |x| as real * high
  {
    if x != [] {
      var k := |x| - 1;
      TotalBounded(x[..k], low, high);
      assert |x| as real * low == k as real * low + low && |x| as real * high == k as real * high + high;
    }
  }

  lemma {:induction false} DotDominatesTwo(x: seq<real>)
    requires |x| >= 2
    ensures Dot(x, x) >= x[0] * x[0] + x[|x| - 1] * x[|x| - 1]
  {
    var k := |x| - 1;
    DotDominates(x[..k], 0);
  }

  function Span(w: seq<Sample>): real
    requires w != []
  {
    (Last(w).time - w[0].time) as real
  }

  lemma HalfSquare(p: real, q: real)
    ensures 2.0 * (p * p + q * q) >= (q - p) * (q - p)
  {
    assert 2.0 * (p * p + q * q) - (q - p) * (q - p) == (q + p) * (q + p);
    SquareIsPositive(q + p);
  }

  lemma VarianceOfSpan(w: seq<Sample>)
    requires |w| >= 2
    ensures 2.0 * Variance(w) >= Span(w) * Span(w)
  {
    hide Dot, MeanTime;
    var x := Times(w, MeanTime(w));
    DotDominatesTwo(x);
    HalfSquare(x[0], x[|w| - 1]);
    assert x[|w| - 1] - x[0] == Span(w);
  }

  lemma FromTheLine(s: Sample, a: real, b: real, at: int)
    ensures TrueAt(a, b, at) + b * (s.time - at) as real == TrueAt(a, b, s.time)
  {
    Distribute(b, at as real, (s.time - at) as real);
  }

  /** The true line's squared error is at most that of its noise. */
  lemma NoiseError(w: seq<Sample>, a: real, b: real, d: real, at: int)
    requires NearLine(w, a, b, d)
    ensures SquaredError(w, TrueAt(a, b, at), b, at) <= NoiseLimit(|w|, d)
  {
    hide Dot, Abs, NoiseLimit, TrueAt;
    var r := Residuals(w, TrueAt(a, b, at), b, at);
    forall i | 0 <= i < |r|
      ensures Abs(r[i]) <= d
    {
      FromTheLine(w[i], a, b, at);
      assert Near(w[i], a, b, d);
    }
    hide NearLine;
    DotBounded(r, d);
  }

  /** Projecting on an interval brings the vertex closer to everything in it. */
  lemma ClampedIsCloser(sxy: real, sxx: real, b: real)
    requires sxx > 0.0 && -MAXIMUM_SLOPE <= b <= MAXIMUM_SLOPE
    ensures var s := ClampSlope(sxy / sxx);
            Product(Product(s - b, s - b), sxx) <= Loss(sxy, sxx, b) - Loss(sxy, sxx, s)
  {
    hide ClampSlope, Loss;
    var v := sxy / sxx;
    var s := ClampSlope(v);
    assert v * sxx == sxy;
    LossDifference(b, s, v, sxx, sxy, b - s, b + s - 2.0 * v);
    ObtuseAngle(b, s, v);
    ScaleOrder((s - b) * (s - b), (b - s) * (b + s - 2.0 * v), sxx);
  }

  lemma ObtuseAngle(b: real, s: real, v: real)
    requires -MAXIMUM_SLOPE <= b <= MAXIMUM_SLOPE && s == ClampSlope(v)
    ensures (s - b) * (s - b) <= (b - s) * (b + s - 2.0 * v)
  {
    var p, q := b - s, s - v;
    assert (p >= 0.0 && q >= 0.0) || (p <= 0.0 && q <= 0.0) || p == 0.0 || q == 0.0;
    SameSign(p, q);
    assert (b - s) * (b + s - 2.0 * v) == p * p + 2.0 * (p * q);
    assert (s - b) * (s - b) == p * p;
  }

  lemma SameSign(p: real, q: real)
    requires (p >= 0.0 && q >= 0.0) || (p <= 0.0 && q <= 0.0) || p == 0.0 || q == 0.0
    ensures p * q >= 0.0
  {
    if p < 0.0 && q < 0.0 {
      assert p * q == (-p) * (-q);
    }
  }

  lemma ScaleOrder(p: real, q: real, k: real)
    requires p <= q && k > 0.0
    ensures p * k <= q * k
  {
  }

  /** How far the fit is from the true line, in all: the slope's part and the part at the centroid. */
  lemma FitIsNear(w: seq<Sample>, a: real, b: real, d: real)
    requires Increasing(w) && |w| >= 2 && NearLine(w, a, b, d) && -MAXIMUM_SLOPE <= b <= MAXIMUM_SLOPE
    ensures var off, value := FitSlope(w) - b, TrueAt(a, b, Last(w).time);
            Product(Product(off, off), Variance(w)) + Miss(Shift(w, value, b), |w| as real) <= NoiseLimit(|w|, d)
  {
    var slope, at := FitSlope(w), Last(w).time;
    VariancePositive(w);
    NoiseError(w, a, b, d, at);
    var value := TrueAt(a, b, at);
    hide TrueAt, SquaredError, Variance, Covariance, FitAtLast, ClampSlope, Dot, Loss, Miss, Shift, NearLine,
         NoiseLimit, Product;
    ErrorSplits(w, value, b);
    ErrorSplits(w, FitAtLast(w, slope), slope);
    ErrorIsPositive(w, FitAtLast(w, slope), slope, at);
    ShiftOfFit(w, FitAtLast(w, slope), slope);
    MissIsPositive(Shift(w, FitAtLast(w, slope), slope), |w| as real);
    ClampedIsCloser(Covariance(w), Variance(w), b);
  }

  lemma ErrorIsPositive(w: seq<Sample>, a: real, m: real, at: int)
    ensures SquaredError(w, a, m, at) >= 0.0
  {
    DotNonNegative(Residuals(w, a, m, at));
  }

  lemma SquaresAreSmall(p: real, v: real, q: real, n: real, r: real, t: real)
    requires p >= 0.0 && q >= 0.0 && r >= 0.0 && t >= 0.0 && 0.0 < n <= 32.0 && 2.0 * v >= t
    requires p * v + q * n <= n * r
    ensures q <= r && p * t <= 64.0 * r
  {
    ScaleUp(p, 0.0, v);
    ScaleUp(q, 0.0, n);
    CancelFactor(q, r, n);
    ScaleUp(r, n, 32.0);
    ScaleUp(p, t, 2.0 * v);
    assert p * (2.0 * v) == 2.0 * (p * v);
    assert q * n >= 0.0 && n * r == r * n;
    assert p * v <= 32.0 * r;
  }

  lemma PartsAreSmall(off: real, v: real, e: real, n: nat, d: real, span: real)
    requires Product(Product(off, off), v) + Miss(e, n as real) <= NoiseLimit(n, d) && 2.0 * v >= span * span
    requires 0 < n <= 32 && d >= 0.0 && span >= 0.0
    ensures Abs(e) <= d && Abs(off * span) <= 8.0 * d
  {
    SquareIsPositive(off);
    SquareIsPositive(e);
    SquareIsPositive(d);
    SquareIsPositive(span);
    SquaresAreSmall(off * off, v, e * e, n as real, d * d, span * span);
    RootAtMost(e, d);
    SquareOfProduct(off, span);
    SquareOfProduct(8.0, d);
    RootAtMost(off * span, 8.0 * d);
  }

  lemma SquareOfProduct(x: real, y: real)
    ensures (x * y) * (x * y) == (x * x) * (y * y)
  {
    var z := x * y;
    assert z * z == x * (y * z);
    assert y * z == x * (y * y);
    assert x * (x * (y * y)) == (x * x) * (y * y);
  }

  lemma ScaleUp(k: real, x: real, y: real)
    requires k >= 0.0 && x <= y
    ensures k * x <= k * y
  {
  }

  lemma ScaleStrictly(x: real, y: real, n: real)
    requires x > y && n > 0.0
    ensures x * n > n * y
  {
    PositiveProduct(x - y, n);
    assert x * n - n * y == (x - y) * n;
  }

  lemma CancelFactor(x: real, y: real, n: real)
    requires x * n <= n * y && n > 0.0
    ensures x <= y
  {
    if x > y {
      ScaleStrictly(x, y, n);
    }
  }

  /** The fitted slope is near the true one, and the centroid near the true line. */
  lemma FitIsClose(w: seq<Sample>, a: real, b: real, d: real)
    requires Increasing(w) && 2 <= |w| <= MAXIMUM_SAMPLES && NearLine(w, a, b, d)
    requires -MAXIMUM_SLOPE <= b <= MAXIMUM_SLOPE && d >= 0.0
    ensures Abs((FitSlope(w) - b) * Span(w)) <= 8.0 * d
    ensures Abs(Shift(w, TrueAt(a, b, Last(w).time), b)) <= d
  {
    hide Variance, FitSlope, Shift, Abs, Miss, NoiseLimit, Product, NearLine, TrueAt;
    var value := TrueAt(a, b, Last(w).time);
    FitIsNear(w, a, b, d);
    VarianceOfSpan(w);
    PartsAreSmall(FitSlope(w) - b, Variance(w), Shift(w, value, b), |w|, d, Span(w));
  }

  lemma MeanWithinSpan(w: seq<Sample>)
    requires Increasing(w) && w != []
    ensures 0.0 <= MeanTime(w) <= Span(w)
  {
    hide Total;
    var x, n := Times(w, 0.0), |w| as real;
    TotalBounded(x, 0.0, Span(w));
    MeanTimesCount(Total(x), n);
    CancelFactor(MeanTime(w), Span(w), n);
    CancelFactor(-MeanTime(w), 0.0, n);
  }

  /** What is published differs from the truth by the slope's error since the mean time and by the
      centroid's. */
  lemma ErrorAt(w: seq<Sample>, outliers: nat, a: real, b: real, time: int)
    requires |w| >= 2
    ensures OffsetAt(Refit(w, outliers), time) - TrueAt(a, b, time)
            == (FitSlope(w) - b) * ((time - w[0].time) as real - MeanTime(w))
               - Shift(w, TrueAt(a, b, Last(w).time), b)
  {
    hide MeanTime, MeanOffset, FitSlope;
    var slope, at := FitSlope(w), Last(w).time;
    var x, g := (at - w[0].time) as real - MeanTime(w), (time - at) as real;
    ShiftIs(w, TrueAt(a, b, at), b);
    Distribute(b, at as real, g);
    Distribute(slope - b, x, g);
    assert (slope - b) * x == slope * x - b * x && (slope - b) * g == slope * g - b * g;
  }

  lemma SlopePart(off: real, d: real, span: real, g: real, y: real)
    requires Abs(off * span) <= 8.0 * d && span >= 0.0 && 0.0 <= y <= span + g
    ensures Abs(off * y) * span <= 8.0 * d * span + 8.0 * d * g
  {
    hide Abs;
    assert off * y * span == off * span * y;
    AbsTimes(off * y, span);
    ScaleAbs(off * span, y, 8.0 * d);
    ScaleUp(8.0 * d, y, span + g) by { AbsIsPositive(off * span); }
    Distribute(8.0 * d, span, g);
  }

  lemma AbsIsPositive(x: real)
    ensures Abs(x) >= 0.0
  {
  }

  lemma ErrorOverSpan(off: real, e: real, d: real, span: real, g: real, y: real)
    requires Abs(off * span) <= 8.0 * d && Abs(e) <= d && span >= 0.0 && 0.0 <= y <= span + g
    ensures Abs(off * y - e) * span <= 9.0 * d * span + 8.0 * d * g
  {
    SlopePart(off, d, span, g, y);
    PartsAdd(off * y, e, d, span, 8.0 * d * span + 8.0 * d * g);
  }

  lemma PartsAdd(z: real, e: real, d: real, span: real, limit: real)
    requires Abs(z) * span <= limit && Abs(e) <= d && span >= 0.0
    ensures Abs(z - e) * span <= limit + d * span
  {
    assert Abs(z - e) <= Abs(z) + d;
    ScaleOrderUp(Abs(z - e), Abs(z) + d, span);
  }

  lemma ScaleOrderUp(p: real, q: real, k: real)
    requires p <= q && k >= 0.0
    ensures p * k <= q * k
  {
    ScaleUp(k, p, q);
  }

  lemma AbsTimes(z: real, k: real)
    requires k >= 0.0
    ensures Abs(z) * k == Abs(z * k)
  {
    ScaleUp(k, 0.0, Abs(z));
  }

  lemma ScaleAbs(x: real, y: real, limit: real)
    requires Abs(x) <= limit && y >= 0.0
    ensures Abs(x * y) <= limit * y
  {
    AbsTimes(x, y);
    ScaleOrderUp(Abs(x), limit, y);
  }

  /** From the newest sample on the error is at most nine times the noise, and eight times more for every
      width of the window that has passed since. */
  lemma NearClockError(w: seq<Sample>, outliers: nat, a: real, b: real, d: real, time: int)
    requires Increasing(w) && 2 <= |w| <= MAXIMUM_SAMPLES && NearLine(w, a, b, d) && Last(w).time <= time
    requires -MAXIMUM_SLOPE <= b <= MAXIMUM_SLOPE && d >= 0.0
    ensures var error := OffsetAt(Refit(w, outliers), time) - TrueAt(a, b, time);
            Abs(error) * Span(w) <= 9.0 * d * Span(w) + 8.0 * d * (time - Last(w).time) as real
  {
    hide OffsetAt, Refit, FitSlope, Shift, MeanTime, NearLine, Abs, TrueAt;
    FitIsClose(w, a, b, d);
    MeanWithinSpan(w);
    ErrorAt(w, outliers, a, b, time);
    ErrorOverSpan(FitSlope(w) - b, Shift(w, TrueAt(a, b, Last(w).time), b), d, Span(w),
                  (time - Last(w).time) as real, (time - w[0].time) as real - MeanTime(w));
  }

  /** A window that is wide against the noise lets no sample near the line be taken for an outlier. */
  lemma NearIsNoOutlier(e: Estimator, s: Sample, a: real, b: real, d: real)
    requires Valid(e) && |e.samples| >= 2 && NearLine(e.samples, a, b, d) && Last(e.samples).time < s.time
    requires Near(s, a, b, d) && 0.0 <= d <= 250_000.0
    requires -MAXIMUM_SLOPE <= b <= MAXIMUM_SLOPE && Span(e.samples) >= 16_000.0 * d
    ensures !IsOutlier(e, s)
  {
    hide OffsetAt, Refit, NearLine, TrueAt;
    NearClockError(e.samples, e.outliers, a, b, d, s.time);
    SpanIsPositive(e.samples);
    hide Span, Valid;
    var g := (s.time - Last(e.samples).time) as real;
    var error := OffsetAt(e, s.time) - TrueAt(a, b, s.time);
    WideIsAccurate(Abs(error), d, Span(e.samples), g);
  }

  lemma SpanIsPositive(w: seq<Sample>)
    requires Increasing(w) && |w| >= 2
    ensures Span(w) > 0.0
  {
  }

  lemma WideIsAccurate(error: real, d: real, span: real, g: real)
    requires error * span <= 9.0 * d * span + 8.0 * d * g && span > 0.0 && span >= 16_000.0 * d && g >= 0.0 && d >= 0.0
    ensures error <= 9.0 * d + g / 2000.0
  {
    ScaleOrderUp(8.0 * d, span / 2000.0, g);
    assert span / 2000.0 * g == g / 2000.0 * span;
    assert (9.0 * d + g / 2000.0) * span == 9.0 * d * span + g / 2000.0 * span;
    CancelFactor(error, 9.0 * d + g / 2000.0, span);
  }

  /** Nothing was refused: the window is the newest part of what was measured. */
  ghost predicate Tracking(e: Estimator, ss: seq<Sample>) {
    && Valid(e) && e.outliers == 0 && e.samples != [] && |e.samples| <= |ss|
    && e.samples == ss[|ss| - |e.samples|..] && (|ss| >= 2 ==> |e.samples| >= 2)
  }

  /** A host clock that runs at a constant rate within 2000 ppm of the client's, measured with errors of at
      most `d`, up to a quarter of a millisecond, at least 6000 times that apart: over every run no sample is
      ever taken for an outlier. */
  lemma {:induction false} LinearClockIsTracked(ss: seq<Sample>, a: real, b: real, d: real)
    requires Increasing(ss) && NearLine(ss, a, b, d) && Spaced(ss, 6000.0 * d) && ss != []
    requires -MAXIMUM_SLOPE <= b <= MAXIMUM_SLOPE && 0.0 <= d <= 250_000.0
    ensures AddAll(EMPTY, ss).Ok? && Tracking(AddAll(EMPTY, ss).value, ss)
  {
    hide Refit, IsOutlier, Add, Valid, Increasing, NearLine, Spaced, Tracking;
    var before, s := ss[..|ss| - 1], Last(ss);
    assert before + [s] == ss;
    if before == [] {
      FirstSample(s);
      assert ss == [s];
    } else {
      PrefixNear(before, s, a, b, d, 6000.0 * d);
      LinearClockIsTracked(before, a, b, d);
      TrackingStep(AddAll(EMPTY, before).value, before, s, a, b, d);
    }
  }

  /** Rounding to whole nanoseconds is within these bounds, so from two samples on the published offset of
      such a clock stays near the true one: within nine times the errors of the samples, and eight times more
      for every width of the window since the newest. */
  lemma LinearClockError(ss: seq<Sample>, a: real, b: real, d: real, time: int)
    requires Increasing(ss) && NearLine(ss, a, b, d) && Spaced(ss, 6000.0 * d) && |ss| >= 2 && Last(ss).time <= time
    requires -MAXIMUM_SLOPE <= b <= MAXIMUM_SLOPE && 0.0 <= d <= 250_000.0
    ensures AddAll(EMPTY, ss).Ok? && |AddAll(EMPTY, ss).value.samples| >= 2
    ensures var e := AddAll(EMPTY, ss).value;
            && Last(e.samples) == Last(ss)
            && Abs(OffsetAt(e, time) - TrueAt(a, b, time)) * Span(e.samples)
               <= 9.0 * d * Span(e.samples) + 8.0 * d * (time - Last(ss).time) as real
  {
    hide OffsetAt, Refit, AddAll, Abs;
    LinearClockIsTracked(ss, a, b, d);
    var e := AddAll(EMPTY, ss).value;
    SuffixNearLine(ss, |ss| - |e.samples|, a, b, d);
    NearClockError(e.samples, e.outliers, a, b, d, time);
  }

  ghost predicate OnLine(w: seq<Sample>, a: real, b: real) {
    forall i :: 0 <= i < |w| ==> w[i].offset as real == a + b * w[i].time as real
  }

  /** Without errors the published offset is the true one at all times, whatever the spacing. */
  lemma LinearClockIsExact(ss: seq<Sample>, a: real, b: real, time: int)
    requires Increasing(ss) && OnLine(ss, a, b) && -MAXIMUM_SLOPE <= b <= MAXIMUM_SLOPE && |ss| >= 2
    ensures AddAll(EMPTY, ss).Ok?
    ensures var e := AddAll(EMPTY, ss).value;
            e.samples != [] && Last(e.samples) == Last(ss) && e.outliers == 0
            && OffsetAt(e, time) == TrueAt(a, b, time)
  {
    hide OffsetAt, Refit, AddAll, Valid, TrueAt;
    assert Spaced(ss, 6000.0 * 0.0) && NearLine(ss, a, b, 0.0) by { OnLineIsNear(ss, a, b); }
    LinearClockIsTracked(ss, a, b, 0.0);
    var e := AddAll(EMPTY, ss).value;
    SuffixNearLine(ss, |ss| - |e.samples|, a, b, 0.0);
    ExactWindow(e, a, b, time);
  }

  lemma OnLineIsNear(w: seq<Sample>, a: real, b: real)
    requires Increasing(w) && OnLine(w, a, b)
    ensures Spaced(w, 0.0) && NearLine(w, a, b, 0.0)
  {
  }

  lemma ExactWindow(e: Estimator, a: real, b: real, time: int)
    requires Valid(e) && |e.samples| >= 2 && NearLine(e.samples, a, b, 0.0) && -MAXIMUM_SLOPE <= b <= MAXIMUM_SLOPE
    ensures OffsetAt(e, time) == TrueAt(a, b, time)
  {
    hide OffsetAt, Refit, TrueAt, Shift, FitSlope, MeanTime, NearLine;
    var w := e.samples;
    FitIsClose(w, a, b, 0.0);
    SpanIsPositive(w);
    ZeroFactor(FitSlope(w) - b, Span(w));
    ErrorAt(w, e.outliers, a, b, time);
    ZeroError(FitSlope(w) - b, (time - w[0].time) as real - MeanTime(w), Shift(w, TrueAt(a, b, Last(w).time), b));
  }

  lemma ZeroError(off: real, y: real, e: real)
    requires off == 0.0 && Abs(e) <= 0.0
    ensures off * y - e == 0.0
  {
  }

  lemma ZeroFactor(x: real, span: real)
    requires Abs(x * span) <= 0.0 && span > 0.0
    ensures x == 0.0
  {
    CancelFactor(x, 0.0, span);
    CancelFactor(-x, 0.0, span);
  }

  lemma FirstSample(s: Sample)
    ensures Add(EMPTY, s).Ok? && Tracking(Add(EMPTY, s).value, [s])
  {
    assert [] + [s] == [s];
    AddKeepsValid(EMPTY, s);
  }

  lemma SuffixNearLine(w: seq<Sample>, k: nat, a: real, b: real, d: real)
    requires NearLine(w, a, b, d) && k <= |w|
    ensures NearLine(w[k..], a, b, d)
  {
  }

  lemma SpacedSpan(w: seq<Sample>, gap: real)
    requires Increasing(w) && Spaced(w, gap) && |w| >= 4
    ensures Span(w) >= 3.0 * gap
  {
    assert Last(w).time >= w[3].time;
    var p, q, r := w[1].time - w[0].time, w[2].time - w[1].time, w[3].time - w[2].time;
    assert p as real >= gap && q as real >= gap && r as real >= gap;
    assert (w[3].time - w[0].time) as real == p as real + q as real + r as real;
  }

  lemma SuffixSpaced(w: seq<Sample>, k: nat, gap: real)
    requires Spaced(w, gap) && k <= |w|
    ensures Spaced(w[k..], gap)
  {
    var v := w[k..];
    forall i | 0 < i < |v|
      ensures (v[i].time - v[i - 1].time) as real >= gap
    {
      assert v[i] == w[k + i] && v[i - 1] == w[k + i - 1];
    }
  }

  lemma TrackingStep(e: Estimator, before: seq<Sample>, s: Sample, a: real, b: real, d: real)
    requires Tracking(e, before) && Increasing(before + [s]) && NearLine(before + [s], a, b, d)
    requires Spaced(before + [s], 6000.0 * d) && before != []
    requires -MAXIMUM_SLOPE <= b <= MAXIMUM_SLOPE && 0.0 <= d <= 250_000.0
    ensures Add(e, s).Ok? && Tracking(Add(e, s).value, before + [s])
  {
    hide Refit, IsOutlier, Trim, Add, Valid, NearLine, Spaced, Increasing;
    NewestIsLater(before, s, |before| - |e.samples|);
    if |e.samples| >= 4 {
      NextIsNoOutlier(e, before, s, a, b, d);
    }
    AcceptedSample(e, s);
    SuffixGrows(before, s, e.samples, |Trim(e.samples + [s], s.time)|);
  }

  lemma SuffixGrows(before: seq<Sample>, s: Sample, w: seq<Sample>, n: nat)
    requires |w| <= |before| && w == before[|before| - |w|..] && n <= |w| + 1
    ensures (w + [s])[|w| + 1 - n..] == (before + [s])[|before| + 1 - n..]
  {
    assert before == before[..|before| - |w|] + w;
  }

  lemma NextIsNoOutlier(e: Estimator, before: seq<Sample>, s: Sample, a: real, b: real, d: real)
    requires Tracking(e, before) && NearLine(before + [s], a, b, d) && Spaced(before + [s], 6000.0 * d)
    requires |e.samples| >= 4 && Last(e.samples).time < s.time
    requires -MAXIMUM_SLOPE <= b <= MAXIMUM_SLOPE && 0.0 <= d <= 250_000.0
    ensures !IsOutlier(e, s)
  {
    hide Refit, IsOutlier, NearLine, Spaced, Near;
    var ss, k, gap := before + [s], |before| - |e.samples|, 6000.0 * d;
    assert ss[k..] == e.samples + [s];
    SuffixNearLine(ss, k, a, b, d);
    SuffixSpaced(ss, k, gap);
    ValidIncreasing(e);
    hide Valid, Increasing;
    PrefixSpaced(e.samples, s, a, b, d, gap);
    SpacedSpan(e.samples, gap);
    NearIsNoOutlier(e, s, a, b, d);
  }

  lemma ValidIncreasing(e: Estimator)
    requires Valid(e)
    ensures Increasing(e.samples)
  {
  }

  lemma NewestIsLater(before: seq<Sample>, s: Sample, k: nat)
    requires Increasing(before + [s]) && k < |before|
    ensures Last(before[k..]).time < s.time
  {
    var ss := before + [s];
    assert ss[|before| - 1] == Last(before[k..]) && ss[|before|] == s;
  }

  lemma PrefixNear(w: seq<Sample>, s: Sample, a: real, b: real, d: real, gap: real)
    requires Increasing(w + [s]) && NearLine(w + [s], a, b, d) && Spaced(w + [s], gap)
    ensures Increasing(w) && NearLine(w, a, b, d) && Spaced(w, gap)
  {
    hide Near;
    PrefixSpaced(w, s, a, b, d, gap);
    hide NearLine, Spaced;
    var v := w + [s];
    assert forall i :: 0 <= i < |w| ==> v[i] == w[i];
  }

  lemma PrefixSpaced(w: seq<Sample>, s: Sample, a: real, b: real, d: real, gap: real)
    requires NearLine(w + [s], a, b, d) && Spaced(w + [s], gap)
    ensures NearLine(w, a, b, d) && Spaced(w, gap) && Near(s, a, b, d)
  {
    hide Near;
    var v := w + [s];
    assert v[|w|] == s;
    forall i | 0 <= i < |w|
      ensures Near(w[i], a, b, d)
    {
      assert v[i] == w[i];
    }
    forall i | 0 < i < |w|
      ensures (w[i].time - w[i - 1].time) as real >= gap
    {
      assert v[i] == w[i] && v[i - 1] == w[i - 1];
    }
  }

  lemma AcceptedSample(e: Estimator, s: Sample)
    requires Valid(e) && e.samples != [] && Last(e.samples).time < s.time
    requires |e.samples| >= 4 ==> !IsOutlier(e, s)
    ensures Add(e, s).Ok? && Valid(Add(e, s).value)
    ensures var t, w := Add(e, s).value, e.samples + [s];
            && t.outliers == 0 && t.samples != [] && Last(t.samples) == s && |t.samples| >= 2
            && |Trim(w, s.time)| <= |w| && t.samples == Trim(w, s.time) == w[|w| - |Trim(w, s.time)|..]
  {
    hide Refit, IsOutlier;
    var w := e.samples + [s];
    TrimShape(w, s.time);
    AddKeepsValid(e, s);
    RefitIsRefit(Trim(w, s.time), 0, 0);
  }

  /** Restated for the object: after any run, what `offsetNanosecondsAt` publishes is the
      optimal line through the retained window. */
  lemma PublishedLineIsOptimal(e: Estimator, ss: seq<Sample>, a: real, m: real)
    requires AddAll(EMPTY, ss).Ok? && e == AddAll(EMPTY, ss).value && |e.samples| >= 2
    requires -MAXIMUM_SLOPE <= m <= MAXIMUM_SLOPE
    ensures var at := Last(e.samples).time;
            && OffsetAt(e, at) == e.fitted
            && SquaredError(e.samples, e.fitted, e.slope, at) <= SquaredError(e.samples, a, m, at)
            && (m != e.slope || a != e.fitted ==>
                  SquaredError(e.samples, e.fitted, e.slope, at) < SquaredError(e.samples, a, m, at))
  {
    hide Refit, SquaredError, Add;
    AddAllKeepsValid(EMPTY, ss);
    FitIsLeastSquares(e.samples, e.outliers, a, m);
  }

  // ---- The class -----------------------------------------------------------------------

  method Sums(w: seq<Sample>) returns (sumTime: real, sumOffset: real)
    requires w != []
    ensures sumTime == Total(Times(w, 0.0)) && sumOffset == Total(Offsets(w, 0.0))
  {
    ghost var x, y := Times(w, 0.0), Offsets(w, 0.0);
    sumTime, sumOffset := 0.0, 0.0;
    for i := 0 to |w|
      invariant sumTime == Total(x[..i]) && sumOffset == Total(y[..i])
    {
      sumTime := sumTime + (w[i].time - w[0].time) as real;
      sumOffset := sumOffset + (w[i].offset - w[0].offset) as real;
      assert x[..i + 1][..i] == x[..i] && y[..i + 1][..i] == y[..i];
    }
    assert x[..|w|] == x && y[..|w|] == y;
  }

  method Moments(w: seq<Sample>, meanTime: real, meanOffset: real) returns (covariance: real, variance: real)
    requires w != []
    ensures covariance == Dot(Times(w, meanTime), Offsets(w, meanOffset))
    ensures variance == Dot(Times(w, meanTime), Times(w, meanTime))
  {
    hide Product;
    ghost var x, y := Times(w, meanTime), Offsets(w, meanOffset);
    covariance, variance := 0.0, 0.0;
    for i := 0 to |w|
      invariant covariance == Dot(x[..i], y[..i]) && variance == Dot(x[..i], x[..i])
    {
      var p := (w[i].time - w[0].time) as real - meanTime;
      var q := (w[i].offset - w[0].offset) as real - meanOffset;
      covariance := covariance + Product(p, q);
      variance := variance + Product(p, p);
      assert x[..i + 1][..i] == x[..i] && y[..i + 1][..i] == y[..i];
    }
    assert x[..|w|] == x && y[..|w|] == y;
  }

  lemma SingleWindow(s: Sample)
    ensures Trim([] + [s], s.time) == [s]
  {
    assert [] + [s] == [s];
  }

  class DriftEstimator {
    var samples: seq<Sample>
    var slope: real
    var fittedOffsetAtLast: real
    var consecutiveOutliers: nat

    ghost function Value(): Estimator
      reads this
    {
      Estimator(samples, slope, fittedOffsetAtLast, consecutiveOutliers)
    }

    constructor ()
      ensures Value() == EMPTY
    {
      samples, slope, fittedOffsetAtLast, consecutiveOutliers := [], 0.0, 0.0, 0;
    }

    function OffsetNanosecondsAt(time: int): (r: real)
      reads this
      ensures r == OffsetAt(Value(), time)
    {
      if samples == [] then 0.0 else fittedOffsetAtLast + slope * (time - Last(samples).time) as real
    }

    /** `ok` is false when the sample is not newer than the last one and the call throws. */
    method AddSample(time: int, offset: int) returns (ok: bool)
      requires Valid(Value())
      modifies this
      ensures Valid(Value())
      ensures ok <==> Add(old(Value()), Sample(time, offset)).Ok?
      ensures Value() == if ok then Add(old(Value()), Sample(time, offset)).value else old(Value())
    {
      assert |samples| < 4 ==> consecutiveOutliers == 0;
      hide Refit, IsOutlier, OffsetAt, Valid, Trim;
      var s := Sample(time, offset);
      AddKeepsValid(Value(), s);
      if samples != [] && time <= Last(samples).time {
        return false;
      }
      var accepted := Gate(time, offset);
      if accepted {
        Accept(s);
      }
      SingleWindow(s);
      return true;
    }

    method Accept(s: Sample)
      modifies this
      ensures Value() == Refit(Trim(old(samples) + [s], s.time), old(consecutiveOutliers))
    {
      hide Refit;
      samples := samples + [s];
      TrimWindow(s.time);
      Fit();
    }

    /** The outlier test. A refused sample only counts; the third in a row empties the window. */
    method Gate(time: int, offset: int) returns (accepted: bool)
      requires |samples| < 4 ==> consecutiveOutliers == 0
      modifies `samples, `consecutiveOutliers
      ensures var e, s := old(Value()), Sample(time, offset);
              var outlier := |e.samples| >= 4 && IsOutlier(e, s);
              && accepted == !(outlier && e.outliers + 1 < 3)
              && (accepted ==> consecutiveOutliers == 0 && samples == if outlier then [] else e.samples)
              && (!accepted ==> consecutiveOutliers == e.outliers + 1 && samples == e.samples)
    {
      if |samples| >= 4 {
        var residual := Abs(offset as real - OffsetNanosecondsAt(time));
        var elapsed := (time - Last(samples).time) as real;
        var limit := if MINIMUM_LIMIT < elapsed * 0.001 then elapsed * 0.001 else MINIMUM_LIMIT;
        if residual > limit {
          consecutiveOutliers := consecutiveOutliers + 1;
          if consecutiveOutliers < 3 {
            return false;
          }
          samples := [];
        } else {
          consecutiveOutliers := 0;
        }
      }
      if samples == [] {
        consecutiveOutliers := 0;
      }
      return true;
    }

    method TrimWindow(time: int)
      modifies `samples
      ensures samples == Trim(old(samples), time)
    {
      while |samples| > MAXIMUM_SAMPLES || (|samples| > 2 && time - samples[0].time > WINDOW_NANOSECONDS)
        invariant Trim(samples, time) == Trim(old(samples), time)
        decreases |samples|
      {
        samples := samples[1..];
      }
    }

    method Fit()
      requires samples != []
      modifies `slope, `fittedOffsetAtLast
      ensures Value() == Refit(samples, consecutiveOutliers)
    {
      hide Dot, Total;
      if |samples| < 2 {
        slope := 0.0;
        fittedOffsetAtLast := Last(samples).offset as real;
        return;
      }
      var sumTime, sumOffset := Sums(samples);
      var meanTime := sumTime / |samples| as real;
      var meanOffset := sumOffset / |samples| as real;
      var covariance, variance := Moments(samples, meanTime, meanOffset);
      slope := if variance > 0.0 then ClampSlope(covariance / variance) else 0.0;
      fittedOffsetAtLast := samples[0].offset as real + meanOffset
                            + slope * ((Last(samples).time - samples[0].time) as real - meanTime);
    }
  }
}
