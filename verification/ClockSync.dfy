/** The four-timestamp clock exchange (core/src/ClockSync.cpp) and the choice among several
    exchanges (desktop/src/ClockSyncTransport.cpp, ios/SyncAudioReceiver/ClockSync.swift).
    `long double` and Swift's `Double` are exact here: offsets are halves of integers, which the
    C++ client rounds to whole nanoseconds and the Swift client keeps. */
module ClockSync {
  import opened Numbers

  datatype Estimate = Estimate(offset: real, roundTrip: nat, samples: nat, sampleTime: int)

  /** `llround(n / 2)`: halves go away from zero. */
  function RoundHalf(n: int): (r: int)
    ensures -1 <= 2 * r - n <= 1
    ensures n % 2 == 0 ==> 2 * r == n
    ensures n % 2 != 0 ==> if n > 0 then 2 * r == n + 1 else 2 * r == n - 1
  {
    if n >= 0 then (n + 1) / 2 else -((1 - n) / 2)
  }

  function EstimateOf(t1: u64, t2: u64, t3: u64, t4: u64): Result<Estimate> {
    if t1 > I64_MAX || t2 > I64_MAX || t3 > I64_MAX || t4 > I64_MAX || t4 < t1 || t3 < t2 then Err
    else
      var roundTrip := (t4 as int - t1) - (t3 as int - t2);
      var twice := (t2 as int - t1) + (t3 as int - t4);
      if roundTrip < 0 || roundTrip > I64_MAX || twice > 2 * I64_MAX || -twice > 2 * I64_MAX then Err
      else Ok(Estimate(RoundHalf(twice) as real, roundTrip, 1, t1 as int + (t4 as int - t1) / 2))
  }

  /** What an estimate is made of: it exists exactly for 63-bit stamps in order with no more time spent at the host
      than between request and answer; the round trip is the time on the way, the offset the mean of the two
      differences to the nearest nanosecond, and the sample belongs to the middle of the exchange. */
  lemma EstimateMeans(t1: u64, t2: u64, t3: u64, t4: u64)
    ensures EstimateOf(t1, t2, t3, t4).Ok?
       <==> t1 <= t4 <= I64_MAX && t2 <= t3 <= I64_MAX && t3 as int - t2 <= t4 as int - t1
    ensures EstimateOf(t1, t2, t3, t4).Ok? ==>
              var e := EstimateOf(t1, t2, t3, t4).value;
              && t1 as int + e.roundTrip + (t3 as int - t2) == t4
              && (t2 as int - t1 + (t3 as int - t4) - 1) as real <= 2.0 * e.offset
              && 2.0 * e.offset <= (t2 as int - t1 + (t3 as int - t4) + 1) as real
              && e.offset == e.offset.Floor as real && e.samples == 1
              && t1 <= e.sampleTime && e.sampleTime - t1 <= t4 - e.sampleTime <= e.sampleTime - t1 + 1
  {
  }

  function Distance(x: real, y: real): (d: real)
    ensures d >= 0.0 && (d == x - y || d == y - x)
  {
    if x < y then y - x else x - y
  }

  /** Half of `n`, rounded up. */
  function HalfUp(n: nat): nat {
    (n + 1) / 2
  }

  /** The estimate is no further from `truth` than its own round trip explains. */
  predicate Honest(e: Estimate, truth: real) {
    Distance(e.offset, truth) <= HalfUp(e.roundTrip) as real
  }

  /** The four stamps of one exchange and the two one-way delays. */
  datatype Exchange = Exchange(t1: u64, t2: u64, t3: u64, t4: u64, outward: real, back: real)

  /** What `truth`, the host's clock minus the client's, makes of the delays. */
  ghost predicate Happens(x: Exchange, truth: real) {
    && x.outward >= 0.0 && x.back >= 0.0
    && x.t2 as real == x.t1 as real + truth + x.outward
    && x.t4 as real == x.t3 as real - truth + x.back
  }

  /** Section 8 of RFC 5905: whatever the two one-way delays were, the offset is within half the
      round trip. Only an odd round trip is halved inexactly, and then rounding costs half a
      nanosecond. */
  lemma OffsetWithinHalfRoundTrip(x: Exchange, truth: real)
    requires Happens(x, truth) && EstimateOf(x.t1, x.t2, x.t3, x.t4).Ok?
    ensures Honest(EstimateOf(x.t1, x.t2, x.t3, x.t4).value, truth)
    ensures EstimateOf(x.t1, x.t2, x.t3, x.t4).value.roundTrip as real == x.outward + x.back
  {
    var e := EstimateOf(x.t1, x.t2, x.t3, x.t4).value;
    var twice := (x.t2 as int - x.t1) + (x.t3 as int - x.t4);
    assert twice as real == 2.0 * truth + x.outward - x.back;
    assert twice + e.roundTrip == 2 * (x.t2 - x.t1);
    hide RoundHalf, HalfUp;
    RoundedHalf(twice, e.roundTrip, x.t2 - x.t1, truth, x.outward - x.back);
  }

  lemma RoundedHalf(twice: int, roundTrip: nat, half: int, truth: real, asymmetry: real)
    requires twice + roundTrip == 2 * half && twice as real == 2.0 * truth + asymmetry
    requires -(roundTrip as real) <= asymmetry <= roundTrip as real
    ensures Distance(RoundHalf(twice) as real, truth) <= HalfUp(roundTrip) as real
  {
    var error := 2.0 * (RoundHalf(twice) as real) - 2.0 * truth;
    assert error == (2 * RoundHalf(twice) - twice) as real + asymmetry;
    assert 2 * HalfUp(roundTrip) == if roundTrip % 2 == 0 then roundTrip else roundTrip + 1;
  }

  /** With the same clock rate on both sides and non-negative delays the exchange is accepted
      whenever every stamp is a non-negative 64-bit time. */
  lemma HonestExchangeIsAccepted(x: Exchange, truth: real)
    requires Happens(x, truth) && x.t2 <= x.t3
    requires x.t1 <= I64_MAX && x.t2 <= I64_MAX && x.t3 <= I64_MAX && x.t4 <= I64_MAX
    ensures EstimateOf(x.t1, x.t2, x.t3, x.t4).Ok?
  {
    assert x.t4 as real - x.t1 as real == (x.t3 - x.t2) as real + x.outward + x.back;
  }

  // ---- Choosing among samples --------------------------------------------------

  ghost predicate SortedBy(s: seq<Estimate>, key: Estimate -> real) {
    forall i, j :: 0 <= i < j < |s| ==> key(s[i]) <= key(s[j])
  }

  ghost predicate ByRoundTrip(s: seq<Estimate>) {
    forall i, j :: 0 <= i < j < |s| ==> s[i].roundTrip <= s[j].roundTrip
  }

  ghost predicate ByOffset(s: seq<Estimate>) {
    forall i, j :: 0 <= i < j < |s| ==> s[i].offset <= s[j].offset
  }

  /** What the two sorts leave behind. `std::sort` may order equal keys in any way, so this is a
      relation: everything below holds for every order it could choose. */
  ghost predicate IsSelection(samples: seq<Estimate>, fastest: seq<Estimate>, chosen: seq<Estimate>, r: Estimate) {
    && samples != []
    && multiset(fastest) == multiset(samples) && |fastest| == |samples| && ByRoundTrip(fastest)
    && |chosen| == Min(3, |samples|)
    && multiset(chosen) == multiset(fastest[..|chosen|]) && ByOffset(chosen)
    && r == chosen[|chosen| / 2].(roundTrip := fastest[0].roundTrip, samples := |samples|)
  }

  method InsertSorted(s: seq<Estimate>, e: Estimate, key: Estimate -> real) returns (r: seq<Estimate>)
    requires SortedBy(s, key)
    ensures SortedBy(r, key) && |r| == |s| + 1 && multiset(r) == multiset(s) + multiset{e}
  {
    var k := 0;
    while k < |s| && key(s[k]) <= key(e)
      invariant k <= |s|
      invariant forall j :: 0 <= j < k ==> key(s[j]) <= key(e)
    {
      k := k + 1;
    }
    r := s[..k] + [e] + s[k..];
    InsertedIsSorted(s, e, key, k);
    assert s == s[..k] + s[k..];
  }

  lemma InsertedIsSorted(s: seq<Estimate>, e: Estimate, key: Estimate -> real, k: nat)
    requires SortedBy(s, key) && k <= |s|
    requires forall j :: 0 <= j < k ==> key(s[j]) <= key(e)
    requires k < |s| ==> key(e) < key(s[k])
    ensures SortedBy(s[..k] + [e] + s[k..], key)
  {
    var r := s[..k] + [e] + s[k..];
    forall i, j | 0 <= i < j < |r|
      ensures key(r[i]) <= key(r[j])
    {
      assert r[i] == if i < k then s[i] else if i == k then e else s[i - 1];
      assert r[j] == if j < k then s[j] else if j == k then e else s[j - 1];
      assert k < |s| && j > k ==> key(s[k]) <= key(s[j - 1]);
    }
  }

  method Sort(samples: seq<Estimate>, key: Estimate -> real) returns (r: seq<Estimate>)
    ensures SortedBy(r, key) && |r| == |samples| && multiset(r) == multiset(samples)
  {
    r := [];
    for i := 0 to |samples|
      invariant SortedBy(r, key) && |r| == i && multiset(r) == multiset(samples[..i])
    {
      assert samples[..i + 1] == samples[..i] + [samples[i]];
      r := InsertSorted(r, samples[i], key);
    }
    assert samples[..|samples|] == samples;
  }

  /** The end of `ClockSyncClient::measure`, given the accepted responses. */
  method Select(samples: seq<Estimate>) returns (r: Result<Estimate>)
    ensures r.Err? <==> samples == []
    ensures r.Ok? ==> exists fastest, chosen :: IsSelection(samples, fastest, chosen, r.value)
  {
    if samples == [] {
      return Err;
    }
    var fastest := Sort(samples, (e: Estimate) => e.roundTrip as real);
    var selectedCount := Min(3, |fastest|);
    var minimum := fastest[0].roundTrip;
    var chosen := Sort(fastest[..selectedCount], (e: Estimate) => e.offset);
    var result := chosen[selectedCount / 2];
    r := Ok(result.(roundTrip := minimum, samples := |samples|));
    assert IsSelection(samples, fastest, chosen, r.value);
  }

  /** The reported round trip is the minimum of all samples, not that of the chosen one. */
  lemma ReportsMinimumRoundTrip(samples: seq<Estimate>, fastest: seq<Estimate>, chosen: seq<Estimate>, r: Estimate)
    requires IsSelection(samples, fastest, chosen, r)
    ensures forall e :: e in samples ==> r.roundTrip <= e.roundTrip
    ensures exists e :: e in samples && r.roundTrip == e.roundTrip
  {
    forall e | e in samples
      ensures r.roundTrip <= e.roundTrip
    {
      assert e in multiset(fastest);
      assert e in fastest;
    }
    assert fastest[0] in multiset(samples);
  }

  /** What the two fastest samples are both within, the result is within: both are among the chosen,
      and the median lies between them or beside one. */
  lemma WithinTwoFastest(samples: seq<Estimate>, fastest: seq<Estimate>, chosen: seq<Estimate>, r: Estimate,
                         truth: real, bound: real)
    requires IsSelection(samples, fastest, chosen, r)
    requires Distance(fastest[0].offset, truth) <= bound
    requires Distance(fastest[Min(1, |fastest| - 1)].offset, truth) <= bound
    ensures Distance(r.offset, truth) <= bound
  {
    if |samples| == 1 {
      assert chosen[0] in multiset(fastest[..1]);
    } else {
      var i, j := FirstTwoAreChosen(fastest, chosen);
      MedianBetween(chosen, r, truth, bound, i, j);
    }
  }

  /** The error bound that always holds: half the second-lowest round trip, rounded up. */
  lemma WithinSecondLowestRoundTrip(samples: seq<Estimate>, fastest: seq<Estimate>, chosen: seq<Estimate>, r: Estimate,
                                    truth: real)
    requires IsSelection(samples, fastest, chosen, r)
    requires forall e :: e in samples ==> Honest(e, truth)
    ensures Distance(r.offset, truth) <= HalfUp(fastest[Min(1, |fastest| - 1)].roundTrip) as real
  {
    forall i | 0 <= i < |fastest|
      ensures Honest(fastest[i], truth)
    {
      assert fastest[i] in multiset(samples);
    }
    var second := Min(1, |fastest| - 1);
    assert Honest(fastest[0], truth) && Honest(fastest[second], truth);
    WithinTwoFastest(samples, fastest, chosen, r, truth, HalfUp(fastest[second].roundTrip) as real);
  }

  /** Where the two fastest samples stand after the second sort. */
  lemma FirstTwoAreChosen(fastest: seq<Estimate>, chosen: seq<Estimate>) returns (i: nat, j: nat)
    requires 2 <= |chosen| <= |fastest| && multiset(chosen) == multiset(fastest[..|chosen|])
    ensures i < |chosen| && j < |chosen| && i != j && chosen[i] == fastest[0] && chosen[j] == fastest[1]
  {
    var front := fastest[..|chosen|];
    assert front == [fastest[0]] + ([fastest[1]] + front[2..]);
    i, j := Places(chosen, fastest[0], fastest[1], front[2..]);
  }

  lemma RemoveAt<T>(s: seq<T>, i: nat)
    requires i < |s|
    ensures multiset(s) == multiset{s[i]} + multiset(s[..i] + s[i + 1..])
  {
    assert s == s[..i] + [s[i]] + s[i + 1..];
  }

  lemma Cancel<T>(x: multiset<T>, y: multiset<T>, z: multiset<T>)
    requires x + y == x + z
    ensures y == z
  {
    assert y == (x + y) - x && z == (x + z) - x;
  }

  lemma Places<T>(s: seq<T>, a: T, b: T, others: seq<T>) returns (i: nat, j: nat)
    requires multiset(s) == multiset([a] + ([b] + others))
    ensures i < |s| && j < |s| && i != j && s[i] == a && s[j] == b
  {
    assert a in multiset(s);
    i :| 0 <= i < |s| && s[i] == a;
    var rest := s[..i] + s[i + 1..];
    RemoveAt(s, i);
    assert multiset([a] + ([b] + others)) == multiset{a} + multiset([b] + others);
    Cancel(multiset{a}, multiset(rest), multiset([b] + others));
    assert b in [b] + others;
    assert b in multiset(rest);
    var k :| 0 <= k < |rest| && rest[k] == b;
    j := if k < i then k else k + 1;
  }

  /** Two of the chosen samples within a bound put their median (the later of two, the middle of
      three) within it. */
  lemma MedianBetween(chosen: seq<Estimate>, r: Estimate, truth: real, bound: real, i: nat, j: nat)
    requires 2 <= |chosen| <= 3 && ByOffset(chosen) && r.offset == chosen[|chosen| / 2].offset
    requires i < |chosen| && j < |chosen| && i != j
    requires Distance(chosen[i].offset, truth) <= bound && Distance(chosen[j].offset, truth) <= bound
    ensures Distance(r.offset, truth) <= bound
  {
  }

  /** One wild sample among the three cannot move the result: if any two of the three selected
      samples are within `bound`, so is the result. */
  lemma MedianOutvotesOne(samples: seq<Estimate>, fastest: seq<Estimate>, chosen: seq<Estimate>, r: Estimate,
                          truth: real, bound: real, i: nat, j: nat)
    requires IsSelection(samples, fastest, chosen, r) && |samples| >= 3
    requires i < j < 3
    requires Distance(chosen[i].offset, truth) <= bound && Distance(chosen[j].offset, truth) <= bound
    ensures Distance(r.offset, truth) <= bound
  {
    MedianBetween(chosen, r, truth, bound, i, j);
  }

  // ---- When the reported round trip bounds the error -----------------------------------

  ghost predicate HasTrips(fastest: seq<Estimate>, trips: seq<nat>) {
    |fastest| == |trips| && forall i :: 0 <= i < |trips| ==> fastest[i].roundTrip == trips[i]
  }

  ghost predicate Sorted(trips: seq<nat>) {
    forall i, j :: 0 <= i < j < |trips| ==> trips[i] <= trips[j]
  }

  ghost predicate AllUpTo(trips: seq<nat>, limit: nat) {
    forall i :: 0 <= i < |trips| ==> trips[i] <= limit
  }

  /** The samples are what `estimate` makes of these exchanges. */
  ghost predicate ComesFrom(samples: seq<Estimate>, exchanges: seq<Exchange>, truth: real) {
    && |samples| == |exchanges|
    && forall i :: 0 <= i < |samples| ==>
         && Happens(exchanges[i], truth)
         && EstimateOf(exchanges[i].t1, exchanges[i].t2, exchanges[i].t3, exchanges[i].t4) == Ok(samples[i])
  }

  /** Whatever the exchanges with these round trips were, the result is within `bound` of the truth. */
  ghost predicate ResultsWithin(trips: seq<nat>, bound: real) {
    forall exchanges, samples, fastest, chosen, r, truth ::
      ComesFrom(samples, exchanges, truth) && IsSelection(samples, fastest, chosen, r) && HasTrips(fastest, trips) ==>
        Distance(r.offset, truth) <= bound
  }

  function SecondLowest(trips: seq<nat>): nat
    requires trips != []
  {
    trips[Min(1, |trips| - 1)]
  }

  /** The exact error bound: half the second-lowest round trip, rounded up, and nothing less. */
  lemma SecondLowestIsTight(trips: seq<nat>, bound: real)
    requires trips != [] && Sorted(trips) && AllUpTo(trips, I64_MAX)
    ensures ResultsWithin(trips, bound) <==> HalfUp(SecondLowest(trips)) as real <= bound
  {
    if HalfUp(SecondLowest(trips)) as real <= bound {
      forall exchanges, samples, fastest, chosen, r, truth |
        ComesFrom(samples, exchanges, truth) && IsSelection(samples, fastest, chosen, r) && HasTrips(fastest, trips)
        ensures Distance(r.offset, truth) <= bound
      {
        ExchangesAreHonest(samples, exchanges, truth);
        WithinSecondLowestRoundTrip(samples, fastest, chosen, r, truth);
      }
    } else {
      var exchanges, samples, chosen, r := SlowMajority(trips);
      assert ComesFrom(samples, exchanges, 0.0) && IsSelection(samples, samples, chosen, r) && HasTrips(samples, trips);
    }
  }

  lemma ExchangesAreHonest(samples: seq<Estimate>, exchanges: seq<Exchange>, truth: real)
    requires ComesFrom(samples, exchanges, truth)
    ensures forall e :: e in samples ==> Honest(e, truth)
  {
    hide EstimateOf, Happens, Honest;
    forall e | e in samples
      ensures Honest(e, truth)
    {
      var i :| 0 <= i < |samples| && samples[i] == e;
      OffsetWithinHalfRoundTrip(exchanges[i], truth);
    }
  }

  /** The reported round trip, with half a nanosecond for rounding, bounds the error exactly when there
      is one sample, or the two lowest round trips are equal, or the lowest is odd and the next is one
      higher. */
  lemma ReportedRoundTripBoundsIff(trips: seq<nat>)
    requires trips != [] && Sorted(trips) && AllUpTo(trips, I64_MAX)
    ensures ResultsWithin(trips, (trips[0] + 1) as real / 2.0)
       <==> |trips| == 1 || trips[0] == trips[1] || (trips[0] % 2 == 1 && trips[1] == trips[0] + 1)
  {
    SecondLowestIsTight(trips, (trips[0] + 1) as real / 2.0);
    HalvesCompare(trips[0], SecondLowest(trips));
    hide ResultsWithin, HalfUp, AllUpTo;
  }

  lemma HalvesCompare(lowest: nat, second: nat)
    requires lowest <= second
    ensures HalfUp(second) as real <= (lowest + 1) as real / 2.0
       <==> lowest == second || (lowest % 2 == 1 && second == lowest + 1)
  {
    assert HalfUp(second) as real <= (lowest + 1) as real / 2.0 <==> 2 * HalfUp(second) <= lowest + 1;
  }

  /** The worst exchanges with these round trips: both clocks agree, every request spends the whole
      round trip on its way and every answer none. */
  function SlowRequest(trip: nat): Exchange
    requires trip <= I64_MAX
  {
    Exchange(0, trip, trip, trip, trip as real, 0.0)
  }

  lemma SlowRequestSample(trip: nat)
    requires trip <= I64_MAX
    ensures Happens(SlowRequest(trip), 0.0)
    ensures EstimateOf(0, trip, trip, trip) == Ok(Estimate(HalfUp(trip) as real, trip, 1, trip / 2))
  {
  }

  lemma HalvesGrow(trips: seq<nat>)
    requires Sorted(trips)
    ensures forall i, j :: 0 <= i < j < |trips| ==> HalfUp(trips[i]) <= HalfUp(trips[j])
  {
  }

  function SlowRequests(trips: seq<nat>): (r: seq<Exchange>)
    requires AllUpTo(trips, I64_MAX)
    ensures |r| == |trips| && forall i :: 0 <= i < |r| ==> r[i] == SlowRequest(trips[i])
  {
    seq(|trips|, i requires 0 <= i < |trips| => assert trips[i] <= I64_MAX; SlowRequest(trips[i]))
  }

  /** The input on which the error reaches the bound: the median is the second-slowest of the fastest. */
  lemma SlowMajority(trips: seq<nat>)
    returns (exchanges: seq<Exchange>, samples: seq<Estimate>, chosen: seq<Estimate>, r: Estimate)
    requires trips != [] && Sorted(trips) && AllUpTo(trips, I64_MAX)
    ensures exchanges == SlowRequests(trips)
    ensures ComesFrom(samples, exchanges, 0.0) && HasTrips(samples, trips)
    ensures IsSelection(samples, samples, chosen, r)
    ensures r.offset == HalfUp(SecondLowest(trips)) as real && r.roundTrip == trips[0]
  {
    hide Happens, EstimateOf, HalfUp;
    exchanges := SlowRequests(trips);
    samples := seq(|trips|, i requires 0 <= i < |trips| =>
                     Estimate(HalfUp(trips[i]) as real, trips[i], 1, trips[i] / 2));
    forall i | 0 <= i < |trips|
      ensures Happens(exchanges[i], 0.0)
      ensures EstimateOf(exchanges[i].t1, exchanges[i].t2, exchanges[i].t3, exchanges[i].t4) == Ok(samples[i])
    {
      SlowRequestSample(trips[i]);
    }
    HalvesGrow(trips);
    chosen := samples[..Min(3, |samples|)];
    r := chosen[|chosen| / 2].(roundTrip := trips[0], samples := |samples|);
  }

  // ---- The Swift filter -----------------------------------------------------------

  /** Keeps 16 samples and selects among the last 8, by the same rule on unrounded offsets. */
  class ClockSampleFilter {
    var samples: seq<Estimate>

    constructor ()
      ensures samples == []
    {
      samples := [];
    }

    method Add(sample: Estimate) returns (r: Estimate)
      requires |samples| <= 16
      modifies this
      ensures |samples| <= 16 && samples != [] && samples[|samples| - 1] == sample
      ensures samples == if old(|samples|) == 16 then old(samples)[1..] + [sample] else old(samples) + [sample]
      ensures var recent := samples[Max(0, |samples| - 8)..];
              exists fastest, chosen, s :: IsSelection(recent, fastest, chosen, s)
                && r == s.(sampleTime := sample.sampleTime)
    {
      samples := samples + [sample];
      if |samples| > 16 {
        samples := samples[1..];
      }
      var recent := samples[Max(0, |samples| - 8)..];
      var selected := Select(recent);
      r := selected.value.(sampleTime := sample.sampleTime);
    }
  }
}
