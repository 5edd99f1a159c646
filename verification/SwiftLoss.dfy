/** `StreamAccumulator.record` and `trim` in ios/SyncAudioReceiver/ReceiverSnapshot.swift, and
    their agreement with the C++ counter. */
module SwiftLoss {
  import opened Numbers
  import opened Wire
  import Loss

  const WINDOW := 4096
  const HALF := 0x8000_0000
  const MAXIMUM_BYTES := 512 * 1024

  datatype Accounting = Accounting(
    highest: Option<nat>,
    missing: set<nat>,
    recent: set<nat>,
    order: seq<nat>,
    lost: int)

  const FRESH := Accounting(None, {}, {}, [], 0)

  /** `Int32(bitPattern: number &- highest)`: serial number arithmetic as in section 3.2 of
      RFC 1982. */
  function Delta(number: nat, highest: nat): (d: int)
    ensures -HALF <= d < HALF && (highest + d - number) % U32_LIMIT == 0
  {
    var d := (number as int - highest) % U32_LIMIT;
    if d < HALF then d else d - U32_LIMIT
  }

  /** The `gap` numbers after `highest`, with wraparound. */
  function Skipped(highest: nat, gap: nat): (r: set<nat>)
    ensures |r| <= gap
    ensures forall n :: n in r ==> n < U32_LIMIT
  {
    if gap == 0 then {} else Skipped(highest, gap - 1) + {(highest + gap) % U32_LIMIT}
  }

  /** A number enters the bounded window of recent numbers. */
  function Remember(a: Accounting, number: nat): (b: Accounting)
    ensures b == a.(order := b.order, recent := b.recent)
    ensures forall n :: n in b.recent ==> n in a.recent || n == number
  {
    var order := a.order + [number];
    var recent := a.recent + {number};
    if |order| > WINDOW then a.(order := order[1..], recent := recent - {order[0]})
    else a.(order := order, recent := recent)
  }

  /** The sequence part of `record`, and whether it went on to buffer the packet. */
  function Record(a: Accounting, number: nat): (Accounting, bool) {
    if number in a.recent then (a, false)
    else
      var b := Remember(a, number);
      if a.highest.None? then (b.(highest := Some(number)), true)
      else
        var delta := Delta(number, a.highest.value);
        if delta == 0 then (b, false)
        else if delta > 0 then
          var gap := delta - 1;
          (b.(highest := Some(number),
              lost := a.lost + gap,
              missing := if gap <= WINDOW && |a.missing| + gap <= WINDOW
                         then a.missing + Skipped(a.highest.value, gap) else a.missing),
           true)
        else if number in a.missing then (b.(missing := a.missing - {number}, lost := a.lost - 1), true)
        else (b, true)
  }

  ghost predicate Distinct(s: seq<nat>) {
    forall i, j :: 0 <= i < j < |s| ==> s[i] != s[j]
  }

  ghost predicate AccountingValid(a: Accounting) {
    && Distinct(a.order) && |a.order| <= WINDOW
    && (forall n :: n in a.recent <==> n in a.order)
    && |a.missing| <= WINDOW
    && |a.missing| <= a.lost
  }

  lemma RememberKeeps(a: Accounting, number: nat)
    requires AccountingValid(a) && number !in a.recent
    ensures AccountingValid(Remember(a, number)) && number in Remember(a, number).recent
  {
    var order := a.order + [number];
    assert Distinct(order);
    if |order| > WINDOW {
      assert order == [order[0]] + order[1..];
      assert forall i :: 0 < i < |order| ==> order[i] != order[0];
      assert order[0] == a.order[0];
      assert forall n :: n in order[1..] <==> n in order && n != order[0];
      assert order[|order| - 1] == number && number != order[0];
    }
  }

  /** Over any run, wraparound included: the counter never underflows and never falls below the
      number of remembered gaps, the recent set is its order list, both windows stay bounded. */
  lemma RecordKeeps(a: Accounting, number: nat)
    requires AccountingValid(a)
    ensures AccountingValid(Record(a, number).0) && Record(a, number).0.lost >= 0
  {
    if number !in a.recent {
      RememberKeeps(a, number);
      if a.highest.Some? && Delta(number, a.highest.value) > 0 {
        var gap := Delta(number, a.highest.value) - 1;
        UnionSize(a.missing, Skipped(a.highest.value, gap));
      } else if number in a.missing {
        assert a.missing == (a.missing - {number}) + {number};
      }
    }
  }

  lemma UnionSize(a: set<nat>, b: set<nat>)
    ensures |a + b| <= |a| + |b|
  {
    assert a + b == a + (b - a) && a !! (b - a);
    assert b == (b - a) + (b * a);
  }

  // ---- Agreement with the C++ counter -----------------------------------------

  /** Both report the same highest number, the same missing numbers and the same loss. */
  predicate SameBooks(a: Accounting, t: Loss.Tracker) {
    a.highest == t.highest && a.missing == t.missing && a.lost == t.lost
  }

  ghost predicate Agrees(a: Accounting, t: Loss.Tracker) {
    && SameBooks(a, t)
    && (a.highest.None? ==> a.recent == {} && a.missing == {})
    && (a.highest.Some? ==>
          && a.highest.value < U32_LIMIT
          && (forall n :: n in a.recent ==> n <= a.highest.value)
          && (forall n :: n in a.missing ==> n < a.highest.value))
    && a.recent !! a.missing
  }

  /** Arrivals on which the two bookkeepings do the same: a number that the Swift client has just seen, or
      one within half the number space of the highest whose gap both remember or both forget. */
  predicate Tame(a: Accounting, number: nat) {
    a.highest.Some? && number !in a.recent ==>
      var h := a.highest.value;
      && (number > h ==> number - h < HALF && BothOrNeither(|a.missing|, number - h - 1))
      && (number <= h ==> h - number <= HALF)
  }

  predicate BothOrNeither(missing: nat, gap: nat) {
    gap == 0 || missing + gap <= WINDOW || gap > Loss.MAXIMUM_GAP
  }

  lemma NoWrap(number: nat, highest: nat)
    requires number < U32_LIMIT && highest < U32_LIMIT
    requires number > highest ==> number - highest < HALF
    requires number <= highest ==> highest - number <= HALF
    ensures Delta(number, highest) == number - highest
  {
    if number < highest {
      assert (number as int - highest) % U32_LIMIT == number - highest + U32_LIMIT;
    }
  }

  lemma {:induction false} SkippedIsBetween(highest: nat, gap: nat)
    requires highest + gap < U32_LIMIT
    ensures forall n :: n in Skipped(highest, gap) <==> highest < n <= highest + gap
  {
    if gap > 0 {
      SkippedIsBetween(highest, gap - 1);
    }
  }

  /** Without wrap-around the Swift step is a comparison of plain numbers. */
  lemma PlainStep(a: Accounting, number: nat)
    requires a.highest.Some? && a.highest.value < U32_LIMIT && number < U32_LIMIT && number !in a.recent
    requires number > a.highest.value ==> number - a.highest.value < HALF
    requires number <= a.highest.value ==> a.highest.value - number <= HALF
    ensures var b, h := Record(a, number).0, a.highest.value;
            && (forall n :: n in b.recent ==> n in a.recent || n == number)
            && b.highest == Some(Max(h, number))
            && b.lost == (if number > h then a.lost + (number - h - 1)
                          else if number != h && number in a.missing then a.lost - 1 else a.lost)
            && b.missing == (if number > h
                             then
                               if |a.missing| + (number - h - 1) <= WINDOW
                               then a.missing + Loss.Between(h, number) else a.missing
                             else if number != h then a.missing - {number} else a.missing)
  {
    hide Remember, Loss.Between;
    var h := a.highest.value;
    NoWrap(number, h);
    if number > h {
      SkippedIsBetweenSet(h, number);
    }
    hide Delta, Skipped;
  }

  /** From equal books an arrival leads to equal books exactly if it is tame. */
  lemma AgreementStep(a: Accounting, t: Loss.Tracker, number: nat)
    requires AccountingValid(a) && Agrees(a, t) && number < U32_LIMIT
    ensures SameBooks(Record(a, number).0, Loss.Update(t, number)) <==> Tame(a, number)
    ensures Tame(a, number) ==> Agrees(Record(a, number).0, Loss.Update(t, number))
  {
    hide AccountingValid, Loss.Between;
    if number in a.recent || a.highest.None? {
      assert Record(a, number).0.recent <= a.recent + {number};
    } else if number > a.highest.value && number - a.highest.value < HALF {
      GapStep(a, t, number);
    } else if number <= a.highest.value && a.highest.value - number <= HALF {
      PlainStep(a, number);
      hide Record;
    } else {
      FarStep(a, number);
      hide Record;
    }
  }

  /** A gap that only one of them remembers leaves different missing sets. */
  lemma GapStep(a: Accounting, t: Loss.Tracker, number: nat)
    requires AccountingValid(a) && Agrees(a, t) && a.highest.Some? && number !in a.recent
    requires a.highest.value < number < U32_LIMIT && number - a.highest.value < HALF
    ensures SameBooks(Record(a, number).0, Loss.Update(t, number)) <==> Tame(a, number)
    ensures Tame(a, number) ==> Agrees(Record(a, number).0, Loss.Update(t, number))
  {
    hide AccountingValid, Loss.Between, Record;
    PlainStep(a, number);
    var h := a.highest.value;
    if number - h - 1 > 0 {
      assert h + 1 in Loss.Between(h, number) && h + 1 !in a.missing;
    } else {
      Loss.EmptyBetween(h);
    }
  }

  /** Half the number space away the Swift client goes the other way round. */
  lemma FarStep(a: Accounting, number: nat)
    requires a.highest.Some? && a.highest.value < U32_LIMIT && number < U32_LIMIT && number !in a.recent
    requires if number > a.highest.value then number - a.highest.value >= HALF else a.highest.value - number > HALF
    ensures Record(a, number).0.highest != Some(Max(a.highest.value, number))
  {
    var h := a.highest.value;
    if number > h {
      assert (number as int - h) % U32_LIMIT == number - h;
    } else {
      assert (number as int - h) % U32_LIMIT == number - h + U32_LIMIT;
    }
  }

  lemma SkippedIsBetweenSet(highest: nat, number: nat)
    requires highest < number < U32_LIMIT
    ensures Skipped(highest, number - highest - 1) == Loss.Between(highest, number)
  {
    SkippedIsBetween(highest, number - highest - 1);
  }

  ghost function RecordAll(a: Accounting, numbers: seq<nat>): Accounting {
    if numbers == [] then a else Record(RecordAll(a, numbers[..|numbers| - 1]), numbers[|numbers| - 1]).0
  }

  ghost predicate AllTame(a: Accounting, numbers: seq<nat>) {
    numbers == []
    || (&& AllTame(a, numbers[..|numbers| - 1])
        && Tame(RecordAll(a, numbers[..|numbers| - 1]), numbers[|numbers| - 1]))
  }

  lemma {:induction false} RunKeeps(numbers: seq<nat>)
    ensures AccountingValid(RecordAll(FRESH, numbers))
  {
    if numbers != [] {
      RunKeeps(numbers[..|numbers| - 1]);
      RecordKeeps(RecordAll(FRESH, numbers[..|numbers| - 1]), numbers[|numbers| - 1]);
    }
  }

  /** The two clients have the same books after each of these arrivals. */
  ghost predicate SameThroughout(numbers: seq<nat>) {
    && SameBooks(RecordAll(FRESH, numbers), Loss.UpdateAll(Loss.FRESH, numbers))
    && (numbers != [] ==> SameThroughout(numbers[..|numbers| - 1]))
  }

  /** The exact condition, for any arrivals, repeats, reordering and wrap-around included: the two clients
      keep reporting the same exactly while every arrival is tame. */
  lemma {:induction false} ClientsAgreeOnLossIff(numbers: seq<nat>)
    requires forall i :: 0 <= i < |numbers| ==> numbers[i] < U32_LIMIT
    ensures SameThroughout(numbers) <==> AllTame(FRESH, numbers)
    ensures AllTame(FRESH, numbers) ==> Agrees(RecordAll(FRESH, numbers), Loss.UpdateAll(Loss.FRESH, numbers))
  {
    hide Record, Loss.Update, Tame, SameBooks;
    if numbers == [] {
      assert SameBooks(FRESH, Loss.FRESH) by { FreshAgrees(); }
    } else {
      var before, n := numbers[..|numbers| - 1], numbers[|numbers| - 1];
      ClientsAgreeOnLossIff(before);
      RunKeeps(before);
      if AllTame(FRESH, before) {
        AgreementStep(RecordAll(FRESH, before), Loss.UpdateAll(Loss.FRESH, before), n);
      }
    }
  }

  /** Three numbers on which they do not: 5000 leaves a gap that only the C++ client remembers, so only there
      does the late 100 bring the loss down. */
  lemma ClientsDisagree()
    ensures var numbers := [0, 5000, 100];
            && !SameThroughout(numbers[..2])
            && RecordAll(FRESH, numbers).lost == 4999 && Loss.UpdateAll(Loss.FRESH, numbers).lost == 4998
  {
    AfterGap();
    hide Record, Loss.Update;
    assert [0, 5000, 100][..2] == [0, 5000] && [0, 5000][..1] == [0] && [0][..0] == [];
  }

  lemma AfterGap()
    ensures var a, t := Record(FRESH, 0).0, Loss.Update(Loss.FRESH, 0);
            var b, u := Record(a, 5000).0, Loss.Update(t, 5000);
            && b.missing == {} && 100 in u.missing
            && Record(b, 100).0.lost == 4999 && Loss.Update(u, 100).lost == 4998
  {
    hide Skipped, Loss.Between, Delta;
    NoWrap(5000, 0);
    NoWrap(100, 5000);
  }

  lemma FreshAgrees()
    ensures SameBooks(FRESH, Loss.FRESH)
  {
  }

  // ---- The depth window ---------------------------------------------------------

  function TotalFrames(ps: seq<SwiftPacket>): nat {
    if ps == [] then 0 else ps[0].frameCount + TotalFrames(ps[1..])
  }

  function TotalBytes(ps: seq<SwiftPacket>): nat {
    if ps == [] then 0 else |ps[0].payload| + TotalBytes(ps[1..])
  }

  lemma {:induction false} TotalsAppend(ps: seq<SwiftPacket>, p: SwiftPacket)
    ensures TotalFrames(ps + [p]) == TotalFrames(ps) + p.frameCount
    ensures TotalBytes(ps + [p]) == TotalBytes(ps) + |p.payload|
  {
    if ps == [] {
      assert [] + [p] == [p] && [p][1..] == [];
    } else {
      TotalsAppend(ps[1..], p);
      assert (ps + [p])[1..] == ps[1..] + [p];
    }
  }

  /** The oldest packets leave until half a second and 512 KiB remain. */
  function DropOldest(ps: seq<SwiftPacket>, rate: nat): (r: seq<SwiftPacket>)
    ensures TotalFrames(r) <= rate / 2 && TotalBytes(r) <= MAXIMUM_BYTES
    ensures |r| <= |ps| && r == ps[|ps| - |r|..]
  {
    if ps != [] && (TotalFrames(ps) > rate / 2 || TotalBytes(ps) > MAXIMUM_BYTES) then DropOldest(ps[1..], rate) else ps
  }

  /** They keep all they may: any longer history would exceed half a second or 512 KiB. */
  lemma {:induction false} DropKeepsMost(ps: seq<SwiftPacket>, rate: nat, k: nat)
    requires k < |ps| - |DropOldest(ps, rate)|
    ensures TotalFrames(ps[k..]) > rate / 2 || TotalBytes(ps[k..]) > 524288
    decreases |ps|
  {
    if k == 0 {
      assert ps[0..] == ps;
    } else {
      DropKeepsMost(ps[1..], rate, k - 1);
      assert ps[1..][k - 1..] == ps[k..];
    }
  }

  lemma DropFirst(ps: seq<SwiftPacket>, rate: nat)
    ensures ps != [] ==> TotalFrames(ps) == ps[0].frameCount as int + TotalFrames(ps[1..])
    ensures ps != [] ==> TotalBytes(ps) == |ps[0].payload| + TotalBytes(ps[1..])
    ensures DropOldest(ps, rate)
            == if ps != [] && (TotalFrames(ps) > rate / 2 || TotalBytes(ps) > MAXIMUM_BYTES)
               then DropOldest(ps[1..], rate) else ps
  {
  }

  method InsertSkipped(missing: set<nat>, highest: nat, gap: nat) returns (r: set<nat>)
    ensures r == missing + Skipped(highest, gap)
  {
    r := missing;
    for k := 0 to gap
      invariant r == missing + Skipped(highest, k)
    {
      r := r + {(highest + (k + 1)) % U32_LIMIT};
    }
  }

  /** Exactly the arrivals of the last second. */
  ghost predicate LastSecond(kept: seq<real>, arrivals: seq<real>, now: real) {
    forall a :: multiset(kept)[a] == if now - a < 1.0 then multiset(arrivals)[a] else 0
  }

  method KeepLastSecond(arrivals: seq<real>, now: real) returns (kept: seq<real>)
    ensures LastSecond(kept, arrivals, now)
  {
    kept := [];
    for i := 0 to |arrivals|
      invariant LastSecond(kept, arrivals[..i], now)
    {
      assert arrivals[..i + 1] == arrivals[..i] + [arrivals[i]];
      if now - arrivals[i] < 1.0 {
        kept := kept + [arrivals[i]];
      }
    }
    assert arrivals[..|arrivals|] == arrivals;
  }

  class StreamAccumulator {
    var sessionID: Option<nat>
    var streamID: Option<nat>
    var format: Option<(nat, nat)>
    var accounting: Accounting
    var packetsReceived: nat
    var arrivals: seq<real>
    var packets: seq<SwiftPacket>
    var bufferedFrames: int
    var bufferedBytes: int

    ghost predicate Valid()
      reads this
    {
      && AccountingValid(accounting)
      && bufferedFrames == TotalFrames(packets)
      && bufferedBytes == TotalBytes(packets)
      && (format.None? ==> packets == [])
      && (format.Some? ==> bufferedFrames <= format.value.0 / 2 && bufferedBytes <= MAXIMUM_BYTES)
    }

    constructor ()
      ensures Valid() && accounting == FRESH && packets == [] && format == None && sessionID == None
    {
      sessionID, streamID, format := None, None, None;
      accounting := FRESH;
      packetsReceived, arrivals, packets := 0, [], [];
      bufferedFrames, bufferedBytes := 0, 0;
    }

    /** `self = StreamAccumulator()`. */
    method Clear()
      modifies this
      ensures Valid() && accounting == FRESH && packets == [] && format == None && packetsReceived == 0
              && arrivals == []
    {
      sessionID, streamID, format := None, None, None;
      accounting := FRESH;
      packetsReceived, arrivals, packets := 0, [], [];
      bufferedFrames, bufferedBytes := 0, 0;
    }

    method RecordPacket(p: SwiftPacket, now: real) returns (recorded: bool)
      requires Valid()
      modifies this
      ensures Valid()
      ensures var renewed := old(sessionID) != Some(p.sessionId) || old(streamID) != Some(p.streamId);
              var before := if renewed then FRESH else old(accounting);
              var held := if renewed then [] else old(packets);
              var foreign := !renewed && old(format).Some? && old(format).value != (p.sampleRate, p.channels);
              && sessionID == Some(p.sessionId) && streamID == Some(p.streamId)
              && accounting == (if foreign then before else Record(before, p.sequenceNumber).0)
              && recorded == (!foreign && Record(before, p.sequenceNumber).1)
              && packets == (if recorded then DropOldest(held + [p], p.sampleRate) else held)
              && format
                 == (if recorded then Some((p.sampleRate, p.channels)) else if renewed then None else old(format))
              && packetsReceived == (if renewed then 0 else old(packetsReceived)) + (if recorded then 1 else 0)
              && var times := if renewed then [] else old(arrivals);
                 if recorded then LastSecond(arrivals, times + [now], now) else arrivals == times
    {
      hide Record, DropOldest, AccountingValid, TotalFrames, TotalBytes, LastSecond;
      if sessionID != Some(p.sessionId) || streamID != Some(p.streamId) {
        Clear();
        sessionID, streamID := Some(p.sessionId), Some(p.streamId);
      }
      if format.Some? && format.value != (p.sampleRate, p.channels) {
        return false;
      }
      RecordKeeps(accounting, p.sequenceNumber);
      recorded := RecordSequence(p.sequenceNumber);
      if recorded {
        BufferPacket(p, now);
      }
    }

    method BufferPacket(p: SwiftPacket, now: real)
      requires bufferedFrames == TotalFrames(packets) && bufferedBytes == TotalBytes(packets)
      modifies `format, `packetsReceived, `arrivals, `packets, `bufferedFrames, `bufferedBytes
      ensures format == Some((p.sampleRate, p.channels)) && packetsReceived == old(packetsReceived) + 1
      ensures packets == DropOldest(old(packets) + [p], p.sampleRate)
      ensures bufferedFrames == TotalFrames(packets) && bufferedBytes == TotalBytes(packets)
      ensures LastSecond(arrivals, old(arrivals) + [now], now)
    {
      hide DropOldest, TotalFrames, TotalBytes, LastSecond;
      packetsReceived := packetsReceived + 1;
      format := Some((p.sampleRate, p.channels));
      TotalsAppend(packets, p);
      arrivals := arrivals + [now];
      packets := packets + [p];
      bufferedFrames := bufferedFrames + p.frameCount;
      bufferedBytes := bufferedBytes + |p.payload|;
      Trim(now);
    }

    method RecordSequence(number: nat) returns (recorded: bool)
      modifies `accounting
      ensures (accounting, recorded) == Record(old(accounting), number)
    {
      hide Remember, Delta, Skipped;
      if number in accounting.recent {
        return false;
      }
      accounting := Remember(accounting, number);
      assert accounting.highest == old(accounting).highest && accounting.missing == old(accounting).missing;
      if accounting.highest.None? {
        accounting := accounting.(highest := Some(number));
        return true;
      }
      var highest := accounting.highest.value;
      var delta := Delta(number, highest);
      if delta == 0 {
        return false;
      }
      if delta > 0 {
        var gap := delta - 1;
        if gap <= WINDOW && |accounting.missing| + gap <= WINDOW {
          var missing := InsertSkipped(accounting.missing, highest, gap);
          accounting := accounting.(missing := missing);
        }
        accounting := accounting.(lost := accounting.lost + gap, highest := Some(number));
      } else if number in accounting.missing {
        accounting := accounting.(missing := accounting.missing - {number}, lost := accounting.lost - 1);
      }
      return true;
    }

    method Trim(now: real)
      requires format.Some? && bufferedFrames == TotalFrames(packets) && bufferedBytes == TotalBytes(packets)
      modifies `arrivals, `packets, `bufferedFrames, `bufferedBytes
      ensures LastSecond(arrivals, old(arrivals), now)
      ensures packets == DropOldest(old(packets), format.value.0)
      ensures bufferedFrames == TotalFrames(packets) && bufferedBytes == TotalBytes(packets)
    {
      hide DropOldest, TotalFrames, TotalBytes, LastSecond;
      var kept := KeepLastSecond(arrivals, now);
      arrivals := kept;
      var maximumFrames := format.value.0 / 2;
      while packets != [] && (bufferedFrames > maximumFrames || bufferedBytes > MAXIMUM_BYTES)
        invariant DropOldest(packets, format.value.0) == DropOldest(old(packets), format.value.0)
        invariant bufferedFrames == TotalFrames(packets) && bufferedBytes == TotalBytes(packets)
        invariant arrivals == kept
        decreases |packets|
      {
        DropFirst(packets, format.value.0);
        var removed := packets[0];
        packets := packets[1..];
        bufferedFrames := bufferedFrames - removed.frameCount;
        bufferedBytes := bufferedBytes - |removed.payload|;
      }
      DropFirst(packets, format.value.0);
    }
  }
}
