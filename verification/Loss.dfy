/** Loss accounting on the two clients: `updateSequenceStatistics` in
    desktop/src/DesktopAudioClient.cpp and `StreamAccumulator` in
    ios/SyncAudioReceiver/ReceiverSnapshot.swift. */
module Loss {
  import opened Numbers

  const MAXIMUM_GAP := 100_000

  /** `lost` is a plain integer here, so that "never underflows" is something to prove. */
  datatype Tracker = Tracker(highest: Option<nat>, missing: set<nat>, lost: int, outOfOrder: nat)

  const FRESH := Tracker(None, {}, 0, 0)

  /** The numbers strictly between `lo` and `hi`. */
  function Between(lo: nat, hi: nat): (r: set<nat>)
    ensures forall n :: n in r <==> lo < n < hi
  {
    if lo + 1 >= hi then {} else Between(lo, hi - 1) + {hi - 1}
  }

  lemma {:induction false} BetweenSize(lo: nat, hi: nat)
    requires lo < hi
    ensures |Between(lo, hi)| == hi - lo - 1
  {
    if lo + 1 < hi {
      BetweenSize(lo, hi - 1);
    }
  }

  lemma EmptyBetween(lo: nat)
    ensures Between(lo, lo + 1) == {}
  {
  }

  lemma NextBetween(lo: nat, hi: nat)
    requires lo < hi
    ensures Between(lo, hi + 1) == Between(lo, hi) + {hi}
  {
  }

  function Update(t: Tracker, number: nat): Tracker {
    if t.highest.None? then t.(highest := Some(number))
    else
      var h := t.highest.value;
      if number > h then
        var gap := number - h - 1;
        t.(highest := Some(number),
           lost := t.lost + gap,
           missing := if gap <= MAXIMUM_GAP then t.missing + Between(h, number) else t.missing)
      else if number in t.missing then
        t.(outOfOrder := t.outOfOrder + 1, missing := t.missing - {number}, lost := t.lost - 1)
      else t.(outOfOrder := t.outOfOrder + 1)
  }

  function UpdateAll(t: Tracker, numbers: seq<nat>): Tracker {
    if numbers == [] then t else Update(UpdateAll(t, numbers[..|numbers| - 1]), numbers[|numbers| - 1])
  }

  class SequenceStatistics {
    var highestSequence: Option<nat>
    var missingSequences: set<nat>
    var packetsLost: int
    var outOfOrderPackets: nat

    ghost function Value(): Tracker
      reads this
    {
      Tracker(highestSequence, missingSequences, packetsLost, outOfOrderPackets)
    }

    constructor ()
      ensures Value() == FRESH
    {
      highestSequence, missingSequences, packetsLost, outOfOrderPackets := None, {}, 0, 0;
    }

    method UpdateSequenceStatistics(number: nat)
      modifies this
      ensures Value() == Update(old(Value()), number)
    {
      hide Between;
      if highestSequence.None? {
        highestSequence := Some(number);
        return;
      }
      var highest := highestSequence.value;
      if number > highest {
        var gap := number - highest - 1;
        packetsLost := packetsLost + gap;
        if gap <= MAXIMUM_GAP {
          InsertMissing(highest, number);
        }
        highestSequence := Some(number);
        return;
      }
      outOfOrderPackets := outOfOrderPackets + 1;
      if number in missingSequences {
        missingSequences := missingSequences - {number};
        packetsLost := packetsLost - 1;
      }
    }

    method InsertMissing(highest: nat, number: nat)
      requires highest < number
      modifies `missingSequences
      ensures missingSequences == old(missingSequences) + Between(highest, number)
    {
      EmptyBetween(highest);
      hide Between;
      var missing := highest + 1;
      while missing < number
        invariant highest < missing <= number
        invariant missingSequences == old(missingSequences) + Between(highest, missing)
      {
        NextBetween(highest, missing);
        missingSequences := missingSequences + {missing};
        missing := missing + 1;
      }
    }
  }

  // ---- What the counter means -------------------------------------------------

  function Seen(numbers: seq<nat>): set<nat> {
    set n | n in numbers
  }

  function Highest(numbers: seq<nat>): nat
    requires numbers != []
  {
    if |numbers| == 1 then numbers[0] else Max(Highest(numbers[..|numbers| - 1]), numbers[|numbers| - 1])
  }

  /** The true loss: numbers between the first and the highest that have not arrived. */
  function NotYetReceived(numbers: seq<nat>): set<nat>
    requires numbers != []
  {
    Between(numbers[0], Highest(numbers)) - Seen(numbers)
  }

  /** Numbers in gaps too wide to be remembered one by one. */
  function Forgotten(numbers: seq<nat>): set<nat> {
    if |numbers| <= 1 then {}
    else
      var before, n := numbers[..|numbers| - 1], numbers[|numbers| - 1];
      var h := Highest(before);
      Forgotten(before) + if n > h && n - h - 1 > MAXIMUM_GAP then Between(h, n) else {}
  }

  /** Arrival `i` brings no new highest number. */
  predicate Overtaken(numbers: seq<nat>, i: nat)
    requires i < |numbers|
  {
    exists j :: 0 <= j < i && numbers[j] >= numbers[i]
  }

  function AllOvertaken(numbers: seq<nat>): set<nat> {
    set i: nat | i < |numbers| && Overtaken(numbers, i)
  }

  /** Out of order are exactly the arrivals that a number as high or higher preceded, whatever the gaps. */
  lemma {:induction false} OutOfOrderIsOvertaken(numbers: seq<nat>)
    ensures UpdateAll(FRESH, numbers).outOfOrder == |AllOvertaken(numbers)|
  {
    if numbers != [] {
      var before := numbers[..|numbers| - 1];
      OutOfOrderIsOvertaken(before);
      OvertakenGrows(numbers);
      if before != [] {
        AlwaysAccounted(before);
        OvertakenIff(numbers);
        hide Overtaken, AllOvertaken;
      }
    }
  }

  lemma OvertakenGrows(numbers: seq<nat>)
    requires numbers != []
    ensures var last := |numbers| - 1;
            |AllOvertaken(numbers)| == |AllOvertaken(numbers[..last])| + if Overtaken(numbers, last) then 1 else 0
  {
    var last := |numbers| - 1;
    var before := numbers[..last];
    forall i: nat | i < last
      ensures Overtaken(numbers, i) <==> Overtaken(before, i)
    {
      assert forall j :: 0 <= j <= i ==> numbers[j] == before[j];
    }
    assert AllOvertaken(numbers) == AllOvertaken(before) + if Overtaken(numbers, last) then {last} else {};
  }

  lemma OvertakenIff(numbers: seq<nat>)
    requires |numbers| >= 2
    requires var before := numbers[..|numbers| - 1];
             Highest(before) in before && forall n :: n in before ==> n <= Highest(before)
    ensures Overtaken(numbers, |numbers| - 1) <==> numbers[|numbers| - 1] <= Highest(numbers[..|numbers| - 1])
  {
    hide Highest;
    var last := |numbers| - 1;
    var before := numbers[..last];
    if numbers[last] <= Highest(before) {
      var j :| 0 <= j < last && before[j] == Highest(before);
      assert numbers[j] >= numbers[last];
    } else {
      forall j | 0 <= j < last
        ensures numbers[j] < numbers[last]
      {
        assert before[j] in before;
      }
    }
  }

  ghost predicate Accounted(t: Tracker, numbers: seq<nat>)
    requires numbers != []
  {
    && t.highest == Some(Highest(numbers))
    && (forall n :: n in numbers ==> n <= Highest(numbers))
    && numbers[0] <= Highest(numbers)
    && Highest(numbers) in numbers
    && Forgotten(numbers) <= Between(numbers[0], Highest(numbers))
    && t.missing == NotYetReceived(numbers) - Forgotten(numbers)
    && t.lost == |t.missing| + |Forgotten(numbers)|
  }

  lemma {:induction false} AlwaysAccounted(numbers: seq<nat>)
    requires numbers != []
    ensures Accounted(UpdateAll(FRESH, numbers), numbers)
  {
    hide Update, Accounted;
    if |numbers| == 1 {
      FirstAccounted(numbers);
    } else {
      var before, n := numbers[..|numbers| - 1], numbers[|numbers| - 1];
      AlwaysAccounted(before);
      assert numbers == before + [n];
      AccountedStep(UpdateAll(FRESH, before), before, n);
    }
  }

  lemma FirstAccounted(numbers: seq<nat>)
    requires |numbers| == 1
    ensures Accounted(UpdateAll(FRESH, numbers), numbers)
  {
    hide Between;
    EmptyBetween(numbers[0]);
    assert numbers[..0] == [] && Between(numbers[0], numbers[0]) == {};
    assert UpdateAll(FRESH, []) == FRESH;
    assert UpdateAll(FRESH, numbers) == Tracker(Some(numbers[0]), {}, 0, 0);
  }

  lemma AheadSets(first: nat, h: nat, n: nat, seen: set<nat>, forgotten: set<nat>, missing: set<nat>)
    requires first <= h < n && h in seen && forall x :: x in seen ==> x <= h
    requires forgotten <= Between(first, h) && missing == Between(first, h) - seen - forgotten
    ensures Between(first, n) - (seen + {n}) - forgotten == missing + Between(h, n)
    ensures Between(first, n) - (seen + {n}) - (forgotten + Between(h, n)) == missing
    ensures |missing + Between(h, n)| == |missing| + (n - h - 1)
    ensures |forgotten + Between(h, n)| == |forgotten| + (n - h - 1)
    ensures forgotten <= Between(first, n) && Between(h, n) <= Between(first, n)
  {
    BetweenSize(h, n);
    BetweenJoins(first, h, n);
    hide Between;
    JoinSets(Between(first, h), Between(h, n), if first < h then {h} else {}, Between(first, n), seen, forgotten,
             missing, n);
  }

  lemma JoinSets(inner: set<nat>, gap: set<nat>, edge: set<nat>, outer: set<nat>, seen: set<nat>, forgotten: set<nat>,
                 missing: set<nat>, n: nat)
    requires outer == inner + edge + gap && edge <= seen && gap !! seen && gap !! inner && n !in outer
    requires forgotten <= inner && missing == inner - seen - forgotten
    ensures outer - (seen + {n}) - forgotten == missing + gap
    ensures outer - (seen + {n}) - (forgotten + gap) == missing
    ensures |missing + gap| == |missing| + |gap|
    ensures |forgotten + gap| == |forgotten| + |gap|
    ensures forgotten <= outer && gap <= outer
  {
    assert missing !! gap && forgotten !! gap;
  }

  lemma BetweenJoins(first: nat, h: nat, n: nat)
    requires first <= h < n
    ensures Between(first, n) == Between(first, h) + (if first < h then {h} else {}) + Between(h, n)
  {
  }

  lemma BehindSets(first: nat, h: nat, n: nat, seen: set<nat>, forgotten: set<nat>, missing: set<nat>)
    requires missing == Between(first, h) - seen - forgotten
    ensures Between(first, h) - (seen + {n}) - forgotten == missing - {n}
    ensures |missing - {n}| == if n in missing then |missing| - 1 else |missing|
  {
    hide Between;
    var all := Between(first, h);
    assert all - (seen + {n}) - forgotten == missing - {n};
    RemoveOne(missing, n);
  }

  lemma RemoveOne(missing: set<nat>, n: nat)
    ensures |missing - {n}| == if n in missing then |missing| - 1 else |missing|
  {
    if n in missing {
      assert missing == (missing - {n}) + {n};
    } else {
      assert missing - {n} == missing;
    }
  }

  /** How one more arrival extends the three measures. */
  lemma Appended(before: seq<nat>, n: nat)
    requires before != []
    ensures var numbers, h := before + [n], Highest(before);
            && numbers[0] == before[0] && Highest(numbers) == Max(h, n) && Seen(numbers) == Seen(before) + {n}
            && Forgotten(numbers)
               == if n > h && n - h - 1 > MAXIMUM_GAP then Forgotten(before) + Between(h, n) else Forgotten(before)
    ensures forall x :: x in before + [n] <==> x in before || x == n
    ensures forall x :: x in before <==> x in Seen(before)
  {
    hide Between;
    assert (before + [n])[..|before|] == before;
  }

  lemma AccountedStep(t: Tracker, before: seq<nat>, n: nat)
    requires before != [] && Accounted(t, before)
    ensures Accounted(Update(t, n), before + [n])
  {
    hide Accounted, Update;
    if n > Highest(before) {
      AheadStep(t, before, n);
    } else {
      BehindStep(t, before, n);
    }
  }

  lemma AheadStep(t: Tracker, before: seq<nat>, n: nat)
    requires before != [] && Accounted(t, before) && n > Highest(before)
    ensures Accounted(Update(t, n), before + [n])
  {
    hide Between, Highest, Forgotten, Seen;
    Appended(before, n);
    AheadSets(before[0], Highest(before), n, Seen(before), Forgotten(before), t.missing);
  }

  lemma BehindStep(t: Tracker, before: seq<nat>, n: nat)
    requires before != [] && Accounted(t, before) && n <= Highest(before)
    ensures Accounted(Update(t, n), before + [n])
  {
    hide Between, Highest, Forgotten, Seen;
    Appended(before, n);
    BehindSets(before[0], Highest(before), n, Seen(before), Forgotten(before), t.missing);
  }

  /** `packetsLost` never underflows, and it exceeds the true loss exactly by the late arrivals
      that fell into gaps too wide to be remembered. */
  lemma LostCount(numbers: seq<nat>)
    requires numbers != []
    ensures var lost := UpdateAll(FRESH, numbers).lost;
            && lost >= 0
            && lost == |NotYetReceived(numbers)| + |Forgotten(numbers) * Seen(numbers)|
            && (lost == |NotYetReceived(numbers)| <==> Forgotten(numbers) !! Seen(numbers))
  {
    AlwaysAccounted(numbers);
    var t := UpdateAll(FRESH, numbers);
    var f, missing, seen := Forgotten(numbers), NotYetReceived(numbers), Seen(numbers);
    assert missing == t.missing + (f - seen);
    assert t.missing * (f - seen) == {};
    assert f == (f - seen) + (f * seen);
    assert |f| == |f - seen| + |f * seen|;
    if f * seen == {} {
      assert |f * seen| == 0;
    }
  }

  ghost predicate GapsWithin(numbers: seq<nat>, bound: nat) {
    forall i :: 0 < i < |numbers| ==> numbers[i] <= Highest(numbers[..i]) + 1 + bound
  }

  /** With gaps of at most 100,000 the count is exact at every moment. */
  lemma {:induction false} LostCountIsExact(numbers: seq<nat>)
    requires numbers != [] && GapsWithin(numbers, MAXIMUM_GAP)
    ensures UpdateAll(FRESH, numbers).lost == |NotYetReceived(numbers)|
  {
    NothingForgotten(numbers);
    LostCount(numbers);
  }

  lemma {:induction false} NothingForgotten(numbers: seq<nat>)
    requires GapsWithin(numbers, MAXIMUM_GAP)
    ensures Forgotten(numbers) == {}
  {
    if |numbers| > 1 {
      var before := numbers[..|numbers| - 1];
      forall i | 0 < i < |before|
        ensures before[i] <= Highest(before[..i]) + 1 + MAXIMUM_GAP
      {
        assert before[..i] == numbers[..i];
      }
      NothingForgotten(before);
    }
  }

  /** A straggler from a wider gap is never taken off the count again. */
  lemma WideGapStaysCounted()
    ensures var numbers := [0, MAXIMUM_GAP + 2, 1];
            UpdateAll(FRESH, numbers).lost == |NotYetReceived(numbers)| + 1
  {
    hide Between, NotYetReceived, UpdateAll, Forgotten;
    var numbers: seq<nat> := [0, MAXIMUM_GAP + 2, 1];
    StragglerForgotten();
    LostCount(numbers);
    assert Seen(numbers) == {0, MAXIMUM_GAP + 2, 1};
    assert Forgotten(numbers) * Seen(numbers) == {1};
  }

  lemma StragglerForgotten()
    ensures Forgotten([0, MAXIMUM_GAP + 2, 1]) == Between(0, MAXIMUM_GAP + 2)
  {
    hide Between;
    var a: seq<nat>, b: seq<nat>, numbers: seq<nat> := [0], [0, MAXIMUM_GAP + 2], [0, MAXIMUM_GAP + 2, 1];
    assert numbers[..2] == b && b[..1] == a;
    assert Highest(b) == MAXIMUM_GAP + 2 && Highest(a) == 0;
    assert Forgotten(a) == {};
    assert Forgotten(b) == Between(0, MAXIMUM_GAP + 2);
  }
}
