/** What the C++ client's loss counter says about the host's packets, around a resume under one stream ID. */
module HostLoss {
  import opened Numbers
  import opened Loss
  import Host
  import Wire

  function NumbersOf(arrivals: seq<Wire.Packet>): (r: seq<nat>)
    ensures |r| == |arrivals| && forall i :: 0 <= i < |r| ==> r[i] == arrivals[i].sequenceNumber
  {
    seq(|arrivals|, i requires 0 <= i < |arrivals| => arrivals[i].sequenceNumber)
  }

  /** The packets of one segment that have not arrived, by their place in it. */
  function NotArrived(ps: seq<Wire.Packet>, arrivals: seq<Wire.Packet>): set<nat> {
    set k | 0 <= k < |ps| && ps[k] !in arrivals
  }

  /** Host packets that have not arrived. */
  function HostLost(x: Host.Sending, y: Host.Sending, arrivals: seq<Wire.Packet>): nat {
    |NotArrived(x.packets, arrivals)| + |NotArrived(y.packets, arrivals)|
  }

  ghost predicate AllFrom(arrivals: seq<Wire.Packet>, x: Host.Sending, y: Host.Sending) {
    forall p :: p in arrivals ==> p in x.packets || p in y.packets
  }

  /** Packets whose number the other segment uses too have all arrived, and so have those numbered below the
      first arrival and the one with the highest number. */
  ghost predicate OnlyInnerLosses(x: Host.Sending, y: Host.Sending, arrivals: seq<Wire.Packet>)
    requires arrivals != []
  {
    && (forall k :: 0 <= k < Min(|x.packets|, |y.packets|) ==>
          k !in NotArrived(x.packets, arrivals) && k !in NotArrived(y.packets, arrivals))
    && (forall k :: 0 <= k < arrivals[0].sequenceNumber ==> k in Seen(NumbersOf(arrivals)))
    && Max(|x.packets|, |y.packets|) - 1 in Seen(NumbersOf(arrivals))
  }

  /** The numbers that have arrived, segment by segment. */
  lemma SeenAre(x: Host.Sending, y: Host.Sending, arrivals: seq<Wire.Packet>, k: nat)
    requires Host.IsSending(x) && Host.IsSending(y) && AllFrom(arrivals, x, y)
    ensures k in Seen(NumbersOf(arrivals))
       <==> (k < |x.packets| && x.packets[k] in arrivals) || (k < |y.packets| && y.packets[k] in arrivals)
  {
    hide Host.Playable, Host.Faithful, Host.Sized, Host.Tiles;
    if k in Seen(NumbersOf(arrivals)) {
      var i :| 0 <= i < |arrivals| && NumbersOf(arrivals)[i] == k;
      var p := arrivals[i];
      assert p in arrivals;
      if p in x.packets {
        var j :| 0 <= j < |x.packets| && x.packets[j] == p;
        Small(j);
      } else {
        var j :| 0 <= j < |y.packets| && y.packets[j] == p;
        Small(j);
      }
    }
    Small(k);
    if k < |x.packets| && x.packets[k] in arrivals {
      NumberSeen(arrivals, x.packets[k]);
    }
    if k < |y.packets| && y.packets[k] in arrivals {
      NumberSeen(arrivals, y.packets[k]);
    }
  }

  lemma Small(k: nat)
    ensures k < U32_LIMIT ==> k % U32_LIMIT == k
  {
  }

  lemma NumberSeen(arrivals: seq<Wire.Packet>, p: Wire.Packet)
    requires p in arrivals
    ensures p.sequenceNumber as nat in Seen(NumbersOf(arrivals))
  {
    var i :| 0 <= i < |arrivals| && arrivals[i] == p;
    assert NumbersOf(arrivals)[i] == p.sequenceNumber;
  }

  /** Sizes: a part of the union of two sets is as large as both together exactly if they are disjoint and it
      is all of their union. */
  lemma PartOfBoth(part: set<nat>, a: set<nat>, b: set<nat>)
    requires part <= a + b
    ensures |part| <= |a| + |b|
    ensures |part| == |a| + |b| <==> a !! b && part == a + b
  {
    var rest, common := (a + b) - part, a * b;
    assert |a + b| == |part| + |rest| by { assert a + b == part + rest; }
    assert |a| + |b| == |a + b| + |common|;
    if |part| == |a| + |b| {
      assert rest == {} && common == {};
    }
  }

  /** When the counter is what the host lost: `packetsLost` never exceeds the host's packets that have not
      arrived by more than the stragglers it has forgotten, and comes to just that if and only if all losses
      lie between the numbers it has seen and none has a twin in the other segment. Without a resume, one of
      the two segments is empty and no packet has a twin. */
  lemma CounterIsHostLossIff(x: Host.Sending, y: Host.Sending, arrivals: seq<Wire.Packet>)
    requires Host.IsSending(x) && Host.IsSending(y) && AllFrom(arrivals, x, y) && arrivals != []
    ensures var numbers := NumbersOf(arrivals);
            var lost, stragglers := UpdateAll(FRESH, numbers).lost, |Forgotten(numbers) * Seen(numbers)|;
            && lost <= HostLost(x, y, arrivals) + stragglers
            && (lost == HostLost(x, y, arrivals) + stragglers <==> OnlyInnerLosses(x, y, arrivals))
  {
    var numbers := NumbersOf(arrivals);
    LostCount(numbers);
    AlwaysAccounted(numbers);
    hide Host.IsSending, Between, Highest, Forgotten, UpdateAll, Seen, NotArrived;
    var inner, a, b := NotYetReceived(numbers), NotArrived(x.packets, arrivals), NotArrived(y.packets, arrivals);
    InnerIsLost(x, y, arrivals);
    PartOfBoth(inner, a, b);
    OnlyInnerIff(x, y, arrivals);
  }

  lemma InnerIsLost(x: Host.Sending, y: Host.Sending, arrivals: seq<Wire.Packet>)
    requires Host.IsSending(x) && Host.IsSending(y) && AllFrom(arrivals, x, y) && arrivals != []
    ensures NotYetReceived(NumbersOf(arrivals)) <= NotArrived(x.packets, arrivals) + NotArrived(y.packets, arrivals)
  {
    var numbers := NumbersOf(arrivals);
    AlwaysAccounted(numbers);
    hide Host.IsSending, Highest, Forgotten, UpdateAll, Seen;
    HighestIsSeen(numbers);
    SeenAre(x, y, arrivals, Highest(numbers));
    forall k | k in NotYetReceived(numbers)
      ensures k in NotArrived(x.packets, arrivals) + NotArrived(y.packets, arrivals)
    {
      SeenAre(x, y, arrivals, k);
    }
  }

  lemma HighestIsSeen(numbers: seq<nat>)
    requires numbers != []
    ensures Highest(numbers) in Seen(numbers) && numbers[0] in Seen(numbers)
    ensures forall k :: k in Seen(numbers) ==> k <= Highest(numbers)
  {
    AlwaysAccounted(numbers);
  }

  lemma OnlyInnerIff(x: Host.Sending, y: Host.Sending, arrivals: seq<Wire.Packet>)
    requires Host.IsSending(x) && Host.IsSending(y) && AllFrom(arrivals, x, y) && arrivals != []
    ensures var a, b := NotArrived(x.packets, arrivals), NotArrived(y.packets, arrivals);
            a !! b && NotYetReceived(NumbersOf(arrivals)) == a + b <==> OnlyInnerLosses(x, y, arrivals)
  {
    var numbers := NumbersOf(arrivals);
    var a, b := NotArrived(x.packets, arrivals), NotArrived(y.packets, arrivals);
    HighestIsSeen(numbers);
    SeenSplits(x, y, arrivals);
    hide Host.IsSending, Highest, Seen, Between, NotArrived, SeenFrom, NumbersOf, AllFrom;
    InnerNumbersIff(|x.packets|, |y.packets|, a, b, Seen(numbers), numbers[0], Highest(numbers));
  }

  /** Numbers below `n` and `m`, without those that have not arrived from either segment. */
  ghost predicate SeenFrom(seen: set<nat>, n: nat, m: nat, a: set<nat>, b: set<nat>) {
    && (forall k :: k in a ==> k < n) && (forall k :: k in b ==> k < m)
    && forall k: nat :: k in seen <==> (k < n && k !in a) || (k < m && k !in b)
  }

  lemma SeenSplits(x: Host.Sending, y: Host.Sending, arrivals: seq<Wire.Packet>)
    requires Host.IsSending(x) && Host.IsSending(y) && AllFrom(arrivals, x, y)
    ensures SeenFrom(Seen(NumbersOf(arrivals)), |x.packets|, |y.packets|, NotArrived(x.packets, arrivals),
                     NotArrived(y.packets, arrivals))
  {
    hide Host.IsSending, Seen, AllFrom;
    forall k: nat
      ensures k in Seen(NumbersOf(arrivals)) <==> || (k < |x.packets| && k !in NotArrived(x.packets, arrivals))
                                                  || (k < |y.packets| && k !in NotArrived(y.packets, arrivals))
    {
      SeenAre(x, y, arrivals, k);
    }
  }

  lemma InnerNumbersIff(n: nat, m: nat, a: set<nat>, b: set<nat>, seen: set<nat>, first: nat, highest: nat)
    requires SeenFrom(seen, n, m, a, b)
    requires first in seen && highest in seen && forall k :: k in seen ==> k <= highest
    ensures a !! b && Between(first, highest) - seen == a + b
       <==> && (forall k :: 0 <= k < Min(n, m) ==> k !in a && k !in b)
            && (forall k :: 0 <= k < first ==> k in seen) && Max(n, m) - 1 in seen
  {
    if a !! b && Between(first, highest) - seen == a + b {
      forall k | 0 <= k < Max(n, m) && (k < first || highest < k)
        ensures k in seen
      {
        assert k !in Between(first, highest);
        assert k !in a + b;
      }
      forall k | 0 <= k < Min(n, m)
        ensures k !in a && k !in b
      {
        assert k in a || k in b ==> k in a + b && k !in seen;
      }
    }
    if && (forall k :: 0 <= k < Min(n, m) ==> k !in a && k !in b)
       && (forall k :: 0 <= k < first ==> k in seen) && Max(n, m) - 1 in seen {
      forall k
        ensures k in Between(first, highest) - seen <==> k in a + b
      {
      }
    }
  }
}
