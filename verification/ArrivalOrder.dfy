/** Reordering and duplication between two reads leave no trace in the jitter buffer, whatever it held before. */
module ArrivalOrder {
  import opened Numbers
  import opened JitterBuffers
  import Wire

  function PushAll(s: State, ps: seq<Wire.Packet>): State {
    if ps == [] then s else PushStep(PushAll(s, ps[..|ps| - 1]), ps[|ps| - 1]).0
  }

  /** Packets of one format whose content is fixed by their start frame. */
  ghost predicate OneStream(ps: seq<Wire.Packet>, format: Format) {
    && (forall p :: p in ps ==> Acceptable(p) && FormatOf(p) == format)
    && (forall p, q :: p in ps && q in ps && p.startFrame == q.startFrame ==> ToBuffered(p) == ToBuffered(q))
  }

  /** What a sequence of arrivals offers: everything that is not already played. */
  ghost function Offered(ps: seq<Wire.Packet>, mark: nat): set<Buffered> {
    set p | p in ps && ToBuffered(p).End() > mark :: ToBuffered(p)
  }

  /** `held` is the sorted list of the 1024 greatest start frames of `all`. */
  ghost predicate IsNewest(held: seq<Buffered>, all: set<Buffered>) {
    && Ascending(held)
    && (forall b :: b in held ==> b in all)
    && |held| == Min(MAXIMUM_PACKETS, |all|)
    && (forall x :: x in all && x !in held ==> BeforeAll(x, held))
  }

  ghost predicate BeforeAll(x: Buffered, held: seq<Buffered>) {
    forall i :: 0 <= i < |held| ==> x.start < held[i].start
  }

  ghost predicate IsLatestEnd(end: nat, initial: nat, all: set<Buffered>) {
    && initial <= end
    && (forall b :: b in all ==> b.End() <= end)
    && (end == initial || exists b :: b in all && b.End() == end)
  }

  ghost function Elements(ps: seq<Buffered>): set<Buffered> {
    set b | b in ps
  }

  lemma {:induction false} AscendingSize(ps: seq<Buffered>)
    requires Ascending(ps)
    ensures |Elements(ps)| == |ps|
  {
    if ps != [] {
      var rest := ps[..|ps| - 1];
      AscendingSize(rest);
      assert Elements(ps) == Elements(rest) + {ps[|ps| - 1]};
      assert forall b :: b in rest ==> b.start < ps[|ps| - 1].start;
    }
  }

  lemma {:induction false} SubsetSize<T>(a: set<T>, b: set<T>)
    requires a <= b
    ensures |a| <= |b|
    ensures |a| == |b| ==> a == b
  {
    if a != {} {
      var x :| x in a;
      SubsetSize(a - {x}, b - {x});
    }
  }

  lemma PruneNothing(ps: seq<Buffered>, mark: nat)
    requires forall b :: b in ps ==> b.End() > mark
    ensures Prune(ps, mark) == ps
  {
    if ps != [] {
      assert ps[0] in ps;
    }
  }

  /** Adding one offered packet to the newest 1024 gives the newest 1024 of the larger set. */
  lemma AdmitKeepsNewest(held: seq<Buffered>, all: set<Buffered>, b: Buffered)
    requires IsNewest(held, all) && !HasStart(held, b.start)
    ensures var inserted := Insert(held, b);
            IsNewest(if |inserted| > MAXIMUM_PACKETS then inserted[1..] else inserted, all + {b})
  {
    InsertElements(held, b);
    AscendingSize(held);
    SubsetSize(Elements(held), all);
    if |held| < MAXIMUM_PACKETS {
      RoomLeft(held, all, b);
    } else {
      OldestLeaves(held, all, b);
    }
  }

  lemma RoomLeft(held: seq<Buffered>, all: set<Buffered>, b: Buffered)
    requires IsNewest(held, all) && !HasStart(held, b.start)
    requires |held| < MAXIMUM_PACKETS && Elements(held) == all
    ensures IsNewest(Insert(held, b), all + {b})
  {
    InsertElements(held, b);
    var inserted := Insert(held, b);
    assert b !in held;
    assert b !in all;
    assert |all + {b}| == |all| + 1;
    forall x | x in all + {b}
      ensures x in inserted
    {
      assert x in Elements(held) || x == b;
    }
  }

  lemma OldestLeaves(held: seq<Buffered>, all: set<Buffered>, b: Buffered)
    requires IsNewest(held, all) && !HasStart(held, b.start) && |held| == MAXIMUM_PACKETS
    ensures |Insert(held, b)| == MAXIMUM_PACKETS + 1
    ensures IsNewest(Insert(held, b)[1..], all + {b})
  {
    InsertElements(held, b);
    var inserted := Insert(held, b);
    var oldest, kept := inserted[0], inserted[1..];
    SubsetSize(all, all + {b});
    forall x | x in all + {b} && x !in kept
      ensures BeforeAll(x, kept)
    {
      if x != oldest {
        NotInTail(inserted, x);
        assert x in all && BeforeAll(x, held);
        assert oldest in inserted;
      }
      forall i | 0 <= i < |kept|
        ensures x.start < kept[i].start
      {
        assert kept[i] == inserted[i + 1] && inserted[i + 1] in inserted;
        assert oldest.start < kept[i].start;
      }
    }
    forall z | z in kept
      ensures z in all + {b}
    {
      assert z in inserted;
    }
  }

  lemma NotInTail(s: seq<Buffered>, x: Buffered)
    requires s != [] && x != s[0] && x !in s[1..]
    ensures x !in s
  {
    assert s == [s[0]] + s[1..];
  }

  /** What the buffer has that is still to be played. */
  ghost function Current(s: State): set<Buffered> {
    set b | b in s.packets && b.End() > s.mark
  }

  /** What the buffer has and what arrives agree: one format, and content fixed by the start frame. A
      buffer of disjoint packets always prunes exactly. */
  ghost predicate Fits(s: State, ps: seq<Wire.Packet>, format: Format) {
    && WellFormed(s) && (s.format.None? || s.format.value == format) && PrunedExactly(s.packets, s.mark)
    && OneStream(ps, format)
    && forall b, p :: b in Current(s) && p in ps && b.start == p.startFrame ==> b == ToBuffered(p)
  }

  ghost predicate HoldsNewest(t: State, s: State, all: set<Buffered>, format: Format) {
    && WellFormed(t) && t.mark == s.mark && (t.format == s.format || t.format == Some(format))
    && IsNewest(t.packets, all) && IsLatestEnd(t.latestEnd, s.latestEnd, all)
  }

  /** After any arrivals, whatever the buffer had before them, it holds exactly the newest 1024 of what it
      had and what was offered. Only the first arrival prunes, so without one nothing happens. */
  lemma HeldAreNewest(s: State, ps: seq<Wire.Packet>, format: Format)
    requires Fits(s, ps, format)
    ensures ps != [] ==> HoldsNewest(PushAll(s, ps), s, Current(s) + Offered(ps, s.mark), format)
    ensures ps == [] ==> PushAll(s, ps) == s
  {
    if ps != [] {
      var k := PruneIsSuffix(s.packets, s.mark);
      var pruned := s.(packets := s.packets[k..]);
      DropKeepsWellFormed(s, k);
      NothingExpired(s, pruned);
      FromPruned(pruned, ps, format);
      PrunedFirst(s, pruned, ps, format);
    }
  }

  lemma NothingExpired(s: State, pruned: State)
    requires PrunedExactly(s.packets, s.mark) && pruned == s.(packets := Prune(s.packets, s.mark))
    ensures Current(pruned) == Current(s) && forall b :: b in pruned.packets ==> b.End() > s.mark
  {
  }

  /** Pruning first changes nothing: the first arrival prunes anyway. */
  lemma {:induction false} PrunedFirst(s: State, pruned: State, ps: seq<Wire.Packet>, format: Format)
    requires pruned == s.(packets := Prune(s.packets, s.mark)) && (forall b :: b in pruned.packets ==> b.End() > s.mark)
    requires ps != [] && OneStream(ps, format)
    ensures PushAll(s, ps) == PushAll(pruned, ps)
  {
    var before, p := ps[..|ps| - 1], ps[|ps| - 1];
    assert before + [p] == ps;
    OneStreamPrefix(before, p, format);
    if before == [] {
      PruneNothing(pruned.packets, s.mark);
    } else {
      PrunedFirst(s, pruned, before, format);
    }
  }

  /** Nothing in the buffer is expired, and it agrees with what arrives. */
  ghost predicate Joins(s: State, ps: seq<Wire.Packet>, format: Format) {
    && WellFormed(s) && (s.format.None? || s.format.value == format) && OneStream(ps, format)
    && (forall b :: b in s.packets ==> b.End() > s.mark)
    && forall b, p :: b in Current(s) && p in ps && b.start == p.startFrame ==> b == ToBuffered(p)
  }

  lemma {:induction false} FromPruned(s: State, ps: seq<Wire.Packet>, format: Format)
    requires Joins(s, ps, format)
    ensures HoldsNewest(PushAll(s, ps), s, Current(s) + Offered(ps, s.mark), format)
  {
    hide Joins, HoldsNewest, Current, Offered, PushStep;
    if ps == [] {
      HoldsOwn(s, format);
    } else {
      var before, p := ps[..|ps| - 1], ps[|ps| - 1];
      assert before + [p] == ps;
      JoinsStep(s, before, p, format);
      FromPruned(s, before, format);
      HoldsStep(s, PushAll(s, before), before, p, format);
    }
  }

  lemma HoldsOwn(s: State, format: Format)
    requires Joins(s, [], format)
    ensures HoldsNewest(s, s, Current(s) + Offered([], s.mark), format)
  {
    AscendingSize(s.packets);
    assert Current(s) + Offered([], s.mark) == Elements(s.packets);
  }

  lemma HoldsStep(s: State, t: State, before: seq<Wire.Packet>, p: Wire.Packet, format: Format)
    requires Joins(s, before + [p], format) && HoldsNewest(t, s, Current(s) + Offered(before, s.mark), format)
    ensures HoldsNewest(PushStep(t, p).0, s, Current(s) + Offered(before + [p], s.mark), format)
  {
    hide Joins, Current, Offered, PushStep, WellFormed, Acceptable, FormatOf, IsNewest, IsLatestEnd;
    JoinsStep(s, before, p, format);
    PushKeepsWellFormed(t, p);
    NewestStep(t, p, format, s.latestEnd, Current(s) + Offered(before, s.mark));
  }

  lemma JoinsStep(s: State, before: seq<Wire.Packet>, p: Wire.Packet, format: Format)
    requires Joins(s, before + [p], format)
    ensures Joins(s, before, format) && Acceptable(p) && FormatOf(p) == format
            && (s.format.None? || s.format.value == format)
    ensures var b, all := ToBuffered(p), Current(s) + Offered(before, s.mark);
            && Current(s) + Offered(before + [p], s.mark) == all + (if b.End() > s.mark then {b} else {})
            && (forall x :: x in all ==> x.End() > s.mark)
            && (forall x :: x in all && x.start == b.start ==> x == b)
  {
    hide WellFormed, Acceptable, FormatOf;
    OneStreamPrefix(before, p, format);
    OfferedStep(before, p, s.mark, format);
    hide OneStream, Offered;
    assert p in before + [p];
    forall q | q in before
      ensures q in before + [p]
    {
    }
  }

  lemma OneStreamPrefix(before: seq<Wire.Packet>, p: Wire.Packet, format: Format)
    requires OneStream(before + [p], format)
    ensures OneStream(before, format) && Acceptable(p) && FormatOf(p) == format
  {
    assert p in before + [p];
    assert forall q :: q in before ==> q in before + [p];
  }

  lemma OfferedStep(before: seq<Wire.Packet>, p: Wire.Packet, mark: nat, format: Format)
    requires OneStream(before + [p], format)
    ensures var b := ToBuffered(p);
            && Offered(before + [p], mark) == Offered(before, mark) + (if b.End() > mark then {b} else {})
            && (forall x :: x in Offered(before, mark) ==> x.End() > mark)
            && (forall x :: x in Offered(before, mark) && x.start == b.start ==> x == b)
  {
    assert p in before + [p];
    forall q | q in before
      ensures q in before + [p]
    {
    }
  }

  /** `push` when nothing in the map is expired. */
  lemma PushUnpruned(t: State, p: Wire.Packet)
    requires Acceptable(p) && (t.format.None? || t.format.value == FormatOf(p))
    requires forall b :: b in t.packets ==> b.End() > t.mark
    ensures var u := PushStep(t, p).0;
            var b := ToBuffered(p);
            if b.End() <= t.mark then u == t.(late := t.late + 1)
            else if HasStart(t.packets, b.start)
              then u == t.(duplicates := t.duplicates + 1, format := Some(FormatOf(p)))
            else u == Admit(t, b, FormatOf(p))
  {
    PruneNothing(t.packets, t.mark);
    assert t.(packets := t.packets) == t;
  }

  lemma NewestStep(t: State, p: Wire.Packet, format: Format, initial: nat, all: set<Buffered>)
    requires Acceptable(p) && FormatOf(p) == format && (t.format.None? || t.format.value == format)
    requires IsNewest(t.packets, all) && IsLatestEnd(t.latestEnd, initial, all)
    requires forall b :: b in all ==> b.End() > t.mark
    requires forall x :: x in all && x.start == ToBuffered(p).start ==> x == ToBuffered(p)
    ensures var u := PushStep(t, p).0;
            var b := ToBuffered(p);
            var more := all + (if b.End() > t.mark then {b} else {});
            && u.mark == t.mark && (u.format == t.format || u.format == Some(format))
            && IsNewest(u.packets, more) && IsLatestEnd(u.latestEnd, initial, more)
  {
    var b := ToBuffered(p);
    PushUnpruned(t, p);
    if b.End() <= t.mark {
      assert all + {} == all;
    } else if HasStart(t.packets, b.start) {
      var i :| 0 <= i < |t.packets| && t.packets[i].start == b.start;
      assert t.packets[i] in t.packets;
      assert all + {b} == all;
    } else {
      AdmitKeepsNewest(t.packets, all, b);
      LatestEndStep(t.latestEnd, initial, all, b);
    }
  }

  lemma LatestEndStep(end: nat, initial: nat, all: set<Buffered>, b: Buffered)
    requires IsLatestEnd(end, initial, all)
    ensures IsLatestEnd(Max(end, b.End()), initial, all + {b})
  {
    if end < b.End() {
      assert b in all + {b};
    } else if end != initial {
      var x :| x in all && x.End() == end;
      assert x in all + {b};
    }
  }

  /** The newest 1024 of a set are one list. */
  lemma NewestIsUnique(h: seq<Buffered>, k: seq<Buffered>, all: set<Buffered>)
    requires IsNewest(h, all) && IsNewest(k, all)
    ensures h == k
  {
    AscendingSize(h);
    AscendingSize(k);
    if Elements(h) != Elements(k) {
      if Elements(h) <= Elements(k) {
        SubsetSize(Elements(h), Elements(k));
      }
      if Elements(k) <= Elements(h) {
        SubsetSize(Elements(k), Elements(h));
      }
    }
    SortedIsUnique(h, k);
  }

  lemma {:induction false} SortedIsUnique(h: seq<Buffered>, k: seq<Buffered>)
    requires Ascending(h) && Ascending(k) && Elements(h) == Elements(k)
    ensures h == k
  {
    AscendingSize(h);
    AscendingSize(k);
    if h != [] {
      var m, n := h[|h| - 1], k[|k| - 1];
      assert m in Elements(k) && n in Elements(h);
      assert m.start == n.start;
      assert m == n;
      var h', k' := h[..|h| - 1], k[..|k| - 1];
      assert Elements(h') == Elements(h) - {m} && Elements(k') == Elements(k) - {n};
      SortedIsUnique(h', k');
    }
  }

  /** Any two arrival orders of the same packets, with any repeats, into any buffer: the same map, the
      same latest end and the same expiry mark; every later read is therefore the same. */
  lemma ArrivalOrderIrrelevant(s: State, ps: seq<Wire.Packet>, qs: seq<Wire.Packet>, format: Format)
    requires Fits(s, ps, format) && Fits(s, qs, format)
    requires forall p :: p in ps <==> p in qs
    ensures var t, u := PushAll(s, ps), PushAll(s, qs);
            t.packets == u.packets && t.latestEnd == u.latestEnd && t.mark == u.mark
    ensures forall start: nat, size: nat ::
              Render(PushAll(s, ps).packets, format.channels, start, size)
              == Render(PushAll(s, qs).packets, format.channels, start, size)
  {
    hide Fits;
    HeldAreNewest(s, ps, format);
    HeldAreNewest(s, qs, format);
    SameElements(ps, qs);
    if ps != [] {
      var all := Current(s) + Offered(ps, s.mark);
      assert Current(s) + Offered(qs, s.mark) == all;
      NewestIsUnique(PushAll(s, ps).packets, PushAll(s, qs).packets, all);
      LatestEndIsUnique(PushAll(s, ps).latestEnd, PushAll(s, qs).latestEnd, s.latestEnd, all);
    }
  }

  lemma SameElements(ps: seq<Wire.Packet>, qs: seq<Wire.Packet>)
    requires forall p :: p in ps <==> p in qs
    ensures ps == [] <==> qs == []
  {
    if ps != [] {
      assert ps[0] in qs;
    }
    if qs != [] {
      assert qs[0] in ps;
    }
  }

  lemma LatestEndIsUnique(x: nat, y: nat, initial: nat, all: set<Buffered>)
    requires IsLatestEnd(x, initial, all) && IsLatestEnd(y, initial, all)
    ensures x == y
  {
  }

  /** An empty buffer fits any stream of its format. */
  lemma EmptyFits(s: State, ps: seq<Wire.Packet>, format: Format)
    requires WellFormed(s) && s.packets == [] && (s.format.None? || s.format.value == format) && OneStream(ps, format)
    ensures Fits(s, ps, format) && Current(s) + Offered(ps, s.mark) == Offered(ps, s.mark)
  {
    assert Current(s) == {};
  }
}
