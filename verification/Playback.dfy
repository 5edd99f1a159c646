/** What of a stretch the desktop client plays while packets keep arriving: the host's packets
    (`EndToEnd.dfy`) in any interleaving with the chunks of the audio callback (`ReceivePath.dfy`). */
module Playback {
  import opened Numbers
  import opened JitterBuffers
  import opened ReceivePath
  import ArrivalOrder
  import EndToEnd
  import Host
  import Players
  import Wire

  /** The packets that have arrived, in order. */
  function Arrived(es: seq<Event>): seq<Wire.Packet> {
    if es == [] then []
    else if es[0].Arrive? then [es[0].packet] + Arrived(es[1..])
    else Arrived(es[1..])
  }

  /** What arrived and is not expired is held, and nothing that has not arrived. */
  ghost predicate HoldsArrived(s: System, arrived: seq<Wire.Packet>, format: Format) {
    && (forall p :: p in arrived && ToBuffered(p).End() > s.buffer.mark ==> ToBuffered(p) in s.buffer.packets)
    && (forall b :: b in s.buffer.packets ==> b in EndToEnd.AllBuffered(arrived))
    && (s.buffer.format.None? || s.buffer.format == Some(format))
  }

  lemma ArrivalKeeps(s: System, arrived: seq<Wire.Packet>, p: Wire.Packet, format: Format)
    requires Valid(s) && HoldsArrived(s, arrived, format)
    requires ArrivalOrder.OneStream(arrived + [p], format)
    requires PushStep(s.buffer, p).0.overflow == s.buffer.overflow
    ensures HoldsArrived(Step(s, Arrive(p)), arrived + [p], format)
  {
    hide Acceptable, ToBuffered, FormatOf, Prune, Insert, Players.Position;
    var b, t := ToBuffered(p), PushStep(s.buffer, p).0;
    var k := PruneIsSuffix(s.buffer.packets, s.buffer.mark);
    var pruned := s.buffer.packets[k..];
    DropKeepsWellFormed(s.buffer, k);
    assert p in arrived + [p];
    if PushStep(s.buffer, p).1 == Inserted {
      InsertElements(pruned, b);
    } else if PushStep(s.buffer, p).1 == Duplicate {
      var i :| 0 <= i < |pruned| && pruned[i].start == b.start;
      SameStartSameBuffered(arrived, p, pruned[i], format);
    }
    forall q | q in arrived + [p] && ToBuffered(q).End() > s.buffer.mark
      ensures ToBuffered(q) in t.packets
    {
      if q in arrived {
        PruneKeepsUnexpired(s.buffer.packets, s.buffer.mark, ToBuffered(q));
      }
    }
    forall x | x in t.packets
      ensures x in EndToEnd.AllBuffered(arrived + [p])
    {
      assert x in s.buffer.packets || x == b;
      AllBufferedGrows(arrived, p, x);
    }
  }

  lemma SameStartSameBuffered(arrived: seq<Wire.Packet>, p: Wire.Packet, held: Buffered, format: Format)
    requires ArrivalOrder.OneStream(arrived + [p], format)
    requires held in EndToEnd.AllBuffered(arrived) && held.start == ToBuffered(p).start
    ensures held == ToBuffered(p)
  {
    hide Acceptable, FormatOf;
    var q :| q in arrived && ToBuffered(q) == held;
    assert q in arrived + [p] && p in arrived + [p];
  }

  lemma AllBufferedGrows(arrived: seq<Wire.Packet>, p: Wire.Packet, x: Buffered)
    requires x in EndToEnd.AllBuffered(arrived) || x == ToBuffered(p)
    ensures x in EndToEnd.AllBuffered(arrived + [p])
  {
    hide ToBuffered;
    if x in EndToEnd.AllBuffered(arrived) {
      var q :| q in arrived && ToBuffered(q) == x;
      assert q in arrived + [p];
    } else {
      assert p in arrived + [p];
    }
  }

  /** The packets do not overlap. */
  ghost predicate Apart(ps: seq<Wire.Packet>) {
    forall p, q :: p in ps && q in ps && p.startFrame < q.startFrame ==> Host.EndOf(p) <= q.startFrame
  }

  /** Whenever a packet arrives, at most 1024 of those that have arrived are not yet expired. */
  ghost predicate Roomy(s: System, arrived: seq<Wire.Packet>, es: seq<Event>)
    requires Valid(s) && Feasible(s, es)
    decreases |es|
  {
    es == []
    || (StepKeepsValid(s, es[0]);
        if es[0].Arrive?
        then
          && |ArrivalOrder.Offered(arrived + [es[0].packet], s.buffer.mark)| <= MAXIMUM_PACKETS
          && Roomy(Step(s, es[0]), arrived + [es[0].packet], es[1..])
        else Roomy(Step(s, es[0]), arrived, es[1..]))
  }

  lemma HeldPruneExactly(s: System, arrived: seq<Wire.Packet>, format: Format)
    requires Valid(s) && HoldsArrived(s, arrived, format) && Apart(arrived)
    ensures PrunedExactly(s.buffer.packets, s.buffer.mark)
    ensures ArrivalOrder.Elements(Prune(s.buffer.packets, s.buffer.mark))
            == ArrivalOrder.Offered(arrived, s.buffer.mark)
    ensures |Prune(s.buffer.packets, s.buffer.mark)| == |ArrivalOrder.Offered(arrived, s.buffer.mark)|
  {
    hide Players.Position;
    var held := s.buffer.packets;
    forall i, j | 0 <= i < j < |held|
      ensures held[i].End() <= held[j].End()
    {
      assert held[i] in EndToEnd.AllBuffered(arrived) && held[j] in EndToEnd.AllBuffered(arrived);
    }
    PruneExact(held, s.buffer.mark);
    var k := PruneIsSuffix(held, s.buffer.mark);
    ArrivalOrder.AscendingSize(held[k..]);
  }

  /** A push overflows exactly if more than 1024 unexpired packets have then arrived. */
  lemma OverflowIff(s: System, arrived: seq<Wire.Packet>, p: Wire.Packet, format: Format)
    requires Valid(s) && HoldsArrived(s, arrived, format)
    requires ArrivalOrder.OneStream(arrived + [p], format) && Apart(arrived)
    ensures PushStep(s.buffer, p).0.overflow == s.buffer.overflow
       <==> |ArrivalOrder.Offered(arrived + [p], s.buffer.mark)| <= MAXIMUM_PACKETS
  {
    HeldPruneExactly(s, arrived, format);
    ArrivalOrder.OneStreamPrefix(arrived, p, format);
    ArrivalOrder.OfferedStep(arrived, p, s.buffer.mark, format);
    hide ToBuffered, Acceptable, FormatOf, Players.Position, ArrivalOrder.OneStream, ArrivalOrder.Offered, PushStep;
    PushOverflows(s.buffer, p, ArrivalOrder.Offered(arrived, s.buffer.mark));
  }

  lemma PushOverflows(s: State, p: Wire.Packet, all: set<Buffered>)
    requires WellFormed(s) && Acceptable(p) && (s.format.None? || s.format.value == FormatOf(p))
    requires var pruned := Prune(s.packets, s.mark); ArrivalOrder.Elements(pruned) == all && |pruned| == |all|
    requires forall x :: x in all && x.start == ToBuffered(p).start ==> x == ToBuffered(p)
    ensures PushStep(s, p).0.overflow == s.overflow
       <==> |all + (if ToBuffered(p).End() > s.mark then {ToBuffered(p)} else {})| <= MAXIMUM_PACKETS
  {
    OverflowsWhenFull(s, p);
    hide PushStep, WellFormed, ToBuffered, Acceptable, FormatOf, Prune;
    var b, pruned := ToBuffered(p), Prune(s.packets, s.mark);
    if b.End() <= s.mark {
      assert all + {} == all;
    } else if HasStart(pruned, b.start) {
      var i :| 0 <= i < |pruned| && pruned[i].start == b.start;
      assert pruned[i] in ArrivalOrder.Elements(pruned);
      assert all + {b} == all;
    } else {
      NotHeld(pruned, b);
      assert |all + {b}| == |all| + 1;
    }
  }

  lemma OverflowsWhenFull(s: State, p: Wire.Packet)
    requires WellFormed(s) && Acceptable(p) && (s.format.None? || s.format.value == FormatOf(p))
    ensures var pruned := Prune(s.packets, s.mark);
            && |pruned| <= MAXIMUM_PACKETS
            && (PushStep(s, p).0.overflow > s.overflow
                <==> ToBuffered(p).End() > s.mark && !HasStart(pruned, ToBuffered(p).start)
                     && |pruned| == MAXIMUM_PACKETS)
            && PushStep(s, p).0.overflow >= s.overflow
  {
    var k := PruneIsSuffix(s.packets, s.mark);
    DropKeepsWellFormed(s, k);
    hide ToBuffered, Acceptable, FormatOf, AllShaped, EndsWithin, Prune;
    var pruned := Prune(s.packets, s.mark);
    if !HasStart(pruned, ToBuffered(p).start) {
      InsertElements(pruned, ToBuffered(p));
    }
    hide Insert, HasStart;
  }

  lemma NotHeld(ps: seq<Buffered>, b: Buffered)
    requires !HasStart(ps, b.start)
    ensures b !in ArrivalOrder.Elements(ps)
  {
  }

  /** So a run overflows exactly if it is not roomy; and until then the buffer holds what has arrived. */
  lemma {:induction false} NoOverflowIff(s: System, arrived: seq<Wire.Packet>, es: seq<Event>, format: Format)
    requires Valid(s) && Feasible(s, es) && HoldsArrived(s, arrived, format)
    requires ArrivalOrder.OneStream(arrived + Arrived(es), format) && Apart(arrived + Arrived(es))
    ensures Run(s, es).buffer.overflow == s.buffer.overflow <==> Roomy(s, arrived, es)
    ensures Roomy(s, arrived, es) ==> HoldsArrived(Run(s, es), arrived + Arrived(es), format)
    decreases |es|
  {
    hide HoldsArrived, ArrivalOrder.OneStream, PushStep, Players.Position, Valid, Apart;
    if es == [] {
      assert arrived + Arrived(es) == arrived;
    } else {
      var e := es[0];
      StepKeepsValid(s, e);
      var t := Step(s, e);
      RunGrows(t, es[1..]);
      OverflowGrows(s, e);
      if e.Arrive? {
        assert arrived + Arrived(es) == (arrived + [e.packet]) + Arrived(es[1..]);
        Fewer(arrived + Arrived(es), arrived + [e.packet], format);
        Fewer(arrived + Arrived(es), arrived, format);
        OverflowIff(s, arrived, e.packet, format);
        if t.buffer.overflow == s.buffer.overflow {
          ArrivalKeeps(s, arrived, e.packet, format);
          NoOverflowIff(t, arrived + [e.packet], es[1..], format);
        }
      } else {
        PlayingKeeps(s, arrived, e, format);
        NoOverflowIff(t, arrived, es[1..], format);
      }
    }
  }

  lemma OverflowGrows(s: System, e: Event)
    requires Valid(s) && Enabled(s, e)
    ensures s.buffer.overflow <= Step(s, e).buffer.overflow
    ensures e.Arrive? ==> Step(s, e).buffer == PushStep(s.buffer, e.packet).0
    ensures !e.Arrive? ==> Step(s, e).buffer.overflow == s.buffer.overflow
  {
  }

  lemma PlayingKeeps(s: System, arrived: seq<Wire.Packet>, e: Event, format: Format)
    requires Valid(s) && Enabled(s, e) && !e.Arrive? && HoldsArrived(s, arrived, format)
    ensures HoldsArrived(Step(s, e), arrived, format)
    ensures Step(s, e).buffer.overflow == s.buffer.overflow
  {
    StepKeepsValid(s, e);
    hide ToBuffered, EndToEnd.AllBuffered, Players.Position;
  }

  lemma Fewer(ps: seq<Wire.Packet>, fewer: seq<Wire.Packet>, format: Format)
    requires ArrivalOrder.OneStream(ps, format) && Apart(ps) && forall p :: p in fewer ==> p in ps
    ensures ArrivalOrder.OneStream(fewer, format) && Apart(fewer)
  {
    hide ToBuffered, Acceptable, FormatOf;
  }

  lemma TilesAreApart(ps: seq<Wire.Packet>, first: nat, last: nat)
    requires Host.Tiles(ps, first, last)
    ensures Apart(ps)
  {
    Host.TilesAreOrdered(ps, first, last);
    forall p, q | p in ps && q in ps && p.startFrame < q.startFrame
      ensures Host.EndOf(p) <= q.startFrame
    {
      var i :| 0 <= i < |ps| && ps[i] == p;
      var j :| 0 <= j < |ps| && ps[j] == q;
    }
  }

  lemma {:induction false} ArrivedFrom(es: seq<Event>, ps: seq<Wire.Packet>)
    requires forall e :: e in es && e.Arrive? ==> e.packet in ps
    ensures forall p :: p in Arrived(es) ==> p in ps
  {
    if es != [] {
      ArrivedFrom(es[1..], ps);
    }
  }

  /** A client that has joined: nothing has arrived and the callback may be anywhere. */
  ghost predicate Joined(s: System) {
    Valid(s) && s.buffer == EMPTY
  }

  lemma StretchIsHeld(g: EndToEnd.Programme, ts: seq<EndToEnd.Transmission>, stream: u32, ps: seq<Wire.Packet>,
                      first: nat, last: nat, s: System, es: seq<Event>)
    requires EndToEnd.IsHostRun(g, ts) && EndToEnd.IsStretch(g, ts, stream, ps, first, last)
    requires Joined(s) && Feasible(s, es) && (forall e :: e in es && e.Arrive? ==> e.packet in ps)
    ensures ArrivalOrder.OneStream(Arrived(es), Format(g.sampleRate, g.channels)) && Apart(Arrived(es))
    ensures forall b :: b in EndToEnd.AllBuffered(Arrived(es)) ==> EndToEnd.Carries(g, b)
    ensures Run(s, es).buffer.overflow == 0 <==> Roomy(s, [], es)
    ensures Roomy(s, [], es) ==> HoldsArrived(Run(s, es), Arrived(es), Format(g.sampleRate, g.channels))
  {
    hide EndToEnd.IsHostRun, ArrivalOrder.OneStream, EndToEnd.Carries, Run, Feasible, Players.Position, Wire.WellFormed,
         Host.Tiles, EndToEnd.Sent, Roomy;
    var format, arrived := Format(g.sampleRate, g.channels), Arrived(es);
    ArrivedFrom(es, ps);
    EndToEnd.StretchIsOneStream(g, ts, stream, ps, first, last, arrived);
    EndToEnd.StretchIsOneStream(g, ts, stream, ps, first, last, ps);
    TilesAreApart(ps, first, last);
    Fewer(ps, arrived, format);
    assert HoldsArrived(s, [], format);
    assert [] + arrived == arrived;
    NoOverflowIff(s, [], es, format);
  }

  /** Overflow in terms of what arrives: the buffer loses a packet to its 1024 limit exactly if at some arrival
      more than 1024 packets of the stretch have arrived and still end after the expiry mark. */
  lemma OverflowsIff(g: EndToEnd.Programme, ts: seq<EndToEnd.Transmission>, stream: u32, ps: seq<Wire.Packet>,
                     first: nat, last: nat, s: System, es: seq<Event>)
    requires EndToEnd.IsHostRun(g, ts) && EndToEnd.IsStretch(g, ts, stream, ps, first, last)
    requires Joined(s) && Feasible(s, es) && (forall e :: e in es && e.Arrive? ==> e.packet in ps)
    ensures Run(s, es).buffer.overflow > 0 <==> !Roomy(s, [], es)
  {
    hide EndToEnd.IsHostRun, EndToEnd.IsStretch, Run, Feasible, Roomy;
    StretchIsHeld(g, ts, stream, ps, first, last, s, es);
  }

  /** The whole path while it runs: for a stretch of any length and any interleaving of arrivals, chunks and
      failed try-locks that leaves room, a frame that is still to be read is the source's own if and only
      if a packet holding it has arrived, and silence otherwise. */
  lemma FramesInTimeAreTheSource(g: EndToEnd.Programme, ts: seq<EndToEnd.Transmission>, stream: u32,
                                 ps: seq<Wire.Packet>, first: nat, last: nat, s: System, es: seq<Event>,
                                 frame: nat, channel: nat)
    requires EndToEnd.IsHostRun(g, ts) && EndToEnd.IsStretch(g, ts, stream, ps, first, last)
    requires Joined(s) && Feasible(s, es) && (forall e :: e in es && e.Arrive? ==> e.packet in ps)
    requires Roomy(s, [], es) && NextFrame(Run(s, es)) <= frame && channel < g.channels
    ensures EndToEnd.ReadsAs(g, Run(s, es).buffer.packets, frame, channel, EndToEnd.Delivered(Arrived(es), frame))
  {
    hide EndToEnd.IsHostRun, EndToEnd.IsStretch, ArrivalOrder.OneStream, EndToEnd.Carries, Run, Feasible,
         Players.Position, SampleAt, Wire.WellFormed, Roomy;
    var format, t, arrived := Format(g.sampleRate, g.channels), Run(s, es), Arrived(es);
    StretchIsHeld(g, ts, stream, ps, first, last, s, es);
    ReceivedIffArrived(t, arrived, format, frame);
    if t.buffer.format.Some? {
      EndToEnd.SourceOrSilence(g, t.buffer, frame, channel);
    } else {
      assert SampleAt([], g.channels, frame * g.channels + channel) == 0 by { NothingHeld(g.channels, frame, channel); }
    }
  }

  /** In any such state the rest of the stretch fits the buffer, so the order in which it arrives before the
      next read leaves no trace. */
  lemma OrderLeavesNoTrace(g: EndToEnd.Programme, ts: seq<EndToEnd.Transmission>, stream: u32, ps: seq<Wire.Packet>,
                           first: nat, last: nat, s: System, es: seq<Event>, more: seq<Wire.Packet>,
                           others: seq<Wire.Packet>)
    requires EndToEnd.IsHostRun(g, ts) && EndToEnd.IsStretch(g, ts, stream, ps, first, last)
    requires Joined(s) && Feasible(s, es) && (forall e :: e in es && e.Arrive? ==> e.packet in ps)
    requires Roomy(s, [], es) && (forall p :: p in more ==> p in ps) && (forall p :: p in more <==> p in others)
    ensures var b := Run(s, es).buffer;
            var t, u := ArrivalOrder.PushAll(b, more), ArrivalOrder.PushAll(b, others);
            t.packets == u.packets && t.latestEnd == u.latestEnd && t.mark == u.mark
  {
    hide EndToEnd.IsHostRun, EndToEnd.IsStretch, Run, Feasible, Roomy, ArrivalOrder.Fits, ArrivalOrder.PushAll;
    var format := Format(g.sampleRate, g.channels);
    ArrivedFrom(es, ps);
    StretchIsHeld(g, ts, stream, ps, first, last, s, es);
    EndToEnd.StretchIsOneStream(g, ts, stream, ps, first, last, Arrived(es) + more);
    EndToEnd.StretchIsOneStream(g, ts, stream, ps, first, last, Arrived(es) + others);
    FitsMore(Run(s, es), Arrived(es), more, format);
    FitsMore(Run(s, es), Arrived(es), others, format);
    ArrivalOrder.ArrivalOrderIrrelevant(Run(s, es).buffer, more, others, format);
  }

  lemma FitsMore(s: System, arrived: seq<Wire.Packet>, more: seq<Wire.Packet>, format: Format)
    requires Valid(s) && HoldsArrived(s, arrived, format) && Apart(arrived)
    requires ArrivalOrder.OneStream(arrived + more, format)
    ensures ArrivalOrder.Fits(s.buffer, more, format)
  {
    hide ToBuffered, Acceptable, FormatOf, PrunedExactly, Players.Position;
    HeldPruneExactly(s, arrived, format);
    forall p | p in more
      ensures p in arrived + more
    {
    }
    forall b, p | b in ArrivalOrder.Current(s.buffer) && p in more && b.start == p.startFrame
      ensures b == ToBuffered(p)
    {
      var q :| q in arrived && ToBuffered(q) == b;
      assert q in arrived + more;
      SameStart(q);
    }
  }

  lemma SameStart(p: Wire.Packet)
    ensures ToBuffered(p).start == p.startFrame
  {
  }

  lemma NothingHeld(channels: nat, frame: nat, channel: nat)
    ensures SampleAt([], channels, frame * channels + channel) == 0
  {
  }

  lemma ReceivedIffArrived(s: System, arrived: seq<Wire.Packet>, format: Format, frame: nat)
    requires Valid(s) && HoldsArrived(s, arrived, format) && NextFrame(s) <= frame
    ensures Received(s.buffer.packets, frame) <==> EndToEnd.Delivered(arrived, frame)
  {
    hide Players.Position;
    var held := s.buffer.packets;
    if Received(held, frame) {
      var i :| 0 <= i < |held| && held[i].Covers(frame);
      assert held[i] in EndToEnd.AllBuffered(arrived);
    }
    if EndToEnd.Delivered(arrived, frame) {
      var p :| p in arrived && p.startFrame <= frame < Host.EndOf(p);
      assert ToBuffered(p) in held;
      var i :| 0 <= i < |held| && held[i] == ToBuffered(p);
    }
  }

  /** The source's own sample if a packet holding the frame has arrived, silence otherwise. */
  ghost function Arrival(g: EndToEnd.Programme, arrived: seq<Wire.Packet>, frame: nat, channel: nat): i16 {
    var a := frame * g.channels + channel;
    if EndToEnd.Delivered(arrived, frame) && a < |g.source| then g.source[a] else 0
  }

  /** ... and so the callback's next chunk is made of what has arrived: at every position `at` from the cursor
      on it puts out the point between two frames of the source, to the nearest integer and the first of them
      at a whole position, with silence for those that no packet has brought. */
  lemma NextChunkIsWhatArrived(g: EndToEnd.Programme, ts: seq<EndToEnd.Transmission>, stream: u32,
                               ps: seq<Wire.Packet>, first: nat, last: nat, s: System, es: seq<Event>,
                               at: real, channel: nat, sample: i16)
    requires EndToEnd.IsHostRun(g, ts) && EndToEnd.IsStretch(g, ts, stream, ps, first, last)
    requires Joined(s) && Feasible(s, es) && (forall e :: e in es && e.Arrive? ==> e.packet in ps)
    requires Roomy(s, [], es) && Run(s, es).reading.None? && at >= Run(s, es).frame as real && channel < g.channels
    requires Players.SoundsAt(sample, Run(s, es).buffer.packets, g.channels, at, channel)
    ensures var arrived := Arrived(es);
            var left, right := Arrival(g, arrived, at.Floor, channel), Arrival(g, arrived, at.Floor + 1, channel);
            && Players.Nearest(sample, left, right, at - at.Floor as real)
            && (at == at.Floor as real ==> sample == left)
  {
    hide EndToEnd.IsHostRun, EndToEnd.IsStretch, Run, Feasible, Roomy, EndToEnd.Delivered, SampleAt, Players.Nearest;
    FramesInTimeAreTheSource(g, ts, stream, ps, first, last, s, es, at.Floor, channel);
    FramesInTimeAreTheSource(g, ts, stream, ps, first, last, s, es, at.Floor + 1, channel);
  }
}
