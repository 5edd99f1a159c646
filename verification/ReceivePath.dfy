/** The receiver thread and the audio callback sharing one jitter buffer, step by step.
    A chunk of the callback is two steps, because the buffer's mutex is released between the
    read (line 298) and the cursor update (line 331) of
    desktop/src/DesktopAudioClient.cpp; packets may arrive in between. */
module ReceivePath {
  import opened Numbers
  import opened JitterBuffers
  import opened Players
  import Wire

  /** `reading` is the size of the chunk that has been read but not yet advanced over. */
  datatype System = System(buffer: State, frame: nat, fraction: real, ratio: real, reading: Option<nat>)

  datatype Event =
    | Arrive(packet: Wire.Packet)
    | BeginCallback(target: real)
    | ReadChunk(chunk: nat, lock: bool)
    | Advance

  /** The first frame that a later read can ask for. */
  function NextFrame(s: System): int {
    if s.reading.Some? then s.frame + Position(s.fraction, s.ratio, s.reading.value).Floor else s.frame
  }

  predicate Enabled(s: System, e: Event) {
    match e
    case Arrive(_) => true
    case BeginCallback(target) => s.reading.None? && RatioInRange(target)
    case ReadChunk(chunk, _) => s.reading.None? && 0 < chunk <= CHUNK_LIMIT && s.frame + SOURCE_CAPACITY < U64_LIMIT
    case Advance => s.reading.Some?
  }

  function AfterRead(b: State, frame: nat, sourceFrames: nat, lock: bool): State {
    if Served(b, if b.format.Some? then sourceFrames * b.format.value.channels else 0, lock)
    then b.(mark := MarkAfter(b.mark, frame, sourceFrames, true))
    else b
  }

  function Step(s: System, e: Event): System
    requires Valid(s) && Enabled(s, e)
  {
    match e
    case Arrive(p) => s.(buffer := PushStep(s.buffer, p).0)
    case BeginCallback(target) => s.(ratio := Slew(s.ratio, target))
    case ReadChunk(chunk, lock) =>
      PositionGrows(s.fraction, s.ratio, 0, chunk);
      s.(buffer := AfterRead(s.buffer, s.frame, SourceFrames(s.fraction, s.ratio, chunk), lock), reading := Some(chunk))
    case Advance =>
      PositionGrows(s.fraction, s.ratio, 0, s.reading.value);
      var next := Position(s.fraction, s.ratio, s.reading.value);
      s.(frame := s.frame + next.Floor, fraction := next - next.Floor as real, reading := None)
  }

  /** The invariant: the expiry mark never passes the first frame still to be read. */
  ghost predicate Valid(s: System) {
    && WellFormed(s.buffer)
    && 0.0 <= s.fraction < 1.0
    && RatioInRange(s.ratio)
    && (s.reading.Some? ==> 0 < s.reading.value <= CHUNK_LIMIT)
    && s.buffer.mark <= NextFrame(s)
  }

  ghost predicate Feasible(s: System, es: seq<Event>)
    requires Valid(s)
    decreases |es|
  {
    es == [] || (Enabled(s, es[0]) && (StepKeepsValid(s, es[0]); Feasible(Step(s, es[0]), es[1..])))
  }

  ghost function Run(s: System, es: seq<Event>): (t: System)
    requires Valid(s) && Feasible(s, es)
    ensures Valid(t)
    decreases |es|
  {
    if es == [] then s
    else
      StepKeepsValid(s, es[0]);
      Run(Step(s, es[0]), es[1..])
  }

  /** The lookahead of two cancels the two extra frames of the request. */
  lemma ReadMovesMarkToNextFrame(s: System, chunk: nat, lock: bool)
    requires Valid(s) && Enabled(s, ReadChunk(chunk, lock))
    ensures var t := Step(s, ReadChunk(chunk, lock));
            && t.buffer.packets == s.buffer.packets
            && (t.buffer.mark == NextFrame(t) || t.buffer.mark == s.buffer.mark)
            && (lock && s.buffer.format.Some? ==> t.buffer.mark == NextFrame(t))
  {
    ChunkRequest(s.fraction, s.ratio, chunk, 0);
    PositionGrows(s.fraction, s.ratio, 0, chunk);
    if s.buffer.format.Some? {
      RequestIsServed(s.buffer, s.frame, SourceFrames(s.fraction, s.ratio, chunk), lock);
    }
    hide Position, WellFormed, MarkAfter, Served;
  }

  lemma StepKeepsValid(s: System, e: Event)
    requires Valid(s) && Enabled(s, e)
    ensures Valid(Step(s, e))
    ensures NextFrame(s) <= NextFrame(Step(s, e))
  {
    match e
    case Arrive(p) =>
      PushKeepsWellFormed(s.buffer, p);
    case BeginCallback(_) =>
    case ReadChunk(chunk, lock) =>
      ReadMovesMarkToNextFrame(s, chunk, lock);
      PositionGrows(s.fraction, s.ratio, 0, chunk);
      ChunkRequest(s.fraction, s.ratio, chunk, 0);
    case Advance =>
      PositionGrows(s.fraction, s.ratio, 0, s.reading.value);
  }

  // ---- The cursor and the ratio over a run ------------------------------------------------

  /** Where the cursor is, or will be once it has advanced over the chunk being read. */
  function Cursor(s: System): real {
    s.frame as real + s.fraction + (if s.reading.Some? then s.reading.value else 0) as real * s.ratio
  }

  /** Output frames that the chunks of a run ask for. */
  function Played(es: seq<Event>): nat {
    if es == [] then 0 else (if es[0].ReadChunk? then es[0].chunk else 0) + Played(es[1..])
  }

  /** Within a callback the cursor moves by the ratio for every frame put out, neither more nor less, whatever arrives
      in between and whichever try-locks fail. */
  lemma {:induction false} CursorFollowsRatio(s: System, es: seq<Event>)
    requires Valid(s) && Feasible(s, es) && forall e :: e in es ==> !e.BeginCallback?
    ensures var t := Run(s, es);
            t.ratio == s.ratio && Cursor(t) == Cursor(s) + Played(es) as real * s.ratio
    decreases |es|
  {
    hide Valid, Step, Enabled;
    if es != [] {
      StepKeepsValid(s, es[0]);
      CursorStep(s, es[0]);
      CursorFollowsRatio(Step(s, es[0]), es[1..]);
      Distribute(if es[0].ReadChunk? then es[0].chunk else 0, Played(es[1..]), s.ratio);
      hide Cursor;
    }
  }

  lemma Distribute(a: nat, b: nat, ratio: real)
    ensures (a + b) as real * ratio == a as real * ratio + b as real * ratio
  {
    assert (a + b) as real == a as real + b as real;
  }

  lemma CursorStep(s: System, e: Event)
    requires Valid(s) && Enabled(s, e) && !e.BeginCallback?
    ensures Step(s, e).ratio == s.ratio
    ensures Cursor(Step(s, e)) == Cursor(s) + (if e.ReadChunk? then e.chunk else 0) as real * s.ratio
  {
    hide PushStep, AfterRead, WellFormed;
  }

  /** The targets of the callbacks of a run. */
  function Targets(es: seq<Event>): seq<real> {
    if es == [] then [] else (if es[0].BeginCallback? then [es[0].target] else []) + Targets(es[1..])
  }

  ghost predicate AllInRange(targets: seq<real>) {
    forall t :: t in targets ==> RatioInRange(t)
  }

  /** The ratio takes one step towards the target at each callback and at no other time. */
  lemma {:induction false} RatioFollowsTargets(s: System, es: seq<Event>)
    requires Valid(s) && Feasible(s, es)
    ensures AllInRange(Targets(es)) && Run(s, es).ratio == SlewAll(s.ratio, Targets(es))
    decreases |es|
  {
    assert RatioInRange(s.ratio) && AllInRange([]);
    hide Valid, Step, Enabled, RatioInRange, SlewAll, AllInRange;
    if es != [] {
      StepKeepsValid(s, es[0]);
      RatioFollowsTargets(Step(s, es[0]), es[1..]);
      if es[0].BeginCallback? {
        CallbackSlews(s, es[0]);
        SlewFirst(s.ratio, es[0].target, Targets(es[1..]));
      } else {
        CursorStep(s, es[0]);
        assert Targets(es) == Targets(es[1..]);
      }
    } else {
      NoTargets(s.ratio);
    }
  }

  lemma NoTargets(ratio: real)
    requires RatioInRange(ratio)
    ensures SlewAll(ratio, []) == ratio
  {
  }

  lemma CallbackSlews(s: System, e: Event)
    requires Valid(s) && Enabled(s, e) && e.BeginCallback?
    ensures RatioInRange(s.ratio) && RatioInRange(e.target) && Step(s, e).ratio == Slew(s.ratio, e.target)
  {
  }

  lemma {:induction false} SlewFirst(ratio: real, target: real, targets: seq<real>)
    requires RatioInRange(ratio) && RatioInRange(target) && AllInRange(targets)
    ensures AllInRange([target] + targets)
    ensures SlewAll(ratio, [target] + targets) == SlewAll(Slew(ratio, target), targets)
  {
    var all := [target] + targets;
    if targets == [] {
      assert all[..0] == [];
    } else {
      SlewFirst(ratio, target, targets[..|targets| - 1]);
      assert all[..|all| - 1] == [target] + targets[..|targets| - 1];
    }
  }

  /** A packet that holds any frame still to be played is never refused as late, whatever
      happened before. */
  lemma NeverLateInTime(s: System, es: seq<Event>, p: Wire.Packet)
    requires Valid(s) && Feasible(s, es) && Acceptable(p)
    requires ToBuffered(p).End() > NextFrame(Run(s, es))
    ensures PushStep(Run(s, es).buffer, p).1 != Late
  {
  }

  lemma PruneKeepsUnexpired(ps: seq<Buffered>, mark: nat, q: Buffered)
    requires q in ps && q.End() > mark
    ensures q in Prune(ps, mark)
  {
    var k := PruneIsSuffix(ps, mark);
    var i :| 0 <= i < |ps| && ps[i] == q;
    assert ps[k..][i - k] == q;
  }

  lemma StepKeepsPacket(s: System, e: Event, q: Buffered)
    requires Valid(s) && Enabled(s, e) && q in s.buffer.packets && q.End() > NextFrame(s)
    ensures Step(s, e).buffer.overflow >= s.buffer.overflow
    ensures Step(s, e).buffer.overflow == s.buffer.overflow ==> q in Step(s, e).buffer.packets
  {
    hide PushStep, SourceFrames, Slew, WellFormed;
    match e
    case Arrive(p) =>
      ArriveKeepsPacket(s.buffer, p, q);
    case BeginCallback(_) =>
    case ReadChunk(_, _) =>
    case Advance =>
  }

  lemma ArriveKeepsPacket(b: State, p: Wire.Packet, q: Buffered)
    requires WellFormed(b) && q in b.packets && q.End() > b.mark
    ensures PushStep(b, p).0.overflow >= b.overflow
    ensures PushStep(b, p).0.overflow == b.overflow ==> q in PushStep(b, p).0.packets
  {
    hide Acceptable, Prune;
    PruneKeepsUnexpired(b.packets, b.mark, q);
    if Acceptable(p) && PushStep(b, p).1 == Inserted {
      var k := PruneIsSuffix(b.packets, b.mark);
      DropKeepsWellFormed(b, k);
      InsertElements(b.packets[k..], ToBuffered(p));
    }
  }

  /** Only the 1024 cap can remove a held packet before its last frame is played: in every
      interleaving of arrivals, callbacks and failed try-locks, if no overflow happened the
      packet is still there while any of its frames is still to be read. */
  lemma {:induction false} OnlyOverflowRemoves(s: System, es: seq<Event>, q: Buffered)
    requires Valid(s) && Feasible(s, es)
    requires q in s.buffer.packets && q.End() > NextFrame(Run(s, es))
    ensures NextFrame(s) <= NextFrame(Run(s, es))
    ensures Run(s, es).buffer.overflow >= s.buffer.overflow
    ensures Run(s, es).buffer.overflow == s.buffer.overflow ==> q in Run(s, es).buffer.packets
    decreases |es|
  {
    if es != [] {
      StepKeepsValid(s, es[0]);
      RunGrows(Step(s, es[0]), es[1..]);
      StepKeepsPacket(s, es[0], q);
      if Step(s, es[0]).buffer.overflow == s.buffer.overflow {
        OnlyOverflowRemoves(Step(s, es[0]), es[1..], q);
      }
    }
  }

  lemma {:induction false} RunGrows(s: System, es: seq<Event>)
    requires Valid(s) && Feasible(s, es)
    ensures NextFrame(s) <= NextFrame(Run(s, es))
    ensures s.buffer.overflow <= Run(s, es).buffer.overflow
    decreases |es|
  {
    if es != [] {
      StepKeepsValid(s, es[0]);
      RunGrows(Step(s, es[0]), es[1..]);
    }
  }
}
