/** desktop/src/DesktopAudioPlayer.cpp: the ring shared by the decoder thread (`prefetch`)
    and the audio callback. Every load, slot copy and store is a step of its own and the two
    threads interleave freely; loads and stores are sequentially consistent here. */
module Ring {
  import opened Numbers

  /** Program counter and locals of `prefetch`. */
  datatype Producer =
    | ProducerIdle
    | LoadedWritten(written: nat)
    | Filling(written: nat, request: nat, count: nat, filled: nat, failed: bool)
    | Finishing
    | Stopped

  /** Program counter and locals of one `dataCallback`. */
  datatype Consumer =
    | ConsumerIdle
    | LoadedRead(size: nat, read: nat)
    | Draining(read: nat, written: nat, count: nat, output: seq<int>)
    | PublishedRead(read: nat, written: nat, output: seq<int>)
    | Submitted(read: nat, written: nat)
    | Ending(read: nat, written: nat)

  /** `source` is everything the decoder could produce; frame values are opaque. */
  datatype State = State(
    source: seq<int>,
    ring: seq<int>,
    read: nat,
    written: nat,
    finished: bool,
    endReached: bool,
    submitted: seq<int>,
    producer: Producer,
    consumer: Consumer)

  datatype Event =
    | LoadOwnWritten
    | LoadRead(count: nat, failed: bool)
    | FillSlot
    | PublishWritten
    | SetFinished
    | BeginCallback(size: nat)
    | LoadWritten
    | DrainSlot
    | PublishRead
    | Submit
    | CheckFinished
    | SetEnd

  function Initial(source: seq<int>, capacity: nat): (s: State)
    requires capacity > 0
    ensures Valid(s)
  {
    State(source, seq(capacity, _ => 0), 0, 0, false, false, [], ProducerIdle, ConsumerIdle)
  }

  function Capacity(s: State): nat { |s.ring| }

  /** `min(available, contiguous, 4096)`. */
  function Request(capacity: nat, written: nat, read: nat): int
    requires capacity > 0
  {
    Min(Min(capacity - (written - read), capacity - written % capacity), 4096)
  }

  predicate Enabled(s: State, e: Event)
    requires Capacity(s) > 0
  {
    match e
    case LoadOwnWritten => s.producer.ProducerIdle?
    // The decoder delivers at most the request and never past the end of the source. A full
    // ring makes the thread sleep and start over.
    case LoadRead(count, _) =>
      && s.producer.LoadedWritten?
      && count <= Max(0, Request(Capacity(s), s.producer.written, s.read))
      && s.producer.written + count <= |s.source|
    case FillSlot => s.producer.Filling? && s.producer.filled < s.producer.count
    case PublishWritten => s.producer.Filling? && s.producer.filled == s.producer.count
    case SetFinished => s.producer.Finishing?
    case BeginCallback(_) => s.consumer.ConsumerIdle? && !s.endReached
    case LoadWritten => s.consumer.LoadedRead?
    case DrainSlot => s.consumer.Draining? && |s.consumer.output| < s.consumer.count
    case PublishRead => s.consumer.Draining? && |s.consumer.output| == s.consumer.count
    case Submit => s.consumer.PublishedRead?
    case CheckFinished => s.consumer.Submitted?
    case SetEnd => s.consumer.Ending?
  }

  function Step(s: State, e: Event): State
    requires Capacity(s) > 0 && Enabled(s, e)
  {
    match e
    case LoadOwnWritten => s.(producer := LoadedWritten(s.written))
    case LoadRead(count, failed) =>
      var w := s.producer.written;
      var request := Request(Capacity(s), w, s.read);
      s.(producer := if request <= 0 then ProducerIdle else Filling(w, request, count, 0, failed))
    case FillSlot =>
      var p := s.producer;
      var at := p.written + p.filled;
      if at < |s.source|
      then s.(ring := s.ring[at % Capacity(s) := s.source[at]], producer := p.(filled := p.filled + 1))
      else s
    case PublishWritten =>
      var p := s.producer;
      var atEnd := p.failed || p.count < p.request;
      s.(written := p.written + p.count, producer := if atEnd then Finishing else ProducerIdle)
    case SetFinished => s.(finished := true, producer := Stopped)
    case BeginCallback(size) => s.(consumer := LoadedRead(size, s.read))
    case LoadWritten =>
      var c := s.consumer;
      s.(consumer := Draining(c.read, s.written, Min(c.size, Max(0, s.written - c.read)), []))
    case DrainSlot =>
      var c := s.consumer;
      s.(consumer := Draining(c.read, c.written, c.count, c.output + [s.ring[(c.read + |c.output|) % Capacity(s)]]))
    case PublishRead =>
      var c := s.consumer;
      s.(read := c.read + |c.output|, consumer := PublishedRead(c.read + |c.output|, c.written, c.output))
    case Submit =>
      var c := s.consumer;
      s.(submitted := s.submitted + c.output, consumer := Submitted(c.read, c.written))
    case CheckFinished =>
      var c := s.consumer;
      s.(consumer := if s.finished && c.read == c.written then Ending(c.read, c.written) else ConsumerIdle)
    case SetEnd => s.(endReached := true, consumer := ConsumerIdle)
  }

  // ---- The invariant ---------------------------------------------------------

  /** The unread slots hold the source. */
  ghost predicate Holds(s: State, from: nat, to: nat)
    requires Capacity(s) > 0 && to <= |s.source|
  {
    forall i :: from <= i < to ==> s.ring[i % Capacity(s)] == s.source[i]
  }

  /** What the callback has copied out but not yet added to `submitted`. */
  function InHand(c: Consumer): seq<int> {
    if c.PublishedRead? then c.output else []
  }

  ghost predicate ProducerValid(s: State)
    requires Capacity(s) > 0 && s.written <= |s.source|
  {
    match s.producer
    case ProducerIdle => !s.finished
    case LoadedWritten(w) => w == s.written && !s.finished
    case Filling(w, request, count, filled, _) =>
      && w == s.written && !s.finished
      && 0 < request && filled <= count <= request <= Capacity(s) && w + count <= |s.source|
      && w + request <= s.read + Capacity(s)
      && w % Capacity(s) + request <= Capacity(s)
      && Holds(s, w, w + filled)
    case Finishing => !s.finished
    case Stopped => s.finished
  }

  ghost predicate ConsumerValid(s: State)
    requires Capacity(s) > 0 && s.written <= |s.source|
  {
    match s.consumer
    case ConsumerIdle => true
    case LoadedRead(_, r) => r == s.read
    case Draining(r, w, count, output) =>
      && r == s.read && r + count <= w <= s.written && |output| <= count
      && output == s.source[r..r + |output|]
    case PublishedRead(r, w, output) => r == s.read && r <= w <= s.written
    case Submitted(r, w) => r == s.read && r <= w <= s.written
    case Ending(r, w) => r == w == s.read && w <= s.written && s.finished
  }

  ghost predicate Valid(s: State) {
    && Capacity(s) > 0
    && s.read <= s.written <= s.read + Capacity(s)
    && s.written <= |s.source|
    && Holds(s, s.read, s.written)
    && s.submitted + InHand(s.consumer) == s.source[..s.read]
    && ProducerValid(s)
    && ConsumerValid(s)
    && (s.endReached ==> s.finished && s.consumer.ConsumerIdle?)
  }

  /** The decoder asks for all that fits: it stops short of 4096 frames only where the free slots or the ring
      end, so that one read never wraps. */
  lemma RequestIsGreatest(capacity: nat, written: nat, read: nat)
    requires capacity > 0 && read <= written <= read + capacity
    ensures var r := Request(capacity, written, read);
            && 0 <= r <= 4096 && written + r <= read + capacity && written % capacity + r <= capacity
            && (r < 4096 ==> written + r == read + capacity || written % capacity + r == capacity)
  {
  }

  /** The slots the decoder may be writing are disjoint from the unread slots, and they do
      not wrap, so one contiguous decoder call suffices. */
  lemma FillingIsDisjointFromUnread(s: State, i: nat, j: nat)
    requires Valid(s) && s.producer.Filling?
    requires s.read <= i < s.written
    requires s.producer.written <= j < s.producer.written + s.producer.request
    ensures i % Capacity(s) != j % Capacity(s)
  {
    RemaindersDiffer(i, j, Capacity(s));
  }

  /** Every step of either thread keeps the invariant: `read <= written <= read + capacity`,
      and what was submitted is exactly a prefix of the source. */
  lemma StepKeepsValid(s: State, e: Event)
    requires Valid(s) && Enabled(s, e)
    ensures Valid(Step(s, e))
  {
    match e
    case FillSlot => FillKeepsValid(s);
    case DrainSlot => DrainKeepsValid(s);
    case PublishRead => PublishKeepsValid(s);
    case LoadWritten => LoadKeepsValid(s);
    case LoadOwnWritten => ProducerKeepsValid(s, e);
    case LoadRead(_, _) => ProducerKeepsValid(s, e);
    case PublishWritten => ProducerKeepsValid(s, e);
    case SetFinished => ProducerKeepsValid(s, e);
    case _ => ConsumerKeepsValid(s, e);
  }

  predicate ByProducer(e: Event) {
    e.LoadOwnWritten? || e.LoadRead? || e.FillSlot? || e.PublishWritten? || e.SetFinished?
  }

  lemma ProducerKeepsValid(s: State, e: Event)
    requires Valid(s) && Enabled(s, e) && ByProducer(e) && !e.FillSlot?
    ensures Valid(Step(s, e))
  {
    if e.LoadRead? {
      var w := s.producer.written;
      assert w % Capacity(s) + (Capacity(s) - w % Capacity(s)) == Capacity(s);
    }
  }

  lemma ConsumerKeepsValid(s: State, e: Event)
    requires Valid(s) && Enabled(s, e) && !ByProducer(e) && !e.DrainSlot? && !e.PublishRead? && !e.LoadWritten?
    ensures Valid(Step(s, e))
  {
  }

  lemma LoadKeepsValid(s: State)
    requires Valid(s) && Enabled(s, LoadWritten)
    ensures Valid(Step(s, LoadWritten))
  {
  }

  lemma PublishKeepsValid(s: State)
    requires Valid(s) && Enabled(s, PublishRead)
    ensures Valid(Step(s, PublishRead))
  {
    var c := s.consumer;
    assert s.source[..c.read] + s.source[c.read..c.read + |c.output|] == s.source[..c.read + |c.output|];
    assert Holds(s, c.read + |c.output|, s.written);
    hide Holds;
  }

  lemma FillKeepsValid(s: State)
    requires Valid(s) && Enabled(s, FillSlot)
    ensures Valid(Step(s, FillSlot))
  {
    var p, capacity := s.producer, Capacity(s);
    var at := p.written + p.filled;
    var t := Step(s, FillSlot);
    forall i | s.read <= i < at
      ensures i % capacity != at % capacity
    {
      RemaindersDiffer(i, at, capacity);
    }
    assert Holds(t, t.read, t.written) && Holds(t, p.written, at);
  }

  lemma DrainKeepsValid(s: State)
    requires Valid(s) && Enabled(s, DrainSlot)
    ensures Valid(Step(s, DrainSlot))
  {
    var c := s.consumer;
    var i := c.read + |c.output|;
    assert s.read <= i < s.written;
    assert s.source[c.read..i + 1] == s.source[c.read..i] + [s.source[i]];
  }

  // ---- Whole runs --------------------------------------------------------------

  ghost predicate Feasible(s: State, es: seq<Event>)
    requires Valid(s)
    decreases |es|
  {
    es == [] || (Enabled(s, es[0]) && (StepKeepsValid(s, es[0]); Feasible(Step(s, es[0]), es[1..])))
  }

  ghost function Run(s: State, es: seq<Event>): (t: State)
    requires Valid(s) && Feasible(s, es)
    ensures Valid(t)
    decreases |es|
  {
    if es == [] then s
    else
      StepKeepsValid(s, es[0]);
      Run(Step(s, es[0]), es[1..])
  }

  lemma {:induction false} SourceIsFixed(s: State, es: seq<Event>)
    requires Valid(s) && Feasible(s, es)
    ensures Run(s, es).source == s.source && Capacity(Run(s, es)) == Capacity(s)
    decreases |es|
  {
    if es != [] {
      StepKeepsValid(s, es[0]);
      SourceIsFixed(Step(s, es[0]), es[1..]);
    }
  }

  /** In every interleaving: nothing is played that was not decoded, nothing is skipped,
      repeated or torn, and the counters keep their distance. */
  lemma SubmittedIsPrefix(source: seq<int>, capacity: nat, es: seq<Event>)
    requires capacity > 0
    requires Feasible(Initial(source, capacity), es)
    ensures var t := Run(Initial(source, capacity), es);
            && t.read <= t.written <= t.read + capacity
            && t.submitted <= source
            && |t.submitted| <= t.read <= |source|
  {
    var t := Run(Initial(source, capacity), es);
    SourceIsFixed(Initial(source, capacity), es);
    assert t.submitted == (t.submitted + InHand(t.consumer))[..|t.submitted|];
    assert t.submitted == source[..|t.submitted|];
  }

  /** What the decoder produced before it stopped. */
  function Decoded(s: State): seq<int>
    requires s.written <= |s.source|
  {
    s.source[..s.written]
  }

  /** After end-reached nothing more is ever submitted, so frames missed then are lost. */
  lemma {:induction false} EndIsForever(s: State, es: seq<Event>)
    requires Valid(s) && Feasible(s, es) && s.endReached
    ensures Run(s, es).endReached && Run(s, es).submitted == s.submitted
    decreases |es|
  {
    if es != [] {
      StepKeepsValid(s, es[0]);
      EndIsForever(Step(s, es[0]), es[1..]);
    }
  }

  lemma {:induction false} RunAppend(s: State, a: seq<Event>, b: seq<Event>)
    requires Valid(s) && Feasible(s, a) && Feasible(Run(s, a), b)
    ensures Feasible(s, a + b) && Run(s, a + b) == Run(Run(s, a), b)
    decreases |a|
  {
    if a == [] {
      assert a + b == b;
    } else {
      StepKeepsValid(s, a[0]);
      assert (a + b)[1..] == a[1..] + b && (a + b)[0] == a[0];
      RunAppend(Step(s, a[0]), a[1..], b);
    }
  }

  lemma RunOne(s: State, e: Event)
    requires Valid(s) && Enabled(s, e)
    ensures Feasible(s, [e]) && Run(s, [e]) == Step(s, e) && Valid(Step(s, e))
  {
    StepKeepsValid(s, e);
    assert [e][1..] == [];
  }

  lemma RunTwo(s: State, e: Event, f: Event)
    requires Valid(s) && Enabled(s, e) && Enabled(Step(s, e), f)
    ensures Feasible(s, [e, f]) && Run(s, [e, f]) == Step(Step(s, e), f) && Valid(Step(Step(s, e), f))
  {
    RunOne(s, e);
    RunOne(Step(s, e), f);
    RunAppend(s, [e], [f]);
    assert [e] + [f] == [e, f];
  }

  const DECLARE_END: seq<Event> := [Submit, CheckFinished, SetEnd]

  // ---- What one callback submits -----------------------------------------------------------

  /** The callback that began at `base` copies `n` frames. */
  ghost predicate Copies(s: State, base: nat, n: nat) {
    match s.consumer
    case ConsumerIdle => s.read == base + n
    case LoadedRead(_, _) => false
    case Draining(_, _, count, _) => s.read == base && count == n
    case PublishedRead(_, _, output) => s.read == base + n && |output| == n
    case Submitted(_, _) => s.read == base + n
    case Ending(_, _) => s.read == base + n
  }

  lemma {:induction false} RunCopies(s: State, es: seq<Event>, base: nat, n: nat)
    requires Valid(s) && Feasible(s, es) && SameCallback(es) && Copies(s, base, n)
    ensures Copies(Run(s, es), base, n)
    decreases |es|
  {
    hide Holds;
    if es != [] {
      StepKeepsValid(s, es[0]);
      CopiesStep(s, es[0], base, n);
      RunCopies(Step(s, es[0]), es[1..], base, n);
    }
  }

  lemma CopiesStep(s: State, e: Event, base: nat, n: nat)
    requires Valid(s) && Enabled(s, e) && !e.BeginCallback? && Copies(s, base, n)
    ensures Copies(Step(s, e), base, n)
  {
    hide Holds, Request;
  }

  ghost predicate Reaches(s: State, es: seq<Event>, t: State) {
    Valid(s) && Feasible(s, es) && Run(s, es) == t
  }

  ghost predicate OnlyProducer(es: seq<Event>) {
    forall e :: e in es ==> ByProducer(e)
  }

  lemma ProducerLeaves(s: State, e: Event)
    requires Valid(s) && Enabled(s, e) && ByProducer(e)
    ensures var t := Step(s, e); t.consumer == s.consumer && t.read == s.read && t.submitted == s.submitted
  {
    hide Valid, Request;
  }

  lemma {:induction false} RunWaits(s: State, es: seq<Event>)
    requires Valid(s) && Feasible(s, es) && OnlyProducer(es)
    ensures var t := Run(s, es); t.consumer == s.consumer && t.read == s.read && t.submitted == s.submitted
    decreases |es|
  {
    assert Capacity(s) > 0;
    hide Valid, Enabled, Step;
    if es != [] {
      StepKeepsValid(s, es[0]);
      ProducerLeaves(s, es[0]);
      RunWaits(Step(s, es[0]), es[1..]);
    }
  }

  /** A callback asked for `size` frames, with whatever the decoder does before and after the load of
      `writtenFrame_`: it never submits more than `size`, nor more than was unread at the load, and when it is
      over it has submitted exactly the smaller of the two, the next frames of the source in order. */
  lemma CallbackSubmitsRequest(s: State, size: nat, early: seq<Event>, loading: State, es: seq<Event>, t: State)
    requires Capacity(s) > 0 && Valid(s) && Enabled(s, BeginCallback(size))
    requires Reaches(Step(s, BeginCallback(size)), early, loading) && OnlyProducer(early)
    requires loading.consumer.LoadedRead? && Capacity(loading) > 0
    requires Reaches(Step(loading, LoadWritten), es, t) && SameCallback(es)
    ensures var unread, n := loading.written - s.read, |t.submitted| - |s.submitted|;
            && 0 <= n <= size && n <= unread && (t.consumer.ConsumerIdle? ==> n == size || n == unread)
            && s.submitted <= s.source && t.submitted <= s.source
  {
    hide Holds, Valid, Run, Feasible, ConsumerValid, ProducerValid;
    var begun := Step(s, BeginCallback(size));
    RunWaits(begun, early);
    SourceIsFixed(begun, early);
    var loaded := Step(loading, LoadWritten);
    SourceIsFixed(loaded, es);
    RunCopies(loaded, es, s.read, loaded.consumer.count);
    SubmittedLength(t);
    SubmittedLength(s);
    Counters(loading);
  }

  lemma Counters(s: State)
    requires Valid(s)
    ensures s.read <= s.written
  {
  }

  lemma SubmittedLength(s: State)
    requires Valid(s)
    ensures |s.submitted| + |InHand(s.consumer)| == s.read && s.submitted <= s.source
  {
    assert |s.source[..s.read]| == s.read;
    assert s.submitted == (s.submitted + InHand(s.consumer))[..|s.submitted|];
  }

  // ---- What an end says about the decoder ------------------------------------------------

  /** The run stays within the callback that is under way. */
  ghost predicate SameCallback(es: seq<Event>) {
    forall e :: e in es ==> !e.BeginCallback?
  }

  /** Every end that this callback can still declare comes after all that was decoded. */
  ghost predicate EndsComplete(s: State)
    requires Valid(s)
  {
    forall es :: Feasible(s, es) && SameCallback(es) && Run(s, es).endReached ==>
                   Run(s, es).submitted == Decoded(Run(s, es))
  }

  /** The decoder thread has frames left to publish and can then finish before another callback: a read
      that fills the whole ring leaves it no slot to find the end of the file with. */
  predicate CanPublishAndFinish(s: State)
    requires Capacity(s) > 0
  {
    match s.producer
    case ProducerIdle => s.written < |s.source|
    case LoadedWritten(_) => s.written < |s.source|
    case Filling(_, request, count, _, failed) => count > 0 && (failed || count < request || count < Capacity(s))
    case Finishing => false
    case Stopped => false
  }

  /** The callback will have drained everything it saw. */
  predicate DrainsAll(c: Consumer) {
    c.Draining? && c.read + c.count == c.written
  }

  /** When `writtenFrame_` has just been loaded, the end-reached flag can still come to hide decoded frames
      exactly if the callback drains all it saw while the decoder can publish more and then finish. */
  lemma EndsCompleteIff(s: State)
    requires Valid(s) && s.consumer.Draining? && s.consumer.written == s.written
    ensures EndsComplete(s) <==> !(DrainsAll(s.consumer) && CanPublishAndFinish(s))
  {
    if DrainsAll(s.consumer) && CanPublishAndFinish(s) {
      var es := MissTail(s);
      assert Feasible(s, es) && SameCallback(es) && Run(s, es).endReached;
    } else {
      forall es | Feasible(s, es) && SameCallback(es) && Run(s, es).endReached
        ensures Run(s, es).submitted == Decoded(Run(s, es))
      {
        RunKeepsSealed(s, es, s.written);
        SealedEndIsComplete(Run(s, es), s.written);
      }
    }
  }

  /** So if the finished flag was set when `writtenFrame_` was loaded, end-reached means that the whole
      decoded stream was submitted. */
  lemma EndKnowingIsComplete(s: State)
    requires Valid(s) && Enabled(s, LoadWritten) && s.finished
    ensures Valid(Step(s, LoadWritten)) && EndsComplete(Step(s, LoadWritten))
  {
    StepKeepsValid(s, LoadWritten);
    EndsCompleteIff(Step(s, LoadWritten));
  }

  // An end that this callback declares is complete: `from` is what it loaded.

  /** The callback leaves frames behind, so it does not look for the end. */
  ghost predicate LeavesFrames(s: State) {
    !s.endReached
    && match s.consumer
       case Draining(read, written, count, _) => read + count < written
       case PublishedRead(read, written, _) => read < written
       case Submitted(read, written) => read < written
       case _ => s.consumer.ConsumerIdle?
  }

  ghost predicate NothingToPublish(s: State, from: nat) {
    && s.written == from
    && match s.producer
       case ProducerIdle => from == |s.source|
       case LoadedWritten(_) => from == |s.source|
       case Filling(_, _, count, _, _) => count == 0
       case _ => true
  }

  /** One read takes every slot that this callback can free. */
  ghost predicate FillsTheRing(s: State, from: nat) {
    && s.read <= from && !s.finished && !s.endReached && !s.consumer.Ending?
    && match s.producer
       case ProducerIdle => s.written == from + Capacity(s)
       case LoadedWritten(_) => s.written == from + Capacity(s)
       case Filling(_, request, count, _, failed) => s.written == from && count == request == Capacity(s) && !failed
       case _ => false
  }

  ghost predicate Within(s: State, from: nat) {
    match s.consumer
    case ConsumerIdle => s.read <= from && (s.endReached ==> s.read == from)
    case LoadedRead(_, _) => false
    case _ => s.consumer.written == from
  }

  ghost predicate Sealed(s: State, from: nat) {
    Within(s, from) && (LeavesFrames(s) || NothingToPublish(s, from) || FillsTheRing(s, from))
  }

  lemma SealedEndIsComplete(s: State, from: nat)
    requires Valid(s) && Sealed(s, from) && s.endReached
    ensures s.submitted == Decoded(s)
  {
  }

  lemma StepKeepsSealed(s: State, e: Event, from: nat)
    requires Valid(s) && Enabled(s, e) && !e.BeginCallback? && Sealed(s, from)
    ensures Sealed(Step(s, e), from)
  {
    hide Holds;
    if ByProducer(e) {
      if e.LoadRead? && FillsTheRing(s, from) {
        assert Request(Capacity(s), s.producer.written, s.read) <= 0;
      }
    } else {
      assert s.consumer.Draining? ==> s.read <= from;
    }
  }

  lemma {:induction false} RunKeepsSealed(s: State, es: seq<Event>, from: nat)
    requires Valid(s) && Feasible(s, es) && SameCallback(es) && Sealed(s, from)
    ensures Sealed(Run(s, es), from)
    decreases |es|
  {
    hide Sealed;
    if es != [] {
      StepKeepsValid(s, es[0]);
      StepKeepsSealed(s, es[0], from);
      RunKeepsSealed(Step(s, es[0]), es[1..], from);
    }
  }

  // An end that misses frames.

  lemma RunCons(s: State, e: Event, es: seq<Event>)
    requires Valid(s) && Enabled(s, e) && Valid(Step(s, e)) && Feasible(Step(s, e), es)
    ensures Feasible(s, [e] + es) && Run(s, [e] + es) == Run(Step(s, e), es)
  {
    assert ([e] + es)[1..] == es && ([e] + es)[0] == e;
  }

  /** Only the decoder thread moved, and it has finished. */
  ghost predicate Finished(s: State, es: seq<Event>)
    requires Valid(s)
  {
    && Feasible(s, es) && SameCallback(es)
    && var t := Run(s, es);
       t == s.(ring := t.ring, written := t.written, finished := true, producer := Stopped)
  }

  lemma FinishedCons(s: State, e: Event, es: seq<Event>)
    requires Valid(s) && Enabled(s, e) && ByProducer(e) && Valid(Step(s, e)) && Finished(Step(s, e), es)
    ensures Finished(s, [e] + es) && Run(s, [e] + es) == Run(Step(s, e), es)
  {
    RunCons(s, e, es);
  }

  lemma FinishFilling(s: State) returns (es: seq<Event>)
    requires Valid(s) && s.producer.Filling? && (s.producer.failed || s.producer.count < s.producer.request)
    ensures Finished(s, es) && Run(s, es).written == s.written + s.producer.count
    decreases s.producer.count - s.producer.filled
  {
    hide Holds;
    if s.producer.filled < s.producer.count {
      StepKeepsValid(s, FillSlot);
      var rest := FinishFilling(Step(s, FillSlot));
      FinishedCons(s, FillSlot, rest);
      es := [FillSlot] + rest;
    } else {
      RunTwo(s, PublishWritten, SetFinished);
      es := [PublishWritten, SetFinished];
    }
  }

  /** With a free slot the next read can fail after `count` frames. */
  lemma FinishIdle(s: State, count: nat) returns (es: seq<Event>)
    requires Valid(s) && (s.producer.ProducerIdle? || s.producer.LoadedWritten?)
    requires s.written < s.read + Capacity(s) && count <= 1 && s.written + count <= |s.source|
    ensures Finished(s, es) && Run(s, es).written == s.written + count
    decreases if s.producer.ProducerIdle? then 1 else 0
  {
    hide Holds;
    var e := if s.producer.ProducerIdle? then LoadOwnWritten else LoadRead(count, true);
    StepKeepsValid(s, e);
    var rest;
    if s.producer.ProducerIdle? {
      rest := FinishIdle(Step(s, e), count);
    } else {
      rest := FinishFilling(Step(s, e));
    }
    FinishedCons(s, e, rest);
    es := [e] + rest;
  }

  lemma PublishMore(s: State) returns (es: seq<Event>)
    requires Valid(s) && s.read == s.written && CanPublishAndFinish(s)
    ensures Finished(s, es) && Run(s, es).written > s.written
    decreases if s.producer.Filling? then s.producer.count - s.producer.filled else 0
  {
    hide Holds;
    if !s.producer.Filling? {
      es := FinishIdle(s, 1);
    } else if s.producer.failed || s.producer.count < s.producer.request {
      es := FinishFilling(s);
    } else {
      var e := if s.producer.filled < s.producer.count then FillSlot else PublishWritten;
      StepKeepsValid(s, e);
      var rest;
      if s.producer.filled < s.producer.count {
        rest := PublishMore(Step(s, e));
      } else {
        rest := FinishIdle(Step(s, e), 0);
      }
      FinishedCons(s, e, rest);
      es := [e] + rest;
    }
  }

  lemma DrainAll(s: State) returns (es: seq<Event>)
    requires Valid(s) && s.consumer.Draining?
    ensures Feasible(s, es) && SameCallback(es)
    ensures var t := Run(s, es);
            && t == s.(read := t.read, consumer := t.consumer) && t.read == s.read + s.consumer.count
            && t.consumer.PublishedRead? && t.consumer.written == s.consumer.written
    decreases s.consumer.count - |s.consumer.output|
  {
    hide Holds;
    if |s.consumer.output| < s.consumer.count {
      StepKeepsValid(s, DrainSlot);
      var rest := DrainAll(Step(s, DrainSlot));
      RunCons(s, DrainSlot, rest);
      es := [DrainSlot] + rest;
    } else {
      RunOne(s, PublishRead);
      es := [PublishRead];
    }
  }

  lemma DeclareMissing(s: State)
    requires Valid(s) && s.consumer.PublishedRead? && s.read == s.consumer.written < s.written && s.finished
    ensures Feasible(s, DECLARE_END)
    ensures var t := Run(s, DECLARE_END); t.endReached && t.written == s.written && |t.submitted| == s.read
  {
    hide Holds;
    RunOne(s, Submit);
    var s1 := Run(s, [Submit]);
    RunTwo(s1, CheckFinished, SetEnd);
    RunAppend(s, [Submit], [CheckFinished, SetEnd]);
    assert [Submit] + [CheckFinished, SetEnd] == DECLARE_END;
  }

  /** The race that loses the tail: the callback drains what it saw; then the decoder publishes more and
      sets the flag; then the callback sees the flag. */
  lemma MissTail(s: State) returns (es: seq<Event>)
    requires Valid(s) && s.consumer.Draining? && s.consumer.written == s.written
    requires DrainsAll(s.consumer) && CanPublishAndFinish(s)
    ensures Feasible(s, es) && SameCallback(es)
    ensures Run(s, es).endReached && Run(s, es).submitted < Decoded(Run(s, es))
    ensures |Run(s, es).submitted| == s.consumer.written
  {
    hide Holds, CanPublishAndFinish;
    var drain := DrainAll(s);
    var s1 := Run(s, drain);
    assert CanPublishAndFinish(s1) by { SameChance(s, s1); }
    var publish := PublishMore(s1);
    var s2 := Run(s1, publish);
    DeclareMissing(s2);
    RunAppend(s, drain, publish);
    RunAppend(s, drain + publish, DECLARE_END);
    es := drain + publish + DECLARE_END;
    var t := Run(s, es);
    assert t.submitted + InHand(t.consumer) == t.source[..t.read];
  }

  lemma FinishRead(s: State) returns (es: seq<Event>)
    requires Valid(s) && s.producer.Filling? && !s.producer.failed && s.producer.count == s.producer.request
    ensures Feasible(s, es)
    ensures var t := Run(s, es);
            t == s.(ring := t.ring, written := s.written + s.producer.count, producer := ProducerIdle)
    decreases s.producer.count - s.producer.filled
  {
    hide Holds;
    if s.producer.filled < s.producer.count {
      StepKeepsValid(s, FillSlot);
      var rest := FinishRead(Step(s, FillSlot));
      RunCons(s, FillSlot, rest);
      es := [FillSlot] + rest;
    } else {
      RunOne(s, PublishWritten);
      es := [PublishWritten];
    }
  }

  /** It happens to every source longer than one read, from the start: the first callback drains the first
      read, and ends the stream while the decoder publishes more. */
  lemma EndHidesFrames(source: seq<int>, capacity: nat) returns (es: seq<Event>)
    requires 0 < capacity && Min(capacity, 4096) < |source|
    ensures Feasible(Initial(source, capacity), es)
    ensures var t := Run(Initial(source, capacity), es);
            t.endReached && t.submitted < Decoded(t) && |t.submitted| == Min(capacity, 4096)
  {
    hide Holds, CanPublishAndFinish;
    var s, n := Initial(source, capacity), Min(capacity, 4096);
    RunTwo(s, LoadOwnWritten, LoadRead(n, false));
    var s2 := Run(s, [LoadOwnWritten, LoadRead(n, false)]);
    var read := FinishRead(s2);
    var s3 := Run(s2, read);
    RunTwo(s3, BeginCallback(n), LoadWritten);
    var s4 := Run(s3, [BeginCallback(n), LoadWritten]);
    assert CanPublishAndFinish(s4) by { IdleCanPublish(s4); }
    var miss := MissTail(s4);
    RunAppend(s3, [BeginCallback(n), LoadWritten], miss);
    RunAppend(s2, read, [BeginCallback(n), LoadWritten] + miss);
    RunAppend(s, [LoadOwnWritten, LoadRead(n, false)], read + ([BeginCallback(n), LoadWritten] + miss));
    es := [LoadOwnWritten, LoadRead(n, false)] + (read + ([BeginCallback(n), LoadWritten] + miss));
  }

  lemma IdleCanPublish(s: State)
    requires Capacity(s) > 0 && s.producer.ProducerIdle? && s.written < |s.source|
    ensures CanPublishAndFinish(s)
  {
  }

  lemma SameChance(s: State, t: State)
    requires Capacity(s) > 0 && CanPublishAndFinish(s)
    requires t == s.(read := t.read, consumer := t.consumer)
    ensures CanPublishAndFinish(t)
  {
  }

  // ---- The two block copies of the callback ----------------------------------------

  method CopyBlock(ring: array<int>, from: nat, count: nat, output: array<int>, to: nat)
    requires from + count <= ring.Length && to + count <= output.Length && ring != output
    modifies output
    ensures forall k :: 0 <= k < output.Length ==>
              output[k] == if to <= k < to + count then ring[from + (k - to)] else old(output[k])
  {
    for j := 0 to count
      invariant forall k :: 0 <= k < output.Length ==>
                  output[k] == if to <= k < to + j then ring[from + (k - to)] else old(output[k])
    {
      output[to + j] := ring[from + j];
    }
  }

  /** Lines 308-336: clear the device buffer, then copy up to the end of the ring and, if that
      was not enough, the rest from its start. Slot by slot this is the modular read that the
      protocol above takes. */
  method DrainInPlace(ring: array<int>, read: nat, framesRead: nat, output: array<int>)
    requires 0 < ring.Length && framesRead <= ring.Length && framesRead <= output.Length && ring != output
    modifies output
    ensures forall k :: 0 <= k < framesRead ==> output[k] == ring[(read + k) % ring.Length]
    ensures forall k :: framesRead <= k < output.Length ==> output[k] == 0
  {
    for j := 0 to output.Length
      invariant forall k :: 0 <= k < j ==> output[k] == 0
    {
      output[j] := 0;
    }
    var at := read % ring.Length;
    var first := Min(framesRead, ring.Length - at);
    CopyBlock(ring, at, first, output, 0);
    if framesRead > first {
      CopyBlock(ring, 0, framesRead - first, output, first);
    }
    forall k | 0 <= k < framesRead
      ensures output[k] == ring[(read + k) % ring.Length]
    {
      WrappedSlot(read, k, ring.Length);
    }
  }

  lemma WrappedSlot(read: nat, k: nat, capacity: nat)
    requires k < capacity
    ensures var at := read % capacity;
            (read + k) % capacity == if k < capacity - at then at + k else k - (capacity - at)
  {
    var at, q := read % capacity, read / capacity;
    if k < capacity - at {
      RemainderIs(read + k, q, at + k, capacity);
    } else {
      RemainderIs(read + k, q + 1, k - (capacity - at), capacity);
    }
  }
}
