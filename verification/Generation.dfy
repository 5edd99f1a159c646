/** ios/SyncAudioReceiver/AudioPlaybackController.swift: buffers handed to the player, their
    completion callbacks, and the generation counter that disowns stale ones. */
module Generation {
  import opened Numbers
  import opened SwiftQueue

  /** A buffer inside the player; its callback captured the generation and the frame count. */
  datatype Buffer = Buffer(generation: nat, frames: nat)

  datatype Controller = Controller(generation: nat, queuedFrames: int, outstanding: seq<Buffer>)

  datatype Event =
    | Schedule(frames: nat)
    | Complete(index: nat)
    | Reset(bumps: nat)

  /** Frames of the outstanding buffers of one generation. */
  function Owned(bs: seq<Buffer>, generation: nat): nat {
    if bs == [] then 0 else (if bs[0].generation == generation then bs[0].frames else 0) + Owned(bs[1..], generation)
  }

  predicate Enabled(c: Controller, e: Event) {
    match e
    case Schedule(_) => true
    case Complete(index) => index < |c.outstanding|
    case Reset(bumps) => bumps > 0
  }

  /** The completion callback: ignored when the generation moved on, else subtract and clamp. */
  function Completed(c: Controller, b: Buffer): int {
    if b.generation != c.generation then c.queuedFrames else Max(0, c.queuedFrames - b.frames)
  }

  function Step(c: Controller, e: Event): Controller
    requires Enabled(c, e)
  {
    match e
    case Schedule(frames) =>
      c.(queuedFrames := c.queuedFrames + frames, outstanding := c.outstanding + [Buffer(c.generation, frames)])
    case Complete(index) =>
      var b := c.outstanding[index];
      c.(queuedFrames := Completed(c, b), outstanding := c.outstanding[..index] + c.outstanding[index + 1..])
    // `resetStream`, `start`, `stop`, an interruption's end (one bump), a route change (two).
    case Reset(bumps) => c.(generation := c.generation + bumps, queuedFrames := 0)
  }

  ghost predicate Valid(c: Controller) {
    && c.queuedFrames == Owned(c.outstanding, c.generation)
    && forall b :: b in c.outstanding ==> b.generation <= c.generation
  }

  lemma {:induction false} OwnedAppend(bs: seq<Buffer>, b: Buffer, generation: nat)
    ensures Owned(bs + [b], generation) == Owned(bs, generation) + if b.generation == generation then b.frames else 0
  {
    if bs == [] {
      assert [] + [b] == [b] && [b][1..] == [];
    } else {
      OwnedAppend(bs[1..], b, generation);
      assert (bs + [b])[1..] == bs[1..] + [b];
    }
  }

  lemma {:induction false} OwnedRemove(bs: seq<Buffer>, i: nat, generation: nat)
    requires i < |bs|
    ensures Owned(bs, generation)
            == Owned(bs[..i] + bs[i + 1..], generation) + if bs[i].generation == generation then bs[i].frames else 0
  {
    var rest := bs[..i] + bs[i + 1..];
    if i == 0 {
      assert rest == bs[1..];
    } else {
      OwnedRemove(bs[1..], i - 1, generation);
      assert rest[1..] == bs[1..][..i - 1] + bs[1..][i..] && rest[0] == bs[0];
    }
  }

  lemma {:induction false} NothingOwned(bs: seq<Buffer>, generation: nat)
    requires forall b :: b in bs ==> b.generation < generation
    ensures Owned(bs, generation) == 0
  {
    if bs != [] {
      assert bs[0] in bs;
      NothingOwned(bs[1..], generation);
    }
  }

  lemma StepKeepsValid(c: Controller, e: Event)
    requires Valid(c) && Enabled(c, e)
    ensures Valid(Step(c, e))
  {
    match e
    case Schedule(frames) =>
      OwnedAppend(c.outstanding, Buffer(c.generation, frames), c.generation);
    case Complete(index) =>
      OwnedRemove(c.outstanding, index, c.generation);
    case Reset(bumps) =>
      NothingOwned(c.outstanding, c.generation + bumps);
  }

  /** The clamp is never needed, and a stale completion changes nothing but the player. */
  lemma ClampIsIdle(c: Controller, index: nat)
    requires Valid(c) && index < |c.outstanding|
    ensures var b := c.outstanding[index];
            if b.generation == c.generation then Completed(c, b) == c.queuedFrames - b.frames
            else Completed(c, b) == c.queuedFrames
  {
    OwnedRemove(c.outstanding, index, c.generation);
  }

  ghost predicate Feasible(c: Controller, es: seq<Event>)
    decreases |es|
  {
    es == [] || (Enabled(c, es[0]) && Feasible(Step(c, es[0]), es[1..]))
  }

  ghost function Run(c: Controller, es: seq<Event>): Controller
    requires Feasible(c, es)
    decreases |es|
  {
    if es == [] then c else Run(Step(c, es[0]), es[1..])
  }

  /** With completions in any order and arbitrarily late, resets included, the counter is always
      the frames of the uncompleted buffers of the current generation. */
  lemma {:induction false} QueuedFramesIsExact(c: Controller, es: seq<Event>)
    requires Valid(c) && Feasible(c, es)
    ensures Run(c, es).queuedFrames == Owned(Run(c, es).outstanding, Run(c, es).generation)
    ensures Valid(Run(c, es))
    decreases |es|
  {
    if es != [] {
      StepKeepsValid(c, es[0]);
      QueuedFramesIsExact(Step(c, es[0]), es[1..]);
    }
  }

  // ---- The scheduling loop -------------------------------------------------------

  class AudioPlaybackController {
    var packets: PacketPlaybackQueue
    var generation: nat
    var queuedFrames: int
    var primed: bool
    var outstanding: seq<Buffer>

    ghost function Value(): Controller
      reads this
    {
      Controller(generation, queuedFrames, outstanding)
    }

    constructor ()
      ensures Valid(Value()) && fresh(packets) && packets.Value() == EMPTY
    {
      packets := new PacketPlaybackQueue();
      generation, queuedFrames, primed, outstanding := 0, 0, false, [];
    }

    /** `resetStream`; the buffers already in the player stay outstanding. */
    method ResetStream()
      requires Valid(Value())
      modifies this
      ensures Valid(Value()) && Value() == Step(old(Value()), Reset(1))
      ensures fresh(packets) && packets.Value() == EMPTY && !primed
    {
      StepKeepsValid(Value(), Reset(1));
      generation := generation + 1;
      queuedFrames := 0;
      primed := false;
      packets := new PacketPlaybackQueue();
    }

    method BufferPlayed(index: nat)
      requires Valid(Value()) && index < |outstanding|
      modifies this
      ensures Valid(Value()) && Value() == Step(old(Value()), Complete(index)) && packets == old(packets)
    {
      StepKeepsValid(Value(), Complete(index));
      var b := outstanding[index];
      outstanding := outstanding[..index] + outstanding[index + 1..];
      if b.generation == generation {
        queuedFrames := Max(0, queuedFrames - b.frames);
      }
    }

    /** The loop of `pump`. What it schedules, plus the one item it may lose when no buffer can be
        made for it, plus what is left, is the whole timeline in order; it stops at the target,
        at a failed conversion, or when the queue has nothing to give. */
    method FillPlayer(targetFrames: int, convertible: Item -> bool)
      returns (scheduled: seq<Item>, lost: seq<Item>)
      requires Valid(Value())
      modifies `queuedFrames, `outstanding, packets
      ensures Valid(Value())
      ensures Drain(old(packets.Value())).1 == scheduled + lost + Drain(packets.Value()).1
      ensures queuedFrames == old(queuedFrames) + SwiftQueue.TotalFrames(scheduled)
      ensures |lost| <= 1
      ensures queuedFrames >= targetFrames || lost != [] || Pop(packets.Value()).1.None?
      ensures forall item :: item in scheduled ==> convertible(item)
    {
      hide Drain, Pop, Valid, Ahead;
      scheduled, lost := [], [];
      ghost var timeline := Drain(packets.Value()).1;
      while queuedFrames < targetFrames
        invariant Valid(Value())
        invariant timeline == scheduled + Drain(packets.Value()).1
        invariant queuedFrames == old(queuedFrames) + SwiftQueue.TotalFrames(scheduled)
        invariant forall item :: item in scheduled ==> convertible(item)
        decreases |packets.packets|, Ahead(packets.Value())
      {
        ghost var before := packets.Value();
        var item := packets.PopNext();
        DrainStep(before);
        if item.None? {
          assert scheduled + [] == scheduled;
          return;
        }
        PopDecreases(before);
        if !convertible(item.value) {
          lost := [item.value];
          return;
        }
        TotalFramesAppend(scheduled, item.value);
        ScheduleBuffer(item.value.Frames());
        assert scheduled + ([item.value] + Drain(packets.Value()).1)
               == scheduled + [item.value] + Drain(packets.Value()).1;
        scheduled := scheduled + [item.value];
      }
    }

    method ScheduleBuffer(frames: nat)
      requires Valid(Value())
      modifies `queuedFrames, `outstanding
      ensures Valid(Value()) && Value() == Step(old(Value()), Schedule(frames))
    {
      StepKeepsValid(Value(), Schedule(frames));
      queuedFrames := queuedFrames + frames;
      outstanding := outstanding + [Buffer(generation, frames)];
    }
  }

  lemma {:induction false} TotalFramesAppend(items: seq<Item>, item: Item)
    ensures SwiftQueue.TotalFrames(items + [item]) == SwiftQueue.TotalFrames(items) + item.Frames()
  {
    if items == [] {
      assert [] + [item] == [item] && [item][1..] == [];
    } else {
      TotalFramesAppend(items[1..], item);
      assert (items + [item])[1..] == items[1..] + [item];
    }
  }
}
