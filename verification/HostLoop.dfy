/** The host's command loop (`runHost` in desktop/src/main.cpp, lines 267-362, with the segment loop
    it runs) against the control threads (`responseFor` in desktop/src/ControlChannel.cpp, lines
    216-248) and the clock. Each call into the room is one step. A control command is three: it
    validates against a snapshot, reads the clock later, and schedules later still, when the snapshot
    may be stale. A packet is two: the loop looks at the room, and sends after sleeping. */
module HostLoop {
  import opened Numbers
  import opened Rooms
  import Clock
  import Host
  import Pcm
  import Wire

  const COMMAND_DELAY := 2 * Clock.SECOND

  /** An action with what its snapshot said; `seeks` counts the seeks executed by then. */
  datatype Command = Command(action: Action, stream: nat, seeks: nat)

  /** A validated command that has not read the clock yet. */
  datatype Draft = Draft(kind: ActionKind, seekFrame: nat, stream: nat, seeks: nat)

  /** Where the loop is; `seen` is the pending action that the segment loop saw. */
  datatype Phase =
    | Starting
    | Announcing(stream: nat)
    | Streaming(stream: nat)
    | Looked(stream: nat, seen: Option<Action>)
    | Taking(seen: Option<Action>)
    | Taken(command: Command)
    | PauseLoop
    | PausedSeek(command: Command)
    | Finishing
    | Finished
    | Failed

  /** What was sent between two executed seeks, and the seek that ended it. */
  datatype Stretch = Stretch(stream: nat, first: nat, last: nat, packets: seq<Wire.Packet>, endedBy: Command)

  /** `source` holds `totalFrames` frames of `channels` samples; `announcedFrames` is what the room was told when the
      file was opened, where 0 means that the length is not known. */
  datatype Settings = Settings(
    config: Host.Config,
    sampleRate: nat,
    channels: nat,
    source: seq<i16>,
    totalFrames: nat,
    announcedFrames: nat,
    firstStream: nat)

  /** `now` is the host clock, `segmentFrame` the frame due at the start of the segment and `number` the
      count of packets that the segment has sent, which restarts with every segment. `scheduled`
      is the room's pending action together with its snapshot; `base` is where the last executed
      seek went and `sent` what has been sent since. */
  datatype HostState = HostState(
    settings: Settings,
    room: Room,
    phase: Phase,
    now: int,
    frame: nat,
    segmentStart: int,
    segmentFrame: nat,
    number: nat,
    drafts: map<nat, Draft>,
    commands: map<nat, Command>,
    scheduled: Option<Command>,
    base: nat,
    sent: seq<Wire.Packet>,
    past: seq<Stretch>)

  datatype Event =
    | Tick(time: int)
    | Issue(id: nat, kind: ActionKind, seekFrame: nat)
    | ReadClock(id: nat)
    | Submit(id: nat)
    | Begin
    | Announce
    | Look
    | Emit(packet: Wire.Packet)
    | SeeCommand
    | Exhaust
    | Take
    | Execute
    | Poll
    | FinishPausedSeek
    | Finish
    | Fail

  /** The first segment is to start one send-ahead from now. */
  function Initial(settings: Settings, now: int): HostState {
    HostState(settings, Room(map[], 1, settings.firstStream, Stopped, None, None), Starting, now, 0,
              now + settings.config.sendAhead * Host.MILLISECOND, 0, 0, map[], map[], None, 0, [], [])
  }

  /** Whole frames. */
  predicate HasSource(settings: Settings) {
    0 < settings.channels < U16_LIMIT && |settings.source| == settings.totalFrames * settings.channels
  }

  /** The room's first stream ID is not zero and frame numbers fit 64 bits. */
  predicate Sensible(settings: Settings, now: int) {
    && Host.ConfigAccepted(settings.config) && 0 < settings.sampleRate < U32_LIMIT && settings.totalFrames < U64_LIMIT
    && HasSource(settings) && 0 < settings.firstStream < U32_LIMIT && now >= 0
  }

  /** The stream after `stream`, skipping zero on wrap-around. */
  function NextStream(stream: nat): nat {
    if (stream + 1) % U32_LIMIT == 0 then 1 else (stream + 1) % U32_LIMIT
  }

  /** The state checks of `responseFor`. */
  predicate Permitted(kind: ActionKind, playback: PlaybackState) {
    match kind
    case Play => playback != Playing
    case Pause => playback == Playing
    case Seek => playback != Stopped
    case Stop => true
  }

  // ---- Times --------------------------------------------------------------------------

  function Due(s: HostState, f: nat): int
    requires s.settings.sampleRate > 0 && s.segmentFrame <= f
  {
    Host.DueAt(s.segmentStart + s.settings.config.outputLatency * Host.MILLISECOND, s.settings.sampleRate,
               f - s.segmentFrame)
  }

  function Cutoff(s: HostState, a: Action): int {
    Host.CutoffOf(s.settings.config, a)
  }

  /** The loop is at a frame of the segment that the decoder has opened. */
  predicate InSource(s: HostState) {
    s.settings.sampleRate > 0 && s.segmentFrame <= s.frame <= s.settings.totalFrames
  }

  /** The samples of a packet are the source's own at its frames. */
  predicate CarriesSource(settings: Settings, p: Wire.Packet) {
    && p.sessionId == settings.config.sessionId && p.channelCount == settings.channels && p.flags == 0
    && var samples, from := Pcm.Decoded(p.payload), p.startFrame as nat * settings.channels;
       && |samples| == p.frameCount as nat * settings.channels && from + |samples| <= |settings.source|
       && samples == settings.source[from..from + |samples|]
  }

  /** The start time that the segment loop is given, with and without the output latency, is one that the
      clock can hold. */
  predicate ClockHolds(s: HostState) {
    && -I64_MAX - 1 <= s.segmentStart <= I64_MAX
    && -I64_MAX <= s.segmentStart + s.settings.config.outputLatency * Host.MILLISECOND <= I64_MAX
  }

  /** The formats that the wire format carries. */
  predicate Supported(settings: Settings) {
    8000 <= settings.sampleRate <= 192000 && 1 <= settings.channels <= 2
  }

  /** A segment that can send packets at all. */
  predicate Streamable(s: HostState) {
    Supported(s.settings) && ClockHolds(s)
  }

  /** What the segment loop can send next: a packet of the source from the current frame on that ends before
      the cutoff it has seen, not earlier than one send-ahead before it is due. */
  predicate CanSend(s: HostState, p: Wire.Packet)
    requires s.phase.Looked? && InSource(s)
  {
    && Wire.WellFormed(p) && p.streamId == s.phase.stream && p.sampleRate == s.settings.sampleRate
    && p.startFrame == s.frame && Host.EndOf(p) <= s.settings.totalFrames && p.sequenceNumber == s.number % U32_LIMIT
    && p.timestamp == Due(s, s.frame) && CarriesSource(s.settings, p) && ClockHolds(s)
    && Due(s, s.frame) - s.settings.config.sendAhead * Host.MILLISECOND <= s.now
    && (s.phase.seen.Some? ==> Due(s, Host.EndOf(p) - 1) < Cutoff(s, s.phase.seen.value))
  }

  // ---- Steps --------------------------------------------------------------------------

  predicate Enabled(s: HostState, e: Event) {
    match e
    case Tick(time) => s.now <= time
    case Issue(id, kind, seekFrame) =>
      && id !in s.commands && id !in s.drafts && Permitted(kind, s.room.playback)
      && (kind == Seek && s.settings.announcedFrames != 0 ==> seekFrame < s.settings.announcedFrames)
    case ReadClock(id) => id in s.drafts
    case Submit(id) => id in s.commands
    case Begin => s.phase.Starting?
    case Announce => s.phase.Announcing?
    case Look => s.phase.Streaming? && InSource(s)
    case Emit(p) => s.phase.Looked? && InSource(s) && CanSend(s, p)
    case SeeCommand =>
      && s.phase.Looked? && InSource(s) && s.phase.seen.Some?
      && Cutoff(s, s.phase.seen.value) <= Due(s, s.frame) <= I64_MAX
    case Exhaust =>
      && s.phase.Looked? && InSource(s) && s.frame == s.settings.totalFrames
      && (s.phase.seen.Some? ==> Due(s, s.frame) < Cutoff(s, s.phase.seen.value))
    case Take => s.phase.Taking?
    case Execute =>
      && s.phase.Taken?
      && Cutoff(s, s.phase.command.action) - s.settings.config.outputLatency * Host.MILLISECOND <= s.now
    case Poll => s.phase.PauseLoop?
    case FinishPausedSeek => s.phase.PausedSeek? && s.phase.command.action.effective <= s.now
    case Finish => s.phase.Finishing?
    case Fail => s.phase.Streaming? || s.phase.Looked?
  }

  /** The action built from a snapshot that showed `stream`. */
  function ActionFor(stream: nat, kind: ActionKind, seekFrame: nat, effective: int): Action {
    if kind == Seek then Action(kind, effective, seekFrame, NextStream(stream)) else Action(kind, effective, 0, stream)
  }

  function Drafted(s: HostState, kind: ActionKind, seekFrame: nat): Draft {
    Draft(kind, seekFrame, s.room.streamId, |s.past|)
  }

  /** A command is effective two seconds after it has read the clock. */
  function Stamped(d: Draft, now: int): Command {
    Command(ActionFor(d.stream, d.kind, d.seekFrame, now + COMMAND_DELAY), d.stream, d.seeks)
  }

  /** A command that takes its snapshot and reads the clock now. */
  function Proposed(s: HostState, kind: ActionKind, seekFrame: nat): Command {
    Stamped(Drafted(s, kind, seekFrame), s.now)
  }

  datatype Reply = SeekOutOfRange | InvalidState | CommandPending | Accepted

  /** A control command that nothing interrupts: its validation, and what it leaves in the room. */
  method RequestCommand(room: SharedRoom, kind: ActionKind, seekFrame: nat, totalFrames: nat,
                        now: int) returns (reply: Reply)
    requires now >= 0 && 0 < room.streamId < U32_LIMIT
    modifies room
    ensures reply == SeekOutOfRange <==> kind == Seek && totalFrames != 0 && seekFrame >= totalFrames
    ensures reply == InvalidState <==> reply != SeekOutOfRange && !Permitted(kind, old(room.playbackState))
    ensures reply == InvalidState <==>
            && reply != SeekOutOfRange
            && match old(room.playbackState)
               case Playing => kind == Play
               case Paused => kind == Pause
               case Stopped => kind == Pause || kind == Seek
    ensures reply == CommandPending ==> old(room.pendingAction).Some?
    ensures reply == Accepted ==>
              && old(room.pendingAction).None? && room.pendingAction.Some?
              && var a := room.pendingAction.value;
                 && a.kind == kind && a.effective == now + 2_000_000_000
                 && a.seekFrame == (if kind == Seek then seekFrame else 0)
                 && a.nextStreamId % 0xFFFF_FFFF == (old(room.streamId) + if kind == Seek then 1 else 0) % 0xFFFF_FFFF
                 && 0 < a.nextStreamId <= 0xFFFF_FFFF
    ensures room.Value() == if reply == Accepted
                            then
                              var a := ActionFor(old(room.streamId), kind, seekFrame, now + COMMAND_DELAY);
                              old(room.Value()).(pending := Some(a))
                            else old(room.Value())
  {
    if kind == Seek && totalFrames != 0 && seekFrame >= totalFrames {
      return SeekOutOfRange;
    }
    var playing := room.playbackState == Playing;
    if (kind == Play && playing) || (kind == Pause && !playing) || (kind == Seek && room.playbackState == Stopped) {
      return InvalidState;
    }
    var nextStream := room.streamId;
    if kind == Seek {
      nextStream := (nextStream + 1) % U32_LIMIT;
      if nextStream == 0 {
        nextStream := 1;
      }
    }
    var frame := if kind == Seek then seekFrame else 0;
    var scheduled := room.ScheduleAction(Action(kind, now + COMMAND_DELAY, frame, nextStream));
    reply := if scheduled == Ok(false) then CommandPending else Accepted;
  }

  /** The seek takes effect: a new stretch begins. */
  function Sought(s: HostState, c: Command, phase: Phase, segmentStart: int): HostState {
    s.(room := s.room.(streamId := c.action.nextStreamId), phase := phase, frame := c.action.seekFrame,
       segmentStart := segmentStart, base := c.action.seekFrame, sent := [],
       past := s.past + [Stretch(s.room.streamId, s.base, s.frame, s.sent, c)])
  }

  /** A play taken while streaming matches no branch: the next segment keeps the old start time. */
  function Executed(s: HostState, c: Command): HostState {
    match c.action.kind
    case Stop => s.(phase := Finishing)
    case Seek => Sought(s, c, Starting, c.action.effective)
    case Pause => s.(room := s.room.(playback := Paused), phase := PauseLoop)
    case Play => s.(phase := Starting)
  }

  /** One look of the pause loop at the pending action. Only this loop takes actions, so the
      look and the take are one step. There is no branch for a pending pause. */
  function Polled(s: HostState): HostState {
    if s.scheduled.None? then s
    else
      var c := s.scheduled.value;
      var taken := s.(room := Rooms.Taken(s.room), scheduled := None);
      match c.action.kind
      case Play => taken.(segmentStart := c.action.effective, phase := Starting)
      case Seek => taken.(phase := PausedSeek(c))
      case Stop => taken.(phase := Finishing)
      case Pause => s
  }

  function Step(s: HostState, e: Event): HostState
    requires Enabled(s, e)
  {
    match e
    case Tick(time) => s.(now := time)
    case Issue(id, kind, seekFrame) => s.(drafts := s.drafts[id := Drafted(s, kind, seekFrame)])
    case ReadClock(id) => s.(drafts := s.drafts - {id}, commands := s.commands[id := Stamped(s.drafts[id], s.now)])
    case Submit(id) =>
      var c := s.commands[id];
      s.(room := Scheduled(s.room, c.action), commands := s.commands - {id},
         scheduled := if s.scheduled.Some? then s.scheduled else Some(c))
    case Begin => s.(phase := Announcing(s.room.streamId), segmentFrame := s.frame, number := 0)
    case Announce => s.(room := s.room.(playback := Playing), phase := Streaming(s.phase.stream))
    case Look => s.(phase := Looked(s.phase.stream, s.room.pending))
    case Emit(p) =>
      s.(phase := Streaming(s.phase.stream), frame := Host.EndOf(p), number := s.number + 1, sent := s.sent + [p])
    case SeeCommand => s.(phase := Taking(s.phase.seen))
    case Exhaust => s.(phase := Finishing)
    case Take =>
      if s.scheduled.None? then s.(phase := Failed)
      else s.(room := Rooms.Taken(s.room), scheduled := None, phase := Phase.Taken(s.scheduled.value))
    case Execute => Executed(s, s.phase.command)
    case Poll => Polled(s)
    case FinishPausedSeek => Sought(s, s.phase.command, PauseLoop, s.segmentStart)
    case Finish => s.(room := s.room.(playback := Stopped), phase := Finished)
    case Fail => s.(phase := Failed)
  }

  // ---- The invariant ------------------------------------------------------------------

  /** The stream ID of stretch `k`, the current one included. */
  function StreamAt(s: HostState, k: nat): nat
    requires k <= |s.past|
  {
    if k < |s.past| then s.past[k].stream else s.room.streamId
  }

  ghost predicate OneStream(ps: seq<Wire.Packet>, stream: nat) {
    forall p :: p in ps ==> p.streamId == stream
  }

  ghost predicate Contiguous(stream: nat, first: nat, last: nat, ps: seq<Wire.Packet>) {
    Host.Tiles(ps, first, last) && OneStream(ps, stream)
  }

  ghost predicate SentContiguously(s: HostState) {
    && Contiguous(s.room.streamId, s.base, s.frame, s.sent)
    && forall r :: r in s.past ==> Contiguous(r.stream, r.first, r.last, r.packets)
  }

  /** The command says what the room showed when its snapshot was taken. */
  ghost predicate Genuine(s: HostState, c: Command) {
    && ActionAccepted(c.action) && c.seeks <= |s.past| && c.stream == StreamAt(s, c.seeks)
    && (c.action.kind == Seek ==> c.action.nextStreamId == NextStream(c.stream))
  }

  /** So it is whenever it reads the clock. */
  ghost predicate DraftGenuine(s: HostState, d: Draft) {
    Genuine(s, Stamped(d, 0))
  }

  ghost predicate CommandsGenuine(s: HostState) {
    && (forall id :: id in s.drafts ==> DraftGenuine(s, s.drafts[id]))
    && (forall id :: id in s.commands ==> Genuine(s, s.commands[id]))
    && (s.scheduled.Some? ==> Genuine(s, s.scheduled.value))
    && (s.phase.Taken? || s.phase.PausedSeek? ==> Genuine(s, s.phase.command))
  }

  /** The ID of the stretch after seek `k` is the successor of the ID in that seek's snapshot. */
  ghost predicate Linked(s: HostState, k: nat)
    requires k < |s.past|
  {
    var seeks := s.past[k].endedBy.seeks;
    seeks <= k && StreamAt(s, k + 1) == NextStream(StreamAt(s, seeks))
  }

  ghost predicate StreamsLinked(s: HostState) {
    StreamAt(s, 0) == s.settings.firstStream && forall k :: 0 <= k < |s.past| ==> Linked(s, k)
  }

  ghost predicate PhaseAgrees(s: HostState) {
    match s.phase
    case Announcing(stream) => stream == s.room.streamId
    case Streaming(stream) => stream == s.room.streamId && s.room.playback == Playing
    case Looked(stream, seen) =>
      && stream == s.room.streamId && s.room.playback == Playing
      && (seen.Some? ==> s.scheduled.Some? && s.scheduled.value.action == seen.value)
    case Taking(seen) =>
      && s.room.playback == Playing
      && s.scheduled.Some? && seen == Some(s.scheduled.value.action)
    case Taken(_) => s.room.playback == Playing
    case PauseLoop => s.room.playback == Paused
    case PausedSeek(c) => s.room.playback == Paused && c.action.kind == Seek
    case _ => true
  }

  ghost predicate Valid(s: HostState) {
    && Sensible(s.settings, s.now) && 0 < s.room.streamId < U32_LIMIT
    && s.room.pending == (if s.scheduled.Some? then Some(s.scheduled.value.action) else None)
    && SentContiguously(s) && CommandsGenuine(s) && StreamsLinked(s) && PhaseAgrees(s)
  }

  lemma NextStreamFits(stream: nat)
    ensures 0 < NextStream(stream) < U32_LIMIT
  {
  }

  /** What nothing but an executed seek changes. */
  ghost predicate SameHistory(s: HostState, t: HostState) {
    t.settings == s.settings && t.past == s.past && t.room.streamId == s.room.streamId && t.base == s.base
  }

  lemma SameHistoryLinks(s: HostState, t: HostState)
    requires SameHistory(s, t) && StreamsLinked(s)
    ensures StreamsLinked(t)
    ensures forall c :: Genuine(s, c) ==> Genuine(t, c)
  {
    hide NextStream, ActionAccepted;
    assert forall k :: 0 <= k <= |s.past| ==> StreamAt(t, k) == StreamAt(s, k);
    hide StreamAt;
    forall k | 0 <= k < |t.past|
      ensures Linked(t, k)
    {
      assert Linked(s, k);
    }
  }

  lemma EmitKeeps(s: HostState, p: Wire.Packet)
    requires Valid(s) && Enabled(s, Emit(p))
    ensures Valid(Step(s, Emit(p)))
  {
    hide Host.Tiles, Due, Cutoff, NextStream, StreamsLinked, Genuine, Sensible;
    var t := Step(s, Emit(p));
    EmitContiguous(s, p);
    SameHistoryLinks(s, t);
    hide SentContiguously, Wire.WellFormed;
  }

  lemma EmitContiguous(s: HostState, p: Wire.Packet)
    requires SentContiguously(s) && PhaseAgrees(s) && Enabled(s, Emit(p))
    ensures SentContiguously(Step(s, Emit(p)))
  {
    hide Due, Cutoff, NextStream;
    assert p.frameCount > 0;
    Host.AppendTile(s.sent, p, s.base);
    hide Host.Tiles, Wire.WellFormed;
  }

  /** The history and every command's snapshot are untouched by a seek, which adds its own link. */
  lemma SoughtLinks(s: HostState, c: Command, phase: Phase, segmentStart: int)
    requires Valid(s) && Genuine(s, c) && c.action.kind == Seek
    ensures var t := Sought(s, c, phase, segmentStart);
            && |t.past| == |s.past| + 1 && StreamAt(t, |t.past|) == NextStream(c.stream)
            && (forall k :: 0 <= k <= |s.past| ==> StreamAt(t, k) == StreamAt(s, k))
            && StreamsLinked(t)
  {
    hide NextStream, Host.Tiles;
    var t := Sought(s, c, phase, segmentStart);
    assert forall k :: 0 <= k <= |s.past| ==> StreamAt(t, k) == StreamAt(s, k);
    forall k | 0 <= k < |t.past|
      ensures Linked(t, k)
    {
      if k < |s.past| {
        assert Linked(s, k);
        assert t.past[k] == s.past[k];
      }
    }
  }

  lemma SoughtContiguous(s: HostState, c: Command, phase: Phase, segmentStart: int)
    requires SentContiguously(s)
    ensures SentContiguously(Sought(s, c, phase, segmentStart))
  {
  }

  lemma SoughtGenuine(s: HostState, c: Command, phase: Phase, segmentStart: int)
    requires Valid(s) && Genuine(s, c) && c.action.kind == Seek && (phase.Starting? || phase.PauseLoop?)
    ensures CommandsGenuine(Sought(s, c, phase, segmentStart))
  {
    SoughtLinks(s, c, phase, segmentStart);
    hide NextStream, StreamsLinked, StreamAt, SentContiguously, PhaseAgrees, Sensible;
  }

  lemma SoughtKeeps(s: HostState, c: Command, phase: Phase, segmentStart: int)
    requires Valid(s) && Genuine(s, c) && c.action.kind == Seek
    requires phase.Starting? || (phase.PauseLoop? && s.room.playback == Paused)
    ensures Valid(Sought(s, c, phase, segmentStart))
  {
    hide NextStream, StreamsLinked, StreamAt, SentContiguously, CommandsGenuine, Sensible;
    SoughtLinks(s, c, phase, segmentStart);
    SoughtContiguous(s, c, phase, segmentStart);
    SoughtGenuine(s, c, phase, segmentStart);
    NextStreamFits(c.stream);
  }

  /** The other steps leave the history alone. */
  lemma QuietStep(s: HostState, e: Event)
    requires Enabled(s, e) && !e.Emit? && !ExecutesSeek(s, e)
    ensures SameHistory(s, Step(s, e)) && Step(s, e).frame == s.frame && Step(s, e).sent == s.sent
  {
    hide Due, Cutoff, CanSend, InSource, Drafted, Stamped, Permitted;
  }

  lemma DraftedIsGenuine(s: HostState, kind: ActionKind, seekFrame: nat)
    requires Valid(s)
    ensures DraftGenuine(s, Drafted(s, kind, seekFrame))
  {
    NextStreamFits(s.room.streamId);
    hide NextStream, Host.Tiles, SentContiguously, CommandsGenuine, StreamsLinked;
  }

  lemma StampedIsGenuine(s: HostState, d: Draft, now: int)
    requires DraftGenuine(s, d) && now >= 0
    ensures Genuine(s, Stamped(d, now))
  {
    hide NextStream, StreamAt;
  }

  /** Commands are those before, or have just read the clock; drafts are those before, or new. */
  ghost predicate SameCommands(s: HostState, t: HostState) {
    && (forall id :: id in t.commands ==>
          || (id in s.commands && t.commands[id] == s.commands[id])
          || (id in s.drafts && t.commands[id] == Stamped(s.drafts[id], s.now)))
    && (t.scheduled.Some? && t.scheduled != s.scheduled ==>
          exists id :: id in s.commands && s.commands[id] == t.scheduled.value)
    && ((t.phase.Taken? || t.phase.PausedSeek?) && t.phase != s.phase ==> s.scheduled == Some(t.phase.command))
  }

  lemma CommandsMove(s: HostState, e: Event)
    requires Enabled(s, e) && !e.Emit? && !ExecutesSeek(s, e)
    ensures SameCommands(s, Step(s, e))
    ensures forall id :: id in Step(s, e).drafts ==>
              || (id in s.drafts && Step(s, e).drafts[id] == s.drafts[id])
              || (e.Issue? && Step(s, e).drafts[id] == Drafted(s, e.kind, e.seekFrame))
  {
    hide Due, Cutoff, CanSend, InSource, Drafted, Stamped, Permitted;
  }

  lemma QuietCommands(s: HostState, e: Event)
    requires Valid(s) && Enabled(s, e) && !e.Emit? && !ExecutesSeek(s, e)
    ensures CommandsGenuine(Step(s, e))
  {
    QuietStep(s, e);
    CommandsMove(s, e);
    SameHistoryLinks(s, Step(s, e));
    hide Genuine, Due, Cutoff, CanSend, InSource, Drafted, Stamped, SentContiguously, StreamsLinked, NextStream, Step,
         Enabled, PhaseAgrees;
    if e.Issue? {
      DraftedIsGenuine(s, e.kind, e.seekFrame);
    }
    forall id | id in s.drafts
      ensures Genuine(s, Stamped(s.drafts[id], s.now))
    {
      StampedIsGenuine(s, s.drafts[id], s.now);
    }
  }

  lemma QuietPhase(s: HostState, e: Event)
    requires Valid(s) && Enabled(s, e) && !e.Emit? && !ExecutesSeek(s, e)
    ensures PhaseAgrees(Step(s, e)) && Sensible(Step(s, e).settings, Step(s, e).now)
    ensures var t := Step(s, e);
            t.room.pending == (if t.scheduled.Some? then Some(t.scheduled.value.action) else None)
  {
    hide Genuine, Due, Cutoff, CanSend, InSource, Drafted, Stamped, Permitted, SentContiguously, StreamsLinked,
         NextStream;
  }

  lemma QuietStepKeeps(s: HostState, e: Event)
    requires Valid(s) && Enabled(s, e) && !e.Emit? && !ExecutesSeek(s, e)
    ensures Valid(Step(s, e))
  {
    hide NextStream, Step, PhaseAgrees, CommandsGenuine, StreamsLinked, Sensible, Host.Tiles, Enabled;
    QuietStep(s, e);
    SameHistoryLinks(s, Step(s, e));
    QuietCommands(s, e);
    QuietPhase(s, e);
  }

  lemma StepKeepsValid(s: HostState, e: Event)
    requires Valid(s) && Enabled(s, e)
    ensures Valid(Step(s, e))
  {
    hide Valid, Sought, CommandsGenuine, NextStream;
    if e.Emit? {
      EmitKeeps(s, e.packet);
    } else if ExecutesSeek(s, e) {
      CommandIsGenuine(s);
      if e.Execute? {
        SoughtKeeps(s, s.phase.command, Starting, s.phase.command.action.effective);
      } else {
        SoughtKeeps(s, s.phase.command, PauseLoop, s.segmentStart);
      }
    } else {
      QuietStepKeeps(s, e);
    }
  }

  lemma CommandIsGenuine(s: HostState)
    requires Valid(s) && (s.phase.Taken? || s.phase.PausedSeek?)
    ensures Genuine(s, s.phase.command)
    ensures s.phase.PausedSeek? ==> s.phase.command.action.kind == Seek && s.room.playback == Paused
  {
    hide Genuine, SentContiguously, StreamsLinked, Sensible;
  }

  predicate ExecutesSeek(s: HostState, e: Event) {
    || (e.Execute? && s.phase.Taken? && s.phase.command.action.kind == Seek)
    || (e.FinishPausedSeek? && s.phase.PausedSeek?)
  }

  // ---- Whole runs ---------------------------------------------------------------------

  predicate Feasible(s: HostState, es: seq<Event>)
    decreases |es|, 0
  {
    es == [] || (Feasible(s, es[..|es| - 1]) && Enabled(Run(s, es[..|es| - 1]), es[|es| - 1]))
  }

  function Run(s: HostState, es: seq<Event>): HostState
    requires Feasible(s, es)
    decreases |es|, 1
  {
    if es == [] then s else Step(Run(s, es[..|es| - 1]), es[|es| - 1])
  }

  /** Every state of the run satisfies `p`. */
  predicate Stays(s: HostState, es: seq<Event>, p: HostState -> bool)
    requires Feasible(s, es)
  {
    p(Run(s, es)) && (es == [] || Stays(s, es[..|es| - 1], p))
  }

  ghost predicate ReachableIn(s: HostState, t: HostState, p: HostState -> bool) {
    exists es :: Feasible(s, es) && Run(s, es) == t && Stays(s, es, p)
  }

  predicate Anywhere(s: HostState) { true }

  lemma InitialIsValid(settings: Settings, now: int)
    requires Sensible(settings, now)
    ensures Valid(Initial(settings, now))
  {
    hide Host.ConfigAccepted;
  }

  lemma {:induction false} RunKeepsValid(s: HostState, es: seq<Event>)
    requires Valid(s) && Feasible(s, es)
    ensures Valid(Run(s, es))
  {
    hide Valid, Enabled, Step;
    if es != [] {
      RunKeepsValid(s, es[..|es| - 1]);
      StepKeepsValid(Run(s, es[..|es| - 1]), es[|es| - 1]);
    }
  }

  lemma ReachableFromItself(s: HostState, p: HostState -> bool)
    requires p(s)
    ensures ReachableIn(s, s, p)
  {
    assert Feasible(s, []) && Run(s, []) == s && Stays(s, [], p);
  }

  lemma OneMore(s: HostState, t: HostState, e: Event, p: HostState -> bool)
    requires ReachableIn(s, t, p) && Enabled(t, e) && p(Step(t, e))
    ensures ReachableIn(s, Step(t, e), p)
  {
    hide Enabled, Step;
    var es :| Feasible(s, es) && Run(s, es) == t && Stays(s, es, p);
    assert (es + [e])[..|es|] == es;
    assert Feasible(s, es + [e]) && Run(s, es + [e]) == Step(t, e) && Stays(s, es + [e], p);
  }

  // ---- What is sent ----------------------------------------------------------------------

  /** The stretch now being sent. */
  predicate IsCurrent(s: HostState, stream: nat, first: nat, last: nat, ps: seq<Wire.Packet>) {
    stream == s.room.streamId && first == s.base && last == s.frame && ps == s.sent
  }

  predicate IsPast(s: HostState, stream: nat, first: nat, last: nat, ps: seq<Wire.Packet>) {
    exists k :: 0 <= k < |s.past| && IsStretch(s.past[k], stream, first, last, ps)
  }

  predicate IsStretch(r: Stretch, stream: nat, first: nat, last: nat, ps: seq<Wire.Packet>) {
    r.stream == stream && r.first == first && r.last == last && r.packets == ps
  }

  /** Between executed seeks the packets sent lay the source frames end to end, each exactly
      once, under one stream ID, across any pauses, resumes and short reads. */
  lemma FramesAreSentOnceBetweenSeeks(settings: Settings, now: int, es: seq<Event>, stream: nat, first: nat, last: nat,
                                      ps: seq<Wire.Packet>, f: nat)
    requires Sensible(settings, now) && Feasible(Initial(settings, now), es)
    requires var s := Run(Initial(settings, now), es);
             IsCurrent(s, stream, first, last, ps) || IsPast(s, stream, first, last, ps)
    ensures first <= f < last <==> exists i :: 0 <= i < |ps| && ps[i].startFrame <= f < Host.EndOf(ps[i])
    ensures forall i, j :: 0 <= i < j < |ps| ==> Host.EndOf(ps[i]) <= ps[j].startFrame
    ensures forall p :: p in ps ==> p.streamId == stream
  {
    hide Feasible, Run, Host.Tiles;
    InitialIsValid(settings, now);
    RunKeepsValid(Initial(settings, now), es);
    StretchIsContiguous(Run(Initial(settings, now), es), stream, first, last, ps);
    Host.EveryFrameSentOnce(ps, first, last, f);
    Host.TilesAreOrdered(ps, first, last);
  }

  lemma StretchIsContiguous(s: HostState, stream: nat, first: nat, last: nat, ps: seq<Wire.Packet>)
    requires Valid(s) && (IsCurrent(s, stream, first, last, ps) || IsPast(s, stream, first, last, ps))
    ensures Contiguous(stream, first, last, ps)
  {
    hide Contiguous, CommandsGenuine, StreamsLinked, PhaseAgrees, Sensible;
    if IsPast(s, stream, first, last, ps) {
      var k :| 0 <= k < |s.past| && IsStretch(s.past[k], stream, first, last, ps);
      assert s.past[k] in s.past;
    }
  }

  /** After the loop has seen a pending action, taking it never finds it gone, and finds the very
      action that ended the segment. */
  lemma ActionNeverDisappears(s: HostState)
    requires Valid(s) && s.phase.Taking?
    ensures Step(s, Take).phase.Taken? && Some(Step(s, Take).phase.command.action) == s.phase.seen
  {
    hide SentContiguously, CommandsGenuine, StreamsLinked, NextStream, Sensible;
  }

  /** A control command can only fill an empty slot, so what the loop saw is what it takes. */
  lemma PendingOnlyLeavesByTake(s: HostState, e: Event)
    requires Valid(s) && Enabled(s, e) && s.scheduled.Some? && !e.Take? && !e.Poll?
    ensures Step(s, e).scheduled == s.scheduled && Step(s, e).room.pending == s.room.pending
  {
    hide SentContiguously, CommandsGenuine, StreamsLinked, Due, Cutoff, CanSend, NextStream, Sensible, PhaseAgrees;
  }

  /** Only executed seeks touch the stream ID or move the frame other than by sending. */
  lemma OnlySeeksMoveTheStream(s: HostState, e: Event)
    requires Valid(s) && Enabled(s, e) && !ExecutesSeek(s, e)
    ensures SameHistory(s, Step(s, e))
    ensures (Step(s, e).frame, Step(s, e).sent)
            == if e.Emit? then (Host.EndOf(e.packet), s.sent + [e.packet]) else (s.frame, s.sent)
  {
    hide Valid, Due, Cutoff, CanSend;
    if !e.Emit? {
      QuietStep(s, e);
    }
  }

  // ---- Stream IDs --------------------------------------------------------------------------

  const CYCLE := U32_LIMIT - 1

  /** The ID `k` seeks after `stream`. */
  function Nth(stream: nat, k: nat): nat {
    if k == 0 then stream else NextStream(Nth(stream, k - 1))
  }

  /** The IDs run through all nonzero 32-bit numbers before one comes back. */
  lemma {:induction false} NthIs(stream: nat, k: nat)
    requires 0 < stream < U32_LIMIT
    ensures Nth(stream, k) == (stream - 1 + k) % CYCLE + 1
  {
    if k > 0 {
      NthIs(stream, k - 1);
      NextStreamIs(Nth(stream, k - 1));
      hide NextStream;
      NextRemainder(stream - 1 + k - 1, CYCLE);
    }
  }

  lemma NextStreamIs(stream: nat)
    requires 0 < stream < U32_LIMIT
    ensures NextStream(stream) == if stream == CYCLE then 1 else stream + 1
  {
  }

  lemma NextRemainder(x: nat, cycle: nat)
    requires cycle > 1
    ensures (x + 1) % cycle == if x % cycle == cycle - 1 then 0 else x % cycle + 1
  {
    var q, r := x / cycle, x % cycle;
    assert x == q * cycle + r;
    if r == cycle - 1 {
      assert x + 1 == (q + 1) * cycle;
      RemainderIs(x + 1, q + 1, 0, cycle);
    } else {
      RemainderIs(x + 1, q, r + 1, cycle);
    }
  }

  lemma NthDiffers(stream: nat, i: nat, j: nat)
    requires 0 < stream < U32_LIMIT && i < j < i + CYCLE
    ensures Nth(stream, i) != Nth(stream, j)
  {
    NthIs(stream, i);
    NthIs(stream, j);
    hide Nth;
    RemaindersDiffer(stream - 1 + i, stream - 1 + j, CYCLE);
  }

  /** Every executed seek had a snapshot taken after the seek before it. */
  predicate SeeksCurrent(s: HostState, upTo: nat)
    requires upTo <= |s.past|
  {
    forall k :: 0 <= k < upTo ==> s.past[k].endedBy.seeks == k
  }

  lemma {:induction false} CurrentSeeksCount(s: HostState, k: nat)
    requires Valid(s) && k <= |s.past| && SeeksCurrent(s, k)
    ensures StreamAt(s, k) == Nth(s.settings.firstStream, k)
  {
    hide NextStream, SentContiguously, CommandsGenuine, PhaseAgrees, Sensible, StreamAt;
    if k > 0 {
      CurrentSeeksCount(s, k - 1);
      assert Linked(s, k - 1);
    }
  }

  ghost predicate StreamsDistinct(s: HostState) {
    forall i, j :: 0 <= i < j <= |s.past| ==> StreamAt(s, i) != StreamAt(s, j)
  }

  /** In every run with fewer than 2^32 - 1 executed seeks: no two stretches share a stream ID if and
      only if every executed seek's command was validated after the seek before it. */
  lemma StreamIdsDistinctIff(settings: Settings, now: int, es: seq<Event>)
    requires Sensible(settings, now) && Feasible(Initial(settings, now), es)
    requires |Run(Initial(settings, now), es).past| < CYCLE
    ensures var s := Run(Initial(settings, now), es); StreamsDistinct(s) <==> SeeksCurrent(s, |s.past|)
  {
    hide Valid, Feasible, Run, StreamsDistinct, SeeksCurrent;
    InitialIsValid(settings, now);
    RunKeepsValid(Initial(settings, now), es);
    DistinctIffCurrent(Run(Initial(settings, now), es));
  }

  lemma DistinctIffCurrent(s: HostState)
    requires Valid(s) && |s.past| < CYCLE
    ensures StreamsDistinct(s) <==> SeeksCurrent(s, |s.past|)
  {
    hide NextStream, SentContiguously, CommandsGenuine, PhaseAgrees, StreamAt;
    if SeeksCurrent(s, |s.past|) {
      forall i, j | 0 <= i < j <= |s.past|
        ensures StreamAt(s, i) != StreamAt(s, j)
      {
        CurrentSeeksCount(s, i);
        CurrentSeeksCount(s, j);
        NthDiffers(s.settings.firstStream, i, j);
      }
    } else {
      var k := FirstStaleSeek(s, |s.past|);
      StaleSeekRepeats(s, k);
    }
  }

  lemma {:induction false} FirstStaleSeek(s: HostState, upTo: nat) returns (k: nat)
    requires upTo <= |s.past| && !SeeksCurrent(s, upTo)
    ensures k < upTo && SeeksCurrent(s, k) && s.past[k].endedBy.seeks != k
  {
    if SeeksCurrent(s, upTo - 1) {
      k := upTo - 1;
    } else {
      k := FirstStaleSeek(s, upTo - 1);
    }
  }

  /** The first stale seek brings back the ID of the stretch after its snapshot. */
  lemma StaleSeekRepeats(s: HostState, k: nat)
    requires Valid(s) && k < |s.past| && SeeksCurrent(s, k) && s.past[k].endedBy.seeks != k
    ensures s.past[k].endedBy.seeks < k
    ensures StreamAt(s, k + 1) == StreamAt(s, s.past[k].endedBy.seeks + 1)
  {
    hide NextStream, SentContiguously, CommandsGenuine, PhaseAgrees, Sensible, StreamAt;
    assert Linked(s, k);
    assert Linked(s, s.past[k].endedBy.seeks);
  }

  /** What the next seek does to the ID, while all before it were current: with `stale` seeks executed
      since its snapshot it keeps the ID exactly when that is one, and takes an ID that no stretch
      has had exactly when that is none. */
  lemma SeekRotatesIff(s: HostState, e: Event)
    requires Valid(s) && Enabled(s, e) && ExecutesSeek(s, e) && SeeksCurrent(s, |s.past|) && |s.past| + 1 < CYCLE
    ensures var stale := |s.past| - s.phase.command.seeks;
            var id := Step(s, e).room.streamId;
            && stale >= 0
            && (id == s.room.streamId <==> stale == 1)
            && ((forall k :: 0 <= k <= |s.past| ==> StreamAt(s, k) != id) <==> stale == 0)
  {
    CommandIsGenuine(s);
    var c, first, n := s.phase.command, s.settings.firstStream, |s.past|;
    var id := Step(s, e).room.streamId;
    hide NextStream, SentContiguously, CommandsGenuine, PhaseAgrees, StreamsLinked, Due, Cutoff;
    assert StreamAt(s, n) == s.room.streamId;
    CurrentSeeksCount(s, c.seeks);
    CurrentSeeksCount(s, n);
    assert id == Nth(first, c.seeks + 1);
    if c.seeks < n {
      CurrentSeeksCount(s, c.seeks + 1);
      if c.seeks + 1 < n {
        NthDiffers(first, c.seeks + 1, n);
      }
    } else {
      forall k | 0 <= k <= n
        ensures StreamAt(s, k) != id
      {
        CurrentSeeksCount(s, k);
        NthDiffers(first, k, n + 1);
      }
    }
  }

  // ---- The pause loop ------------------------------------------------------------------------

  predicate InPause(s: HostState) {
    s.phase.PauseLoop? || s.phase.PausedSeek?
  }

  predicate Awaits(s: HostState, kind: ActionKind) {
    s.scheduled.Some? && s.scheduled.value.action.kind == kind
  }

  predicate InFlight(s: HostState, kind: ActionKind) {
    || (exists id :: id in s.drafts && s.drafts[id].kind == kind)
    || (exists id :: id in s.commands && s.commands[id].action.kind == kind)
  }

  /** The pause loop with a pending pause, for which it has no branch. */
  predicate Stuck(s: HostState) {
    s.phase.PauseLoop? && Awaits(s, Pause)
  }

  /** Nothing but the clock and the control threads' own variables moves on from there: no packet is
      sent and no command is ever scheduled again. */
  lemma {:induction false} StuckForever(s: HostState, es: seq<Event>)
    requires Valid(s) && Stuck(s) && Feasible(s, es)
    ensures var t := Run(s, es);
            && Stuck(t) && t.room == s.room && t.frame == s.frame && t.sent == s.sent && t.scheduled == s.scheduled
            && t.past == s.past
  {
    hide Due, Cutoff, CanSend, InSource, Drafted, Stamped, Permitted, Valid;
    if es != [] {
      var before := es[..|es| - 1];
      StuckForever(s, before);
      RunKeepsValid(s, before);
      assert Run(s, before).room.pending.Some? by { SlotIsPending(Run(s, before)); }
    }
  }

  lemma SlotIsPending(s: HostState)
    requires Valid(s) && s.scheduled.Some?
    ensures s.room.pending == Some(s.scheduled.value.action)
  {
    hide SentContiguously, CommandsGenuine, StreamsLinked, PhaseAgrees, Sensible;
  }

  /** Every other pending action is taken by the next look, and without one the loop can still
      be resumed, so the pause is left alone exactly when nothing or a pause is pending. */
  lemma PollIsIdleIff(s: HostState)
    requires Valid(s) && s.phase.PauseLoop?
    ensures Step(s, Poll) == s <==> s.scheduled.None? || Stuck(s)
    ensures s.scheduled.None? ==> Permitted(Play, s.room.playback)
  {
    hide SentContiguously, CommandsGenuine, StreamsLinked, Sensible;
  }

  /** A pause is waiting in the slot, or is in flight while the slot holds nothing or a seek, which the
      pause loop executes without leaving. */
  predicate CanStick(s: HostState) {
    Awaits(s, Pause) || (InFlight(s, Pause) && (s.scheduled.None? || Awaits(s, Seek)))
  }

  /** The exact condition: a pause can get stuck before it ends if and only if that holds. */
  lemma PauseSticksIff(s: HostState)
    requires Valid(s) && InPause(s)
    ensures (exists t :: ReachableIn(s, t, InPause) && Stuck(t)) <==> CanStick(s)
  {
    hide Valid, ReachableIn;
    if CanStick(s) {
      var t := ReachStuck(s);
    }
    if t :| ReachableIn(s, t, InPause) && Stuck(t) {
      CanStickBefore(s, t);
    }
  }

  lemma CanStickBefore(s: HostState, t: HostState)
    requires Valid(s) && ReachableIn(s, t, InPause) && Stuck(t)
    ensures CanStick(s)
  {
    hide Valid;
    var es :| Feasible(s, es) && Run(s, es) == t && Stays(s, es, InPause);
    if !CanStick(s) {
      CleanPauseStaysClean(s, es);
    }
  }

  /** During a pause no new pause is accepted. */
  lemma {:induction false} CleanPauseStaysClean(s: HostState, es: seq<Event>)
    requires Valid(s) && Feasible(s, es) && Stays(s, es, InPause) && !CanStick(s)
    ensures !CanStick(Run(s, es))
  {
    hide Valid, Enabled, Step, CanStick;
    if es != [] {
      var before := es[..|es| - 1];
      CleanPauseStaysClean(s, before);
      RunKeepsValid(s, before);
      CleanStep(Run(s, before), es[|es| - 1]);
    }
  }

  lemma CleanStep(s: HostState, e: Event)
    requires Valid(s) && Enabled(s, e) && InPause(s) && InPause(Step(s, e)) && !CanStick(s)
    ensures !CanStick(Step(s, e))
  {
    hide SentContiguously, CommandsGenuine, StreamsLinked, Sensible, Due, Cutoff, CanSend, InSource, NextStream;
    var t := Step(s, e);
    assert s.room.playback == Paused;
    assert forall id :: id in t.commands ==>
        || (id in s.commands && t.commands[id] == s.commands[id])
        || (id in s.drafts && t.commands[id].action.kind == s.drafts[id].kind);
    assert forall id :: id in t.drafts ==>
        (id in s.drafts && t.drafts[id] == s.drafts[id]) || (e.Issue? && t.drafts[id].kind == e.kind);
  }

  lemma ReachStuck(s: HostState) returns (t: HostState)
    requires Valid(s) && InPause(s) && CanStick(s)
    ensures ReachableIn(s, t, InPause) && Stuck(t)
  {
    hide Valid, ReachableIn;
    ReachableFromItself(s, InPause);
    t := s;
    if t.phase.PausedSeek? && !Awaits(t, Pause) && t.scheduled.Some? {
      t := FinishSeek(s, t);
    }
    if t.phase.PauseLoop? && Awaits(t, Seek) {
      OneMore(s, t, Poll, InPause);
      t := Step(t, Poll);
    }
    if t.scheduled.None? {
      var id :|
        || (id in t.drafts && t.drafts[id].kind == Pause)
        || (id in t.commands && t.commands[id].action.kind == Pause);
      if id in t.drafts && t.drafts[id].kind == Pause {
        OneMore(s, t, ReadClock(id), InPause);
        t := Step(t, ReadClock(id));
      }
      OneMore(s, t, Submit(id), InPause);
      t := Step(t, Submit(id));
    }
    if t.phase.PausedSeek? {
      t := FinishSeek(s, t);
    }
  }

  lemma FinishSeek(s: HostState, t: HostState) returns (u: HostState)
    requires ReachableIn(s, t, InPause) && t.phase.PausedSeek?
    ensures ReachableIn(s, u, InPause) && u.phase.PauseLoop? && u.scheduled == t.scheduled
    ensures u.commands == t.commands && u.drafts == t.drafts
  {
    hide ReachableIn;
    var time := Max(t.now, t.phase.command.action.effective);
    OneMore(s, t, Tick(time), InPause);
    u := Step(t, Tick(time));
    OneMore(s, u, FinishPausedSeek, InPause);
    u := Step(u, FinishPausedSeek);
  }

  // ---- Inside a segment ------------------------------------------------------------------------

  /** From the first packet's look to the taking of the command that ends the segment. */
  predicate InSegment(s: HostState) {
    s.phase.Streaming? || s.phase.Looked? || s.phase.Taking? || s.phase.Taken?
  }

  /** The next packet of `streamFile` number `k` of a segment, with the room's slot as that call saw it,
      is a look, a sleep and an emission here. Between packets the slot may change, so whole segments
      under any scheduling are covered. */
  lemma PacketIsRun(s: HostState, g: Host.Segment, ps: seq<Wire.Packet>, last: nat, pending: nat -> Option<Action>,
                    chunk: nat -> nat, k: nat) returns (t: HostState)
    requires Valid(s) && s.phase == Streaming(g.config.streamId) && InSource(s)
    requires g.config.(streamId := 0) == s.settings.config.(streamId := 0)
    requires g.sampleRate == s.settings.sampleRate && g.playbackStart == s.segmentStart
             && g.initialFrame == s.segmentFrame
    requires Host.Playable(g) && Host.FramesPerPacket(g) != 0
    requires g.source == s.settings.source && g.channels == s.settings.channels
    requires Host.Emitted(g, ps, last, pending, chunk) && k < |ps| && ps[k].startFrame == s.frame
    requires pending(k) == s.room.pending && s.number == k
    ensures ReachableIn(s, t, InSegment)
    ensures t == s.(frame := Host.EndOf(ps[k]), number := k + 1, sent := s.sent + [ps[k]], now := t.now)
    ensures t.now == Max(s.now, Host.Due(g, s.frame) - s.settings.config.sendAhead * Host.MILLISECOND)
  {
    hide Valid, ReachableIn, Host.Playable, Host.Total, Host.FramesPerPacket, Host.Sized, Host.Tiles, Host.SourceSlice,
         Host.DueAt;
    var p := ps[k];
    assert Host.Faithful(g, p);
    FaithfulCarries(s, g, p);
    if pending(k).Some? {
      Host.NothingAtOrAfterCutoff(g, ps, last, pending, chunk, k, Host.EndOf(p) - 1);
    }
    ReachableFromItself(s, InSegment);
    OneMore(s, s, Look, InSegment);
    t := Step(s, Look);
    var time := Max(s.now, Host.Due(g, s.frame) - s.settings.config.sendAhead * Host.MILLISECOND);
    OneMore(s, t, Tick(time), InSegment);
    t := Step(t, Tick(time));
    assert Due(t, t.frame) == Host.Due(g, p.startFrame);
    assert Due(t, Host.EndOf(p) - 1) == Host.Due(g, Host.EndOf(p) - 1);
    OneMore(s, t, Emit(p), InSegment);
    t := Step(t, Emit(p));
  }

  lemma FaithfulCarries(s: HostState, g: Host.Segment, p: Wire.Packet)
    requires Valid(s) && Host.Playable(g) && g.sampleRate != 0 && Host.Faithful(g, p)
    requires g.config.(streamId := 0) == s.settings.config.(streamId := 0) && g.playbackStart == s.segmentStart
    requires g.source == s.settings.source && g.channels == s.settings.channels
    ensures CarriesSource(s.settings, p) && ClockHolds(s)
    ensures Host.Total(g) == s.settings.totalFrames
  {
    hide SentContiguously, CommandsGenuine, StreamsLinked, PhaseAgrees, Wire.WellFormed, Host.Due, Pcm.Decoded;
    WholeFrames(s.settings.totalFrames, s.settings.channels);
    Host.SliceFits(g, p.startFrame, p.frameCount);
  }

  lemma WholeFrames(frames: nat, channels: nat)
    requires 0 < channels
    ensures frames * channels / channels == frames
  {
    Clock.FloorAtLeast(frames * channels, channels, frames);
    Clock.FloorAtLeast(frames * channels, channels, frames + 1);
    assert (frames + 1) * channels == frames * channels + channels;
  }

  // ---- Reaching a cutoff -------------------------------------------------------------------------

  /** The source lasts until the action is due: some frame from here on is due at or after its cutoff at
      a representable time, and unless that is this very frame, packets can be sent. */
  predicate Attains(s: HostState, a: Action, f: nat) {
    && InSource(s) && s.frame <= f <= s.settings.totalFrames
    && Cutoff(s, a) <= Due(s, f) <= I64_MAX
    && (s.frame < f && Due(s, s.frame) < Cutoff(s, a) ==>
          0 <= Due(s, s.frame) && Streamable(s))
  }

  ghost predicate Attainable(s: HostState, a: Action) {
    exists f :: Attains(s, a, f)
  }

  /** A packet of one frame, which is what a decoder's short read gives. */
  ghost function FramePacket(s: HostState): Wire.Packet
    requires Valid(s) && s.phase.Looked? && InSource(s) && s.frame < s.settings.totalFrames
    requires 0 <= Due(s, s.frame) <= I64_MAX && Streamable(s)
  {
    OneFrame(s.settings, s.frame);
    var from := s.frame * s.settings.channels;
    Wire.Packet(Wire.PROTOCOL_VERSION, 0, s.settings.config.sessionId, s.phase.stream, s.number % U32_LIMIT,
                s.settings.sampleRate, s.settings.channels, Wire.PCM_S16_LITTLE_ENDIAN, s.frame, Due(s, s.frame), 1,
                Pcm.Encoded(s.settings.source[from..from + s.settings.channels]))
  }

  lemma OneFrame(settings: Settings, frame: nat)
    requires HasSource(settings) && frame < settings.totalFrames
    ensures 0 <= frame * settings.channels <= frame * settings.channels + settings.channels <= |settings.source|
  {
    assert (frame + 1) * settings.channels <= settings.totalFrames * settings.channels;
  }

  /** What a segment does on its way to the cutoff. */
  ghost predicate SameSegment(s: HostState, t: HostState) {
    && t == s.(phase := t.phase, frame := t.frame, number := t.number, sent := t.sent, now := t.now)
    && s.frame <= t.frame && s.now <= t.now
  }

  lemma DueGrows(s: HostState, f: nat, h: nat)
    requires s.settings.sampleRate > 0 && s.segmentFrame <= f <= h
    ensures Due(s, f) <= Due(s, h)
  {
    Host.DueAtGrows(s.segmentStart + s.settings.config.outputLatency * Host.MILLISECOND, s.settings.sampleRate,
                    f - s.segmentFrame, h - s.segmentFrame);
  }

  lemma StreamToCutoff(s: HostState, t: HostState, c: Command, f: nat, p: HostState -> bool) returns (u: HostState)
    requires Valid(t) && ReachableIn(s, t, p) && (forall x :: InSegment(x) ==> p(x))
    requires t.phase.Streaming? && t.scheduled == Some(c) && Attains(t, c.action, f)
    ensures Valid(u) && ReachableIn(s, u, p) && u.phase == Phase.Taking(Some(c.action)) && SameSegment(t, u)
    ensures u.now <= Max(t.now, Cutoff(t, c.action))
    ensures InSource(u) && Cutoff(t, c.action) <= Due(u, u.frame) <= I64_MAX
    decreases f - t.frame
  {
    hide Valid, ReachableIn, Host.DueAt, Host.CutoffOf, Host.ConfigAccepted;
    assert t.room.pending == Some(c.action) && t.settings.config.sendAhead >= 0 by { SlotAndConfig(t); }
    StepKeepsValid(t, Look);
    OneMore(s, t, Look, p);
    var looked := Step(t, Look);
    if Cutoff(t, c.action) <= Due(t, t.frame) {
      DueGrows(t, t.frame, f);
      StepKeepsValid(looked, SeeCommand);
      OneMore(s, looked, SeeCommand, p);
      u := Step(looked, SeeCommand);
    } else {
      var v := SendOne(s, looked, c, f, p);
      u := StreamToCutoff(s, v, c, f, p);
    }
  }

  lemma SlotAndConfig(s: HostState)
    requires Valid(s) && s.scheduled.Some?
    ensures s.room.pending == Some(s.scheduled.value.action) && s.settings.config.sendAhead >= 0
  {
    hide SentContiguously, CommandsGenuine, StreamsLinked, PhaseAgrees;
  }

  lemma StreamFits(s: HostState)
    requires Valid(s) && s.phase.Looked?
    ensures 0 < s.phase.stream < U32_LIMIT && s.settings.totalFrames < U64_LIMIT && HasSource(s.settings)
  {
    hide SentContiguously, CommandsGenuine, StreamsLinked;
  }

  lemma SendOne(s: HostState, t: HostState, c: Command, f: nat, p: HostState -> bool) returns (v: HostState)
    requires Valid(t) && ReachableIn(s, t, p) && (forall x :: InSegment(x) ==> p(x))
    requires t.phase.Looked? && t.phase.seen == Some(c.action) && t.settings.config.sendAhead >= 0
    requires Attains(t, c.action, f) && Due(t, t.frame) < Cutoff(t, c.action)
    ensures Valid(v) && ReachableIn(s, v, p) && v.phase == Streaming(t.phase.stream)
    ensures v == t.(phase := v.phase, frame := t.frame + 1, number := v.number, sent := v.sent, now := v.now)
    ensures t.now <= v.now <= Max(t.now, Cutoff(t, c.action)) && t.frame < f && Attains(v, c.action, f)
  {
    hide Valid, ReachableIn, Host.DueAt, Host.CutoffOf;
    StreamFits(t);
    var due := Due(t, t.frame);
    var time := Max(t.now, due - t.settings.config.sendAhead * Host.MILLISECOND);
    StepKeepsValid(t, Tick(time));
    OneMore(s, t, Tick(time), p);
    var ticked := Step(t, Tick(time));
    DueGrows(t, t.frame, f);
    var packet := FramePacket(ticked);
    FramePacketCanBeSent(ticked, due, c);
    StepKeepsValid(ticked, Emit(packet));
    OneMore(s, ticked, Emit(packet), p);
    v := Step(ticked, Emit(packet));
    DueGrows(t, t.frame, v.frame);
  }

  lemma FramePacketCanBeSent(t: HostState, due: int, c: Command)
    requires Valid(t) && t.phase.Looked? && InSource(t) && t.frame < t.settings.totalFrames < U64_LIMIT
    requires 0 < t.phase.stream < U32_LIMIT && Streamable(t) && HasSource(t.settings)
    requires t.phase.seen == Some(c.action) && due == Due(t, t.frame) && 0 <= due <= I64_MAX
             && due < Cutoff(t, c.action)
    requires due - t.settings.config.sendAhead * Host.MILLISECOND <= t.now
    ensures CanSend(t, FramePacket(t))
  {
    hide Valid, Host.DueAt, Host.CutoffOf, Pcm.Encoded;
    OneFrame(t.settings, t.frame);
    var from := t.frame * t.settings.channels;
    Pcm.DecodedEncoded(t.settings.source[from..from + t.settings.channels]);
    assert Wire.WellFormed(FramePacket(t));
  }

  // ---- A play that ends a segment ---------------------------------------------------------------

  /** The loop has taken a play while streaming. */
  predicate TakenPlay(s: HostState) {
    s.phase.Taken? && s.phase.command.action.kind == Play
  }

  /** A play that a segment still has to meet: in the slot, or in flight towards an empty slot, and due
      before the source ends. */
  ghost predicate PlayAhead(s: HostState) {
    exists c :: Candidate(s, c) && c.action.kind == Play && Attainable(s, c.action)
  }

  ghost predicate Candidate(s: HostState, c: Command) {
    if s.scheduled.Some? then s.scheduled.value == c else Held(s, c)
  }

  /** In flight; a command that has not read the clock yet can still read it now. */
  ghost predicate Held(s: HostState, c: Command) {
    || (exists id :: id in s.commands && s.commands[id] == c)
    || (exists id :: id in s.drafts && Stamped(s.drafts[id], s.now) == c)
  }

  /** The same with a clock that has moved on. */
  ghost predicate HeldSince(s: HostState, c: Command) {
    exists b :: Held(s, b) && Later(b, c)
  }

  predicate Later(b: Command, c: Command) {
    b == c.(action := c.action.(effective := b.action.effective)) && b.action.effective <= c.action.effective
  }

  /** The exact condition: a streaming segment can end by taking a play if and only if one lies ahead.
      While it streams no further play is accepted. */
  lemma PlayEndsSegmentIff(s: HostState)
    requires Valid(s) && s.phase.Streaming?
    ensures (exists t :: ReachableIn(s, t, InSegment) && TakenPlay(t)) <==> PlayAhead(s)
  {
    hide Valid, ReachableIn, PlayAhead;
    if PlayAhead(s) {
      var t := ReachTakenPlay(s);
    }
    if t :| ReachableIn(s, t, InSegment) && TakenPlay(t) {
      PlayWasAhead(s, t);
    }
  }

  lemma ReachTakenPlay(s: HostState) returns (t: HostState)
    requires Valid(s) && s.phase.Streaming? && PlayAhead(s)
    ensures ReachableIn(s, t, InSegment) && TakenPlay(t)
  {
    hide Valid, ReachableIn, Host.DueAt, Host.CutoffOf;
    var c :| Candidate(s, c) && c.action.kind == Play && Attainable(s, c.action);
    var f :| Attains(s, c.action, f);
    ReachableFromItself(s, InSegment);
    t := s;
    if s.scheduled.None? {
      t := SubmitHeld(s, c);
    }
    assert Attains(t, c.action, f);
    t := StreamToCutoff(s, t, c, f, InSegment);
    OneMore(s, t, Take, InSegment);
    t := Step(t, Take);
  }

  lemma SubmitHeld(s: HostState, c: Command) returns (t: HostState)
    requires Valid(s) && s.phase.Streaming? && s.scheduled.None? && Held(s, c)
    ensures Valid(t) && ReachableIn(s, t, InSegment)
    ensures t == s.(drafts := t.drafts, commands := t.commands, scheduled := Some(c),
                    room := Scheduled(s.room, c.action))
  {
    hide Valid, ReachableIn, Stamped;
    ReachableFromItself(s, InSegment);
    var id :| || (id in s.commands && s.commands[id] == c)
              || (id in s.drafts && Stamped(s.drafts[id], s.now) == c);
    t := s;
    if !(id in s.commands && s.commands[id] == c) {
      StepKeepsValid(s, ReadClock(id));
      OneMore(s, s, ReadClock(id), InSegment);
      t := Step(s, ReadClock(id));
    }
    StepKeepsValid(t, Submit(id));
    OneMore(s, t, Submit(id), InSegment);
    t := Step(t, Submit(id));
  }

  /** What a run inside one segment remembers of its beginning. */
  ghost predicate SegmentFrom(s: HostState, t: HostState) {
    && InSegment(t)
    && t.settings == s.settings && t.segmentStart == s.segmentStart && t.segmentFrame == s.segmentFrame
    && s.frame <= t.frame
    && (s.frame < t.frame ==> InSource(s) && 0 <= Due(s, s.frame) && Streamable(s))
    && (!t.phase.Taken? && s.scheduled.Some? ==> t.scheduled == s.scheduled)
    && (!t.phase.Taken? && s.scheduled.None? && Awaits(t, Play) ==> HeldSince(s, t.scheduled.value))
    && PlaysAreOld(s, t) && s.now <= t.now
  }

  /** Every play still in flight was in flight at the beginning. */
  ghost predicate PlaysAreOld(s: HostState, t: HostState) {
    && (forall id :: id in t.commands && t.commands[id].action.kind == Play ==> HeldSince(s, t.commands[id]))
    && (forall id :: id in t.drafts && t.drafts[id].kind == Play ==> id in s.drafts && s.drafts[id] == t.drafts[id])
  }

  ghost predicate CandidateSince(s: HostState, c: Command) {
    if s.scheduled.Some? then s.scheduled.value == c else HeldSince(s, c)
  }

  /** Once a command has been seen, the loop stands at a frame due at or after its cutoff. */
  ghost predicate EndReached(s: HostState, t: HostState) {
    match t.phase
    case Taking(seen) => seen.Some? && AtCutoff(t, seen.value)
    case Taken(c) => AtCutoff(t, c.action) && CandidateSince(s, c)
    case _ => true
  }

  predicate AtCutoff(t: HostState, a: Action) {
    InSource(t) && Cutoff(t, a) <= Due(t, t.frame) <= I64_MAX
  }

  lemma {:induction false} SegmentRemembers(s: HostState, es: seq<Event>)
    requires Valid(s) && s.phase.Streaming? && Feasible(s, es) && Stays(s, es, InSegment)
    ensures SegmentFrom(s, Run(s, es))
    ensures TakenPlay(Run(s, es)) ==> EndReached(s, Run(s, es))
    ensures Run(s, es).phase.Taking? ==> EndReached(s, Run(s, es))
  {
    hide Valid, Enabled, Step, SegmentFrom, EndReached;
    if es == [] {
      SegmentBegins(s);
    } else {
      var before := es[..|es| - 1];
      SegmentRemembers(s, before);
      RunKeepsValid(s, before);
      SegmentStep(s, Run(s, before), es[|es| - 1]);
      SegmentEnds(s, Run(s, before), es[|es| - 1]);
    }
  }

  lemma StampedSince(s: HostState, t: HostState, id: nat)
    requires id in t.drafts && PlaysAreOld(s, t) && s.now <= t.now
    ensures Stamped(t.drafts[id], t.now).action.kind == t.drafts[id].kind
    ensures t.drafts[id].kind == Play ==> HeldSince(s, Stamped(t.drafts[id], t.now))
  {
    if t.drafts[id].kind == Play {
      assert Held(s, Stamped(s.drafts[id], s.now));
      assert Later(Stamped(s.drafts[id], s.now), Stamped(t.drafts[id], t.now));
    }
  }

  lemma HeldIsSince(s: HostState, c: Command)
    requires Held(s, c)
    ensures HeldSince(s, c)
  {
    assert Later(c, c);
  }

  lemma SegmentBegins(s: HostState)
    requires s.phase.Streaming?
    ensures SegmentFrom(s, s)
  {
    hide Due, InSource;
    forall id | id in s.commands
      ensures HeldSince(s, s.commands[id])
    {
      HeldIsSince(s, s.commands[id]);
    }
  }

  lemma SegmentStep(s: HostState, t: HostState, e: Event)
    requires Valid(t) && Enabled(t, e) && SegmentFrom(s, t) && InSegment(Step(t, e))
    ensures SegmentFrom(s, Step(t, e))
  {
    SlotStep(s, t, e);
    FrameStep(s, t, e);
    hide PlaysAreOld, HeldSince, Enabled, Step, Due, InSource;
  }

  lemma FrameStep(s: HostState, t: HostState, e: Event)
    requires Valid(t) && Enabled(t, e) && SegmentFrom(s, t) && InSegment(Step(t, e))
    ensures var u := Step(t, e);
            && u.settings == s.settings && u.segmentStart == s.segmentStart && u.segmentFrame == s.segmentFrame
            && s.frame <= u.frame
            && (s.frame < u.frame ==> InSource(s) && 0 <= Due(s, s.frame) && Streamable(s))
  {
    hide SentContiguously, CommandsGenuine, StreamsLinked, PhaseAgrees, Host.DueAt, Host.CutoffOf, PlaysAreOld,
         NextStream, Drafted, Stamped;
  }

  lemma SlotStep(s: HostState, t: HostState, e: Event)
    requires Valid(t) && Enabled(t, e) && SegmentFrom(s, t) && InSegment(Step(t, e))
    ensures var u := Step(t, e);
            && (!u.phase.Taken? && s.scheduled.Some? ==> u.scheduled == s.scheduled)
            && (!u.phase.Taken? && s.scheduled.None? && Awaits(u, Play) ==> HeldSince(s, u.scheduled.value))
            && s.now <= u.now
    ensures PlaysAreOld(s, Step(t, e))
  {
    hide SentContiguously, CommandsGenuine, StreamsLinked, Due, Cutoff, CanSend, InSource, HeldSince, NextStream,
         Sensible, Stamped, Drafted;
    assert t.room.playback == Playing;
    PlaysStep(s, t, e);
  }

  lemma PlaysStep(s: HostState, t: HostState, e: Event)
    requires t.room.playback == Playing && PlaysAreOld(s, t) && s.now <= t.now
    requires Enabled(t, e) && !ExecutesSeek(t, e)
    ensures PlaysAreOld(s, Step(t, e))
  {
    hide SentContiguously, Due, Cutoff, CanSend, InSource, HeldSince, NextStream, Stamped;
    if e.ReadClock? {
      StampedSince(s, t, e.id);
    }
    if !e.Emit? {
      CommandsMove(t, e);
      hide Stamped, Drafted;
    }
  }

  lemma SegmentEnds(s: HostState, t: HostState, e: Event)
    requires Valid(t) && Enabled(t, e) && SegmentFrom(s, t) && InSegment(Step(t, e))
    requires t.phase.Taking? || TakenPlay(t) ==> EndReached(s, t)
    ensures var u := Step(t, e); u.phase.Taking? || TakenPlay(u) ==> EndReached(s, u)
  {
    hide SentContiguously, CommandsGenuine, StreamsLinked, Host.DueAt, Host.CutoffOf, CanSend, PlaysAreOld, NextStream,
         HeldSince, Drafted, Stamped, Sensible;
  }

  lemma AttainsEarlier(s: HostState, b: Command, c: Command, f: nat)
    requires Attains(s, c.action, f) && Later(b, c)
    ensures Attains(s, b.action, f)
  {
    hide Host.DueAt;
  }

  lemma PlayWasAhead(s: HostState, t: HostState)
    requires Valid(s) && s.phase.Streaming? && ReachableIn(s, t, InSegment) && TakenPlay(t)
    ensures PlayAhead(s)
  {
    hide Valid, Host.DueAt, Host.CutoffOf;
    var es :| Feasible(s, es) && Run(s, es) == t && Stays(s, es, InSegment);
    SegmentRemembers(s, es);
    var c := t.phase.command;
    assert Attains(s, c.action, t.frame);
    if s.scheduled.None? {
      var b :| Held(s, b) && Later(b, c);
      AttainsEarlier(s, b, c, t.frame);
      assert Candidate(s, b);
    }
  }

  /** What taking a play then means: the next segment keeps the old start time, so the frame that the
      loop has reached, due at or after the play's effective time, is announced again for the moment when
      the old segment's first frame was due. */
  lemma PlayReplaysStart(s: HostState)
    requires Valid(s) && TakenPlay(s)
    ensures exists t :: && ReachableIn(s, t, Anywhere) && t.phase.Announcing? && t.past == s.past && t.frame == s.frame
                        && t.segmentFrame == s.frame && t.settings == s.settings
                        && Due(t, s.frame) == Due(s, s.segmentFrame)
  {
    hide ReachableIn, SentContiguously, CommandsGenuine, StreamsLinked, PhaseAgrees, Host.DueAt;
    ReachableFromItself(s, Anywhere);
    var time := Max(s.now, Cutoff(s, s.phase.command.action) - s.settings.config.outputLatency * Host.MILLISECOND);
    OneMore(s, s, Tick(time), Anywhere);
    var t := Step(s, Tick(time));
    OneMore(s, t, Execute, Anywhere);
    t := Step(t, Execute);
    OneMore(s, t, Begin, Anywhere);
    t := Step(t, Begin);
    assert Due(t, s.frame) == Due(s, s.segmentFrame);
  }

  // ---- Witness runs ------------------------------------------------------------------------------

  /** An ordinary stream: a supported rate, a length announced truly or not at all, at least four seconds
      of audio, a clock away from its ends. */
  predicate Ordinary(settings: Settings, now: int) {
    && Sensible(settings, now)
    && Supported(settings) && 4 * settings.sampleRate <= settings.totalFrames
    && (settings.announcedFrames == 0 || settings.announcedFrames == settings.totalFrames)
    && Clock.SECOND <= now <= I64_MAX - 30 * Clock.SECOND - settings.config.sendAhead * Host.MILLISECOND
  }

  /** A segment at its first frame with an empty slot. */
  predicate Ready(s: HostState, slack: nat) {
    && s.phase.Streaming? && s.scheduled.None? && s.room.playback == Playing
    && Supported(s.settings) && s.frame == s.segmentFrame
    && s.frame + 4 * s.settings.sampleRate <= s.settings.totalFrames
    && (s.settings.announcedFrames == 0 || s.settings.announcedFrames == s.settings.totalFrames)
    && Clock.SECOND <= s.now <= s.segmentStart + Clock.SECOND
    && Clock.SECOND <= s.segmentStart <= I64_MAX - slack * Clock.SECOND
  }

  lemma FourSeconds(rate: nat)
    requires rate > 0
    ensures Clock.ExactDuration(rate, 4 * rate) == 4 * Clock.SECOND
    ensures Clock.ExactDuration(rate, 0) == 0
  {
    Clock.CeilAtMost(4 * rate * Clock.SECOND, rate, 4 * Clock.SECOND);
    Clock.CeilAtMost(4 * rate * Clock.SECOND, rate, 4 * Clock.SECOND - 1);
    assert 4 * rate * Clock.SECOND == 4 * Clock.SECOND * rate;
    Clock.CeilAtMost(0, rate, 0);
  }

  /** Four seconds into the segment everything effective by then has been met. */
  lemma EnoughAudio(s: HostState, a: Action)
    requires Valid(s) && InSource(s) && Supported(s.settings) && s.frame == s.segmentFrame
    requires s.frame + 4 * s.settings.sampleRate <= s.settings.totalFrames
    requires Clock.SECOND <= s.segmentStart <= I64_MAX - 5 * Clock.SECOND
    requires a.effective <= s.segmentStart + 3 * Clock.SECOND
    ensures Attains(s, a, s.frame + 4 * s.settings.sampleRate)
  {
    hide SentContiguously, CommandsGenuine, StreamsLinked, PhaseAgrees, Clock.ExactDuration;
    FourSeconds(s.settings.sampleRate);
  }

  lemma StartStreaming(s: HostState, t: HostState) returns (u: HostState)
    requires Valid(t) && ReachableIn(s, t, Anywhere) && t.phase.Starting?
    ensures Valid(u) && ReachableIn(s, u, Anywhere)
    ensures u == t.(phase := Streaming(t.room.streamId), segmentFrame := t.frame, number := 0,
                    room := t.room.(playback := Playing))
  {
    hide Valid, ReachableIn;
    StepKeepsValid(t, Begin);
    OneMore(s, t, Begin, Anywhere);
    u := Step(t, Begin);
    StepKeepsValid(u, Announce);
    OneMore(s, u, Announce, Anywhere);
    u := Step(u, Announce);
  }

  lemma InitialReady(settings: Settings, now: int) returns (t: HostState)
    requires Ordinary(settings, now)
    ensures Valid(t) && ReachableIn(Initial(settings, now), t, Anywhere) && Ready(t, 30)
    ensures t.past == [] && t.commands == map[] && t.drafts == map[] && t.room.streamId == settings.firstStream
  {
    var s := Initial(settings, now);
    InitialIsValid(settings, now);
    hide Valid, ReachableIn;
    ReachableFromItself(s, Anywhere);
    t := StartStreaming(s, s);
  }

  /** Two seconds later the loop stops for a command issued now and takes it. */
  lemma StreamAndTake(s: HostState, t: HostState, c: Command) returns (u: HostState)
    requires Valid(t) && ReachableIn(s, t, Anywhere) && t.phase.Streaming? && t.scheduled == Some(c)
    requires Attainable(t, c.action)
    ensures Valid(u) && ReachableIn(s, u, Anywhere)
    ensures u == t.(phase := Phase.Taken(c), frame := u.frame, number := u.number, sent := u.sent, now := u.now,
                    scheduled := None, room := Rooms.Taken(t.room))
    ensures t.now <= u.now <= Max(t.now, Cutoff(t, c.action)) && AtCutoff(u, c.action)
  {
    hide Valid, ReachableIn, Attains, Host.DueAt, Host.CutoffOf, Rooms.Taken;
    var f :| Attains(t, c.action, f);
    u := StreamToCutoff(s, t, c, f, Anywhere);
    StepKeepsValid(u, Take);
    OneMore(s, u, Take, Anywhere);
    u := Step(u, Take);
  }

  lemma IssueNow(s: HostState, t: HostState, id: nat, kind: ActionKind, seekFrame: nat) returns (u: HostState)
    requires Valid(t) && ReachableIn(s, t, Anywhere) && Enabled(t, Issue(id, kind, seekFrame))
    ensures Valid(u) && ReachableIn(s, u, Anywhere)
            && u == t.(commands := t.commands[id := Proposed(t, kind, seekFrame)])
  {
    hide Valid, ReachableIn, Drafted, Stamped;
    StepKeepsValid(t, Issue(id, kind, seekFrame));
    OneMore(s, t, Issue(id, kind, seekFrame), Anywhere);
    u := Step(t, Issue(id, kind, seekFrame));
    StepKeepsValid(u, ReadClock(id));
    OneMore(s, u, ReadClock(id), Anywhere);
    u := Step(u, ReadClock(id));
    assert t.drafts[id := Drafted(t, kind, seekFrame)] - {id} == t.drafts;
  }

  lemma SubmitNow(s: HostState, t: HostState, id: nat) returns (u: HostState)
    requires Valid(t) && ReachableIn(s, t, Anywhere) && id in t.commands && t.scheduled.None?
    ensures Valid(u) && ReachableIn(s, u, Anywhere)
    ensures u == t.(commands := t.commands - {id}, scheduled := Some(t.commands[id]),
                    room := Scheduled(t.room, t.commands[id].action))
  {
    hide Valid, ReachableIn;
    StepKeepsValid(t, Submit(id));
    OneMore(s, t, Submit(id), Anywhere);
    u := Step(t, Submit(id));
  }

  /** The same with a command that nothing interrupts. */
  lemma CommandNow(s: HostState, t: HostState, id: nat, kind: ActionKind, seekFrame: nat) returns (u: HostState)
    requires Valid(t) && ReachableIn(s, t, Anywhere) && Enabled(t, Issue(id, kind, seekFrame)) && t.scheduled.None?
    ensures Valid(u) && ReachableIn(s, u, Anywhere)
    ensures u == t.(scheduled := Some(Proposed(t, kind, seekFrame)),
                    room := Scheduled(t.room, Proposed(t, kind, seekFrame).action))
  {
    hide Valid, ReachableIn, Proposed;
    u := IssueNow(s, t, id, kind, seekFrame);
    u := SubmitNow(s, u, id);
    assert t.commands[id := Proposed(t, kind, seekFrame)] - {id} == t.commands;
  }

  lemma TakeNow(s: HostState, t: HostState, kind: ActionKind, seekFrame: nat) returns (u: HostState)
    requires Valid(t) && ReachableIn(s, t, Anywhere) && Ready(t, 10) && 0 !in t.commands && 0 !in t.drafts
    requires (kind == Pause || kind == Seek) && seekFrame < t.settings.totalFrames
    ensures Valid(u) && ReachableIn(s, u, Anywhere) && u.phase == Phase.Taken(Proposed(t, kind, seekFrame))
    ensures u.settings == t.settings && u.commands == t.commands && u.scheduled.None? && u.past == t.past
    ensures u.drafts == t.drafts
    ensures u.room.streamId == t.room.streamId && u.room.playback == Playing
    ensures t.now <= u.now <= t.now + COMMAND_DELAY
  {
    hide ReachableIn, SentContiguously, CommandsGenuine, StreamsLinked;
    u := CommandNow(s, t, 0, kind, seekFrame);
    EnoughAudio(u, Proposed(t, kind, seekFrame).action);
    assert Cutoff(u, Proposed(t, kind, seekFrame).action) <= t.now + COMMAND_DELAY;
    hide Valid, Attains;
    u := StreamAndTake(s, u, Proposed(t, kind, seekFrame));
  }

  /** A taken seek, waited for and executed, up to the first look of the new segment. */
  lemma SeekNow(s: HostState, t: HostState, c: Command) returns (u: HostState)
    requires Valid(t) && ReachableIn(s, t, Anywhere) && t.phase == Phase.Taken(c) && c.action.kind == Seek
    ensures Valid(u) && ReachableIn(s, u, Anywhere) && u.phase == Streaming(c.action.nextStreamId)
    ensures u.settings == t.settings && u.commands == t.commands && u.scheduled == t.scheduled && u.drafts == t.drafts
    ensures u.frame == u.segmentFrame == c.action.seekFrame == u.base && u.segmentStart == c.action.effective
    ensures |u.past| == |t.past| + 1 && u.past[..|t.past|] == t.past && u.past[|t.past|].stream == t.room.streamId
    ensures u.room.streamId == c.action.nextStreamId && u.past[|t.past|].first == t.base && u.room.playback == Playing
    ensures t.now <= u.now <= Max(t.now, c.action.effective + Clock.SECOND)
  {
    hide ReachableIn, SentContiguously, CommandsGenuine, StreamsLinked;
    assert Host.ConfigAccepted(t.settings.config);
    var time := Max(t.now, Cutoff(t, c.action) - t.settings.config.outputLatency * Host.MILLISECOND);
    hide Valid;
    StepKeepsValid(t, Tick(time));
    OneMore(s, t, Tick(time), Anywhere);
    u := Step(t, Tick(time));
    StepKeepsValid(u, Execute);
    OneMore(s, u, Execute, Anywhere);
    u := Step(u, Execute);
    u := StartStreaming(s, u);
  }

  /** Between taking a pause and marking the room Paused, a second pause is accepted, and the host is
      then stuck for good. */
  lemma SecondPauseSticks(settings: Settings, now: int)
    requires Ordinary(settings, now)
    ensures exists t :: ReachableIn(Initial(settings, now), t, Anywhere) && Stuck(t)
  {
    hide Valid, ReachableIn;
    var s := Initial(settings, now);
    var t := InitialReady(settings, now);
    t := TakeNow(s, t, Pause, 0);
    t := CommandNow(s, t, 1, Pause, 0);
    var time := Max(t.now, Cutoff(t, t.phase.command.action) - t.settings.config.outputLatency * Host.MILLISECOND);
    OneMore(s, t, Tick(time), Anywhere);
    t := Step(t, Tick(time));
    OneMore(s, t, Execute, Anywhere);
    assert Stuck(Step(t, Execute));
  }

  /** In the same window a second seek is given the ID that the first is about to take, so two
      consecutive stretches from different frames share one stream ID. */
  lemma SecondSeekReusesStream(settings: Settings, now: int)
    requires Ordinary(settings, now)
    ensures exists t :: && ReachableIn(Initial(settings, now), t, Anywhere) && |t.past| == 2
                        && StreamAt(t, 1) == StreamAt(t, 2) && t.past[1].first != t.base
  {
    hide Valid, ReachableIn, NextStream, Due, Attains;
    var s := Initial(settings, now);
    var start := InitialReady(settings, now);
    var t := TakeNow(s, start, Seek, 0);
    var first := t.phase.command;
    t := CommandNow(s, t, 1, Seek, 1);
    var second := t.scheduled.value;
    t := SeekNow(s, t, first);
    StreamingInSource(t);
    EnoughAudio(t, second.action);
    t := StreamAndTake(s, t, second);
    t := SeekNow(s, t, second);
    assert StreamAt(t, 1) == StreamAt(t, 2);
  }

  lemma StreamingInSource(t: HostState)
    requires Valid(t) && t.frame == t.segmentFrame <= t.settings.totalFrames
    ensures InSource(t)
  {
    hide SentContiguously, CommandsGenuine, StreamsLinked, PhaseAgrees;
  }

  /** A command that waits through two seeks brings back an older ID: the stretches before and after
      the second of them differ from each other, yet the third seek returns to the first one's ID. */
  lemma OldStreamComesBack(settings: Settings, now: int)
    requires Ordinary(settings, now)
    ensures exists t :: && ReachableIn(Initial(settings, now), t, Anywhere) && |t.past| == 3
                        && StreamAt(t, 1) == StreamAt(t, 3) && StreamAt(t, 1) != StreamAt(t, 2)
  {
    hide Valid, ReachableIn, NextStream, Due, Attains;
    var s := Initial(settings, now);
    var t := InitialReady(settings, now);
    t := IssueNow(s, t, 9, Seek, 1);
    var late := t.commands[9];
    t := TakeNow(s, t, Seek, 0);
    t := SeekNow(s, t, t.phase.command);
    t := TakeNow(s, t, Seek, 0);
    t := SeekNow(s, t, t.phase.command);
    t := SubmitNow(s, t, 9);
    StreamingInSource(t);
    EnoughAudio(t, late.action);
    t := StreamAndTake(s, t, late);
    t := SeekNow(s, t, late);
    NextStreamFits(settings.firstStream);
    NextStreamIs(NextStream(settings.firstStream));
    assert StreamAt(t, 1) == NextStream(settings.firstStream) == StreamAt(t, 3);
    assert StreamAt(t, 2) == NextStream(NextStream(settings.firstStream));
  }

  /** A play scheduled before the room first reads Playing ends the first segment after frames were sent.
      Every resume opens the same window again. */
  lemma StrayPlayHappens(settings: Settings, now: int)
    requires Ordinary(settings, now)
    requires settings.config.sendAhead + settings.config.outputLatency < 2000
    ensures exists t :: && ReachableIn(Initial(settings, now), t, Anywhere) && TakenPlay(t)
                        && t.past == [] && t.segmentFrame < t.frame
  {
    hide Valid, ReachableIn, Attains;
    var s := Initial(settings, now);
    InitialIsValid(settings, now);
    ReachableFromItself(s, Anywhere);
    var t := CommandNow(s, s, 0, Play, 0);
    var play := t.scheduled.value;
    t := StartStreaming(s, t);
    StreamingInSource(t);
    EnoughAudio(t, play.action);
    t := StreamAndTake(s, t, play);
    FourSeconds(settings.sampleRate);
    assert Due(t, t.segmentFrame) < Cutoff(t, play.action);
  }
}
