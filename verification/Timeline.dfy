/** What the command loop of the host promises about time and place, over whole runs: when the packets of a segment
    are due after a resume or a seek, where seeks go, and that no command takes effect early. */
module Timeline {
  import opened Numbers
  import opened HostLoop
  import Clock
  import Host
  import Rooms
  import Wire

  // ---- When packets are due ---------------------------------------------------------

  /** The loop has not left the segment it is about to start. */
  predicate InOneSegment(s: HostState) {
    s.phase.Starting? || s.phase.Announcing? || s.phase.Streaming? || s.phase.Looked?
  }

  function Emissions(es: seq<Event>): nat {
    if es == [] then 0 else Emissions(es[..|es| - 1]) + if es[|es| - 1].Emit? then 1 else 0
  }

  /** `frame` is due at `start`, and `sent` packets have gone out since. */
  ghost predicate PlaysFrom(s: HostState, settings: Settings, stream: nat, start: int, frame: nat, sent: nat) {
    && s.settings == settings && s.segmentStart == start && s.room.streamId == stream
    && frame <= s.frame && (sent == 0 ==> s.frame == frame)
    && (if s.phase.Starting? then sent == 0 else s.segmentFrame == frame && s.number == sent)
    && (s.phase.Announcing? || s.phase.Streaming? || s.phase.Looked? ==> s.phase.stream == stream)
  }

  lemma PlaysFromStep(s: HostState, e: Event, settings: Settings, stream: nat, start: int, frame: nat, sent: nat)
    requires PlaysFrom(s, settings, stream, start, frame, sent) && InOneSegment(s)
    requires Enabled(s, e) && InOneSegment(Step(s, e))
    ensures PlaysFrom(Step(s, e), settings, stream, start, frame, sent + if e.Emit? then 1 else 0)
  {
    hide Due, Cutoff, NextStream, Drafted, Stamped, Executed, Polled, Sought;
  }

  lemma {:induction false} SegmentPlaysFrom(s: HostState, es: seq<Event>)
    requires s.phase.Starting? && Feasible(s, es) && Stays(s, es, InOneSegment)
    ensures PlaysFrom(Run(s, es), s.settings, s.room.streamId, s.segmentStart, s.frame, Emissions(es))
  {
    hide Enabled, Step;
    if es != [] {
      var before := es[..|es| - 1];
      SegmentPlaysFrom(s, before);
      hide PlaysFrom;
      PlaysFromStep(Run(s, before), es[|es| - 1], s.settings, s.room.streamId, s.segmentStart, s.frame,
                    Emissions(before));
    }
  }

  /** `elapsed` nanoseconds is how long `frames` frames play, rounded up. */
  ghost predicate PlayingTime(elapsed: int, frames: int, sampleRate: nat) {
    && frames >= 0
    && elapsed * sampleRate >= frames * 1_000_000_000
    && (elapsed - 1) * sampleRate < frames * 1_000_000_000
    && (frames == 0 ==> elapsed == 0)
  }

  /** A segment that is about to start sends nothing but its own: every packet is stamped by its distance from the
      first frame and numbered by the packets before it. */
  lemma PacketsAreTimed(s: HostState, es: seq<Event>, p: Wire.Packet)
    requires s.phase.Starting? && s.settings.sampleRate > 0 && Feasible(s, es) && Stays(s, es, InOneSegment)
    requires Enabled(Run(s, es), Emit(p))
    ensures PlayingTime(p.timestamp - (s.segmentStart + s.settings.config.outputLatency * 1_000_000),
                        p.startFrame - s.frame, s.settings.sampleRate)
    ensures p.streamId == s.room.streamId
    ensures p.sequenceNumber == Emissions(es) % 0x1_0000_0000 && (Emissions(es) == 0 ==> p.startFrame == s.frame)
  {
    SegmentPlaysFrom(s, es);
    var t := Run(s, es);
    hide Run, Feasible, Stays, Emissions, CarriesSource, ClockHolds, Wire.WellFormed, Cutoff, Clock.ExactDuration,
         PlayingTime;
    ExactIsPlayingTime(s.settings.sampleRate, t.frame - t.segmentFrame);
  }

  lemma ExactIsPlayingTime(sampleRate: nat, frames: nat)
    requires sampleRate > 0
    ensures PlayingTime(Clock.ExactDuration(sampleRate, frames), frames, sampleRate)
  {
    Host.CeilIs(frames * 1_000_000_000, sampleRate, Clock.ExactDuration(sampleRate, frames));
  }

  /** The loop takes a PLAY while paused, or executes a seek while playing. */
  predicate Restarts(s: HostState, e: Event, a: Rooms.Action) {
    || (e.Poll? && s.phase.PauseLoop? && s.scheduled.Some? && a == s.scheduled.value.action && a.kind == Rooms.Play)
    || (e.Execute? && s.phase.Taken? && a == s.phase.command.action && a.kind == Rooms.Seek)
  }

  /** After a resume, and after a seek, the first packet is of the frame that was reached, or sought, and due when the
      action takes effect; all later ones of the segment follow at the sample rate. */
  lemma RestartIsTimed(s: HostState, e: Event, a: Rooms.Action, es: seq<Event>, p: Wire.Packet)
    requires s.settings.sampleRate > 0 && Enabled(s, e) && Restarts(s, e, a)
    requires var t := Step(s, e); Feasible(t, es) && Stays(t, es, InOneSegment) && Enabled(Run(t, es), Emit(p))
    ensures var first := if a.kind == Rooms.Seek then a.seekFrame else s.frame;
            && PlayingTime(p.timestamp - (a.effective + s.settings.config.outputLatency * 1_000_000),
                           p.startFrame - first, s.settings.sampleRate)
            && (Emissions(es) == 0 ==> p.startFrame == first)
    ensures p.streamId == if a.kind == Rooms.Seek then a.nextStreamId else s.room.streamId
    ensures p.sequenceNumber == Emissions(es) % 0x1_0000_0000
  {
    hide Run, Feasible, Stays, Emissions, PlayingTime, Due, Cutoff, CanSend;
    PacketsAreTimed(Step(s, e), es, p);
  }

  // ---- Where seeks go -------------------------------------------------------------------

  /** The frame that stretch `k` is to begin with. */
  function Origin(s: HostState, k: nat): nat
    requires k <= |s.past|
  {
    if k == 0 then 0 else s.past[k - 1].endedBy.action.seekFrame
  }

  /** A seek asks for a frame of the file, if its length is known. */
  predicate InFile(s: HostState, kind: Rooms.ActionKind, frame: nat) {
    kind == Rooms.Seek && s.settings.announcedFrames != 0 ==> frame < s.settings.announcedFrames
  }

  ghost predicate CommandsInFile(s: HostState) {
    && (forall id :: id in s.drafts ==> InFile(s, s.drafts[id].kind, s.drafts[id].seekFrame))
    && (forall id :: id in s.commands ==> ActionInFile(s, s.commands[id].action))
    && (s.scheduled.Some? ==> ActionInFile(s, s.scheduled.value.action))
    && (s.phase.Taken? || s.phase.PausedSeek? ==> ActionInFile(s, s.phase.command.action))
    && (s.phase.PausedSeek? ==> s.phase.command.action.kind == Rooms.Seek)
  }

  predicate ActionInFile(s: HostState, a: Rooms.Action) {
    InFile(s, a.kind, a.seekFrame)
  }

  ghost predicate FollowsSeek(s: HostState, k: nat)
    requires k < |s.past|
  {
    && s.past[k].first == Origin(s, k)
    && s.past[k].endedBy.action.kind == Rooms.Seek && ActionInFile(s, s.past[k].endedBy.action)
  }

  ghost predicate StretchesFollowSeeks(s: HostState) {
    s.base == Origin(s, |s.past|) && forall k :: 0 <= k < |s.past| ==> FollowsSeek(s, k)
  }

  lemma CommandsStayInFile(s: HostState, e: Event)
    requires CommandsInFile(s) && Enabled(s, e)
    ensures CommandsInFile(Step(s, e))
  {
    hide Due, Cutoff, CanSend, NextStream, Rooms.Taken, Rooms.Scheduled;
  }

  lemma SeekIsFollowed(s: HostState, c: Command, phase: Phase, segmentStart: int)
    requires StretchesFollowSeeks(s) && c.action.kind == Rooms.Seek && ActionInFile(s, c.action)
    ensures StretchesFollowSeeks(Sought(s, c, phase, segmentStart))
  {
    var t := Sought(s, c, phase, segmentStart);
    forall k | 0 <= k < |t.past|
      ensures FollowsSeek(t, k)
    {
      if k < |s.past| {
        assert FollowsSeek(s, k) && t.past[k] == s.past[k] && Origin(t, k) == Origin(s, k);
      }
    }
  }

  lemma FollowedStep(s: HostState, e: Event)
    requires Valid(s) && Enabled(s, e) && CommandsInFile(s) && StretchesFollowSeeks(s)
    ensures StretchesFollowSeeks(Step(s, e))
  {
    if ExecutesSeek(s, e) {
      SeekIsFollowed(s, s.phase.command, if e.Execute? then Starting else PauseLoop,
                     if e.Execute? then s.phase.command.action.effective else s.segmentStart);
    } else {
      OnlySeeksMoveTheStream(s, e);
      hide Step, Enabled, Valid;
      assert forall k :: 0 <= k < |s.past| ==> FollowsSeek(s, k) ==> FollowsSeek(Step(s, e), k);
    }
  }

  lemma {:induction false} RunFollows(s: HostState, es: seq<Event>)
    requires Valid(s) && CommandsInFile(s) && StretchesFollowSeeks(s) && Feasible(s, es)
    ensures CommandsInFile(Run(s, es)) && StretchesFollowSeeks(Run(s, es))
  {
    hide Valid, Enabled, Step, CommandsInFile, StretchesFollowSeeks;
    if es != [] {
      var before := es[..|es| - 1];
      RunFollows(s, before);
      RunKeepsValid(s, before);
      CommandsStayInFile(Run(s, before), es[|es| - 1]);
      FollowedStep(Run(s, before), es[|es| - 1]);
    }
  }

  /** In every run the host begins with frame 0, ends a stretch only by a seek, goes on from the frame sought, and
      never seeks beyond a file whose length it knows. */
  lemma SeeksGoWhereAsked(settings: Settings, now: int, es: seq<Event>, k: nat)
    requires Sensible(settings, now) && Feasible(Initial(settings, now), es)
    requires k < |Run(Initial(settings, now), es).past|
    ensures var s := Run(Initial(settings, now), es);
            && (if k == 0 then s.past[0].first == 0 else s.past[k].first == s.past[k - 1].endedBy.action.seekFrame)
            && (if k + 1 < |s.past| then s.past[k + 1].first else s.base) == s.past[k].endedBy.action.seekFrame
            && s.past[k].endedBy.action.kind == Rooms.Seek
            && (settings.announcedFrames != 0 ==> s.past[k].endedBy.action.seekFrame < settings.announcedFrames)
  {
    hide Run, Feasible, Sensible, Valid, Host.ConfigAccepted;
    InitialIsValid(settings, now);
    RunFollows(Initial(settings, now), es);
    RunKeepsSettings(Initial(settings, now), es);
    hide Initial, CommandsInFile;
    var s := Run(Initial(settings, now), es);
    assert FollowsSeek(s, k) && (k + 1 < |s.past| ==> FollowsSeek(s, k + 1));
  }

  lemma {:induction false} RunKeepsSettings(s: HostState, es: seq<Event>)
    requires Feasible(s, es)
    ensures Run(s, es).settings == s.settings && Run(s, es).now >= s.now
  {
    hide Enabled, Step;
    if es != [] {
      RunKeepsSettings(s, es[..|es| - 1]);
      StepKeepsSettings(Run(s, es[..|es| - 1]), es[|es| - 1]);
    }
  }

  lemma StepKeepsSettings(s: HostState, e: Event)
    requires Enabled(s, e)
    ensures Step(s, e).settings == s.settings && Step(s, e).now >= s.now
  {
    hide Due, Cutoff, CanSend, NextStream, Stamped, Drafted;
  }

  // ---- Nothing takes effect early ----------------------------------------------------------

  /** No command that is still to take effect does so before `time`. */
  ghost predicate NoneBefore(s: HostState, time: int) {
    && (forall id :: id in s.commands ==> time <= s.commands[id].action.effective)
    && (s.scheduled.Some? ==> time <= s.scheduled.value.action.effective)
    && (s.phase.Taken? || s.phase.PausedSeek? ==> time <= s.phase.command.action.effective)
  }

  lemma NoneBeforeStep(s: HostState, e: Event, time: int)
    requires NoneBefore(s, time) && Enabled(s, e) && time <= s.now + 2_000_000_000
    ensures NoneBefore(Step(s, e), time)
  {
    hide Due, Cutoff, CanSend, NextStream;
  }

  lemma {:induction false} NoneBeforeRun(s: HostState, es: seq<Event>, time: int)
    requires NoneBefore(s, time) && Feasible(s, es) && time <= s.now + 2_000_000_000
    ensures NoneBefore(Run(s, es), time)
  {
    hide Enabled, Step, NoneBefore;
    if es != [] {
      var before := es[..|es| - 1];
      NoneBeforeRun(s, before, time);
      RunKeepsSettings(s, before);
      NoneBeforeStep(Run(s, before), es[|es| - 1], time);
    }
  }

  /** Nobody has a command on the way that has read the clock. */
  predicate Quiet(s: HostState) {
    s.commands == map[] && s.scheduled.None? && !s.phase.Taken? && !s.phase.PausedSeek?
  }

  /** With no command on the way, none is executed for two seconds, less the output latency and, for a seek while
      playing, one send-ahead. */
  lemma TwoSecondsAhead(s: HostState, es: seq<Event>, e: Event)
    requires Quiet(s) && Feasible(s, es) && Enabled(Run(s, es), e) && (e.Execute? || e.FinishPausedSeek?)
    ensures var t := Run(s, es);
            t.now >= s.now + 2_000_000_000
                     - (if e.Execute? then s.settings.config.outputLatency * 1_000_000 else 0)
                     - (if e.Execute? && t.phase.command.action.kind == Rooms.Seek
                        then s.settings.config.sendAhead * 1_000_000 else 0)
  {
    NoneBeforeRun(s, es, s.now + 2_000_000_000);
    RunKeepsSettings(s, es);
    hide Run, Feasible;
  }

  // ---- Stopping, and seeking while paused -------------------------------------------------------

  /** The loop executes a STOP, takes one while paused, or finds the source at its end. */
  predicate Stops(s: HostState, e: Event) {
    || e.Exhaust?
    || (e.Execute? && s.phase.Taken? && s.phase.command.action.kind == Rooms.Stop)
    || (e.Poll? && s.phase.PauseLoop? && s.scheduled.Some? && s.scheduled.value.action.kind == Rooms.Stop)
  }

  ghost predicate AtTheEnd(s: HostState, t: HostState) {
    && t.sent == s.sent && t.past == s.past && t.frame == s.frame && t.room.streamId == s.room.streamId
    && (t.phase.Finishing? || (t.phase.Finished? && t.room.playback == Rooms.Stopped))
  }

  lemma AtTheEndStep(s: HostState, t: HostState, e: Event)
    requires AtTheEnd(s, t) && Enabled(t, e)
    ensures AtTheEnd(s, Step(t, e)) && (e.Finish? ==> Step(t, e).phase.Finished?)
  {
    hide Due, Cutoff, CanSend, NextStream, Drafted, Stamped;
  }

  /** After that nothing is sent and nothing sought, whatever is commanded, and the room ends up stopped. */
  lemma {:induction false} StopIsFinal(s: HostState, e: Event, es: seq<Event>)
    requires Enabled(s, e) && Stops(s, e) && Feasible(Step(s, e), es)
    ensures var t := Run(Step(s, e), es);
            AtTheEnd(s, t) && (es != [] && es[|es| - 1].Finish? ==> t.phase.Finished?)
  {
    if es != [] {
      hide Enabled, Step, AtTheEnd, Stops;
      var before := es[..|es| - 1];
      StopIsFinal(s, e, before);
      AtTheEndStep(s, Run(Step(s, e), before), es[|es| - 1]);
    } else {
      hide Due, Cutoff, CanSend;
    }
  }

  /** The seek waits, and nothing else happens to what has been sent. */
  ghost predicate AwaitsSeek(s: HostState, t: HostState, c: Command) {
    && t.phase == PausedSeek(c) && t.sent == s.sent && t.past == s.past && t.frame == s.frame && t.base == s.base
    && t.room.streamId == s.room.streamId && t.room.playback == s.room.playback && t.segmentStart == s.segmentStart
  }

  lemma AwaitsSeekStep(s: HostState, t: HostState, c: Command, e: Event)
    requires AwaitsSeek(s, t, c) && Enabled(t, e) && !e.FinishPausedSeek?
    ensures AwaitsSeek(s, Step(t, e), c)
  {
    hide Due, Cutoff, CanSend, NextStream, Drafted, Stamped;
  }

  lemma {:induction false} SeekIsAwaited(s: HostState, es: seq<Event>)
    requires s.phase.PauseLoop? && s.scheduled.Some? && s.scheduled.value.action.kind == Rooms.Seek
    requires Feasible(Step(s, Poll), es) && forall e :: e in es ==> !e.FinishPausedSeek?
    ensures AwaitsSeek(s, Run(Step(s, Poll), es), s.scheduled.value)
  {
    if es != [] {
      hide Enabled, Step, AwaitsSeek;
      var before := es[..|es| - 1];
      SeekIsAwaited(s, before);
      AwaitsSeekStep(s, Run(Step(s, Poll), before), s.scheduled.value, es[|es| - 1]);
    }
  }

  /** A seek taken while paused waits for its time, during which nothing is sent, and then moves the frame, the stream
      and the next stretch to where it asks, without resuming. */
  lemma PausedSeekGoesThrough(s: HostState, es: seq<Event>)
    requires s.phase.PauseLoop? && s.scheduled.Some? && s.scheduled.value.action.kind == Rooms.Seek
    requires Feasible(Step(s, Poll), es) && forall e :: e in es ==> !e.FinishPausedSeek?
    ensures var c, t := s.scheduled.value, Run(Step(s, Poll), es);
            && (Enabled(t, FinishPausedSeek) <==> t.now >= c.action.effective)
            && (t.now >= c.action.effective ==>
                  var u := Step(t, FinishPausedSeek);
                  && u.phase.PauseLoop? && u.frame == u.base == c.action.seekFrame && u.sent == []
                  && u.room.streamId == c.action.nextStreamId && u.room.playback == s.room.playback
                  && u.past == s.past + [Stretch(s.room.streamId, s.base, s.frame, s.sent, c)])
  {
    SeekIsAwaited(s, es);
    hide Run, Feasible;
  }

  // ---- How a segment ends --------------------------------------------------------------------

  /** What a segment sends is sent at most one send-ahead early, and after it has seen an action only frames that are
      due before it takes effect, which for a seek is one send-ahead before its time. */
  lemma SentInTime(s: HostState, p: Wire.Packet, f: nat)
    requires Enabled(s, Emit(p)) && p.startFrame as nat <= f < p.startFrame as nat + p.frameCount as nat
    ensures p.timestamp - s.settings.config.sendAhead * 1_000_000 <= s.now
    ensures s.phase.seen.Some? ==>
              var a := s.phase.seen.value;
              Due(s, f) + (if a.kind == Rooms.Seek then s.settings.config.sendAhead * 1_000_000 else 0) < a.effective
  {
    HostLoop.DueGrows(s, f, Host.EndOf(p) - 1);
    hide Due, CarriesSource, ClockHolds;
  }

  /** After each look the segment either can go on, or ends by the action seen, or ends with the source: by the action
      if and only if the next frame is due when it takes effect or later, with the source only if no frame is left. */
  lemma OneWayOut(s: HostState, p: Wire.Packet)
    requires s.phase.Looked? && InSource(s) && Due(s, s.frame) <= 0x7FFF_FFFF_FFFF_FFFF
    ensures Enabled(s, SeeCommand) <==>
            && s.phase.seen.Some?
            && var a := s.phase.seen.value;
               Due(s, s.frame) + (if a.kind == Rooms.Seek then s.settings.config.sendAhead * 1_000_000 else 0)
               >= a.effective
    ensures Enabled(s, Exhaust) <==> s.frame == s.settings.totalFrames && !Enabled(s, SeeCommand)
    ensures Enabled(s, Emit(p)) ==> !Enabled(s, SeeCommand) && !Enabled(s, Exhaust)
  {
    if Enabled(s, Emit(p)) {
      HostLoop.DueGrows(s, s.frame, Host.EndOf(p) - 1);
    }
    hide Due, CarriesSource, ClockHolds;
  }
}
