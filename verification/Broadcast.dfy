/** From the host's command loop to the client: the stretches that a run of `HostLoop.dfy` sends, under any
    commands and scheduling, are stretches of one source in the sense of `EndToEnd.dfy`. */
module Broadcast {
  import opened Numbers
  import opened HostLoop
  import Clock
  import EndToEnd
  import Host
  import Pcm
  import Playback
  import ReceivePath
  import Wire

  /** The segment that sends a packet of this state. */
  ghost function SegmentAt(s: HostState): Host.Segment
    requires Valid(s) && s.phase.Looked? && InSource(s) && ClockHolds(s)
  {
    SegmentFits(s);
    Host.Segment(s.settings.config.(streamId := s.phase.stream), s.settings.source, s.settings.sampleRate,
                 s.settings.channels, s.segmentStart, s.segmentFrame)
  }

  lemma SegmentFits(s: HostState)
    requires Valid(s) && s.phase.Looked? && InSource(s)
    ensures 0 < s.phase.stream < U32_LIMIT && 0 < s.settings.sampleRate < U32_LIMIT && s.segmentFrame < U64_LIMIT
    ensures HasSource(s.settings) && s.settings.totalFrames < U64_LIMIT && Host.ConfigAccepted(s.settings.config)
  {
    hide SentContiguously, CommandsGenuine, StreamsLinked;
  }

  lemma SegmentIsPlayable(s: HostState)
    requires Valid(s) && s.phase.Looked? && InSource(s) && ClockHolds(s)
    ensures Host.Playable(SegmentAt(s)) && SegmentAt(s).sampleRate != 0
    ensures Host.Total(SegmentAt(s)) == s.settings.totalFrames
  {
    SegmentFits(s);
    hide Valid;
    WholeFrames(s.settings.totalFrames, s.settings.channels);
    RemainderIs(s.settings.totalFrames * s.settings.channels, s.settings.totalFrames, 0, s.settings.channels);
  }

  /** Every packet that the loop can send is one that its segment sends faithfully. */
  lemma EmittedIsFaithful(s: HostState, p: Wire.Packet)
    requires Valid(s) && Enabled(s, Emit(p))
    ensures Host.Playable(SegmentAt(s)) && SegmentAt(s).sampleRate != 0 && Host.Faithful(SegmentAt(s), p)
    ensures p.sequenceNumber == s.number % U32_LIMIT
  {
    SegmentIsPlayable(s);
    hide Valid, Host.Playable, Host.Total, Wire.WellFormed, Host.DueAt, Pcm.Decoded;
    var g := SegmentAt(s);
    Host.SliceFits(g, p.startFrame, p.frameCount);
    assert p.frameCount > 0 by { SizeIsPositive(p); }
  }

  lemma SizeIsPositive(p: Wire.Packet)
    requires Wire.WellFormed(p)
    ensures p.frameCount > 0
  {
  }

  /** What a run has sent, packet by packet with its segment. */
  ghost function Transmissions(s: HostState, es: seq<Event>): seq<EndToEnd.Transmission>
    requires Valid(s) && Feasible(s, es)
  {
    if es == [] then []
    else
      var before, e := es[..|es| - 1], es[|es| - 1];
      RunKeepsValid(s, before);
      Transmissions(s, before)
      + (if e.Emit? then [EndToEnd.Transmission(SegmentAt(Run(s, before)), [e.packet])] else [])
  }

  ghost function Source(settings: Settings): EndToEnd.Programme
    requires settings.sampleRate < U32_LIMIT && settings.channels < U16_LIMIT
  {
    EndToEnd.Programme(settings.source, settings.sampleRate, settings.channels, settings.config.sessionId)
  }

  lemma SourceFits(s: HostState)
    requires Valid(s)
    ensures s.settings.sampleRate < U32_LIMIT && s.settings.channels < U16_LIMIT
  {
    hide SentContiguously, CommandsGenuine, StreamsLinked, PhaseAgrees;
  }

  lemma {:induction false} SettingsStay(s: HostState, es: seq<Event>)
    requires Valid(s) && Feasible(s, es)
    ensures Run(s, es).settings == s.settings
  {
    if es != [] {
      SettingsStay(s, es[..|es| - 1]);
      StepKeepsSettings(Run(s, es[..|es| - 1]), es[|es| - 1]);
    }
  }

  lemma StepKeepsSettings(s: HostState, e: Event)
    requires Enabled(s, e)
    ensures Step(s, e).settings == s.settings
  {
    hide Due, Cutoff, CanSend, InSource, Permitted;
  }

  lemma {:induction false} RunIsHostRun(s: HostState, es: seq<Event>)
    requires Valid(s) && Feasible(s, es) && s.settings.sampleRate < U32_LIMIT && s.settings.channels < U16_LIMIT
    ensures EndToEnd.IsHostRun(Source(s.settings), Transmissions(s, es))
  {
    hide Valid, Host.Playable, Host.Faithful, Enabled, Step;
    if es != [] {
      var before, e := es[..|es| - 1], es[|es| - 1];
      RunIsHostRun(s, before);
      RunKeepsValid(s, before);
      SettingsStay(s, before);
      if e.Emit? {
        EmittedIsFaithful(Run(s, before), e.packet);
      }
    }
  }

  ghost predicate AllSent(s: HostState, ts: seq<EndToEnd.Transmission>) {
    && (forall p :: p in s.sent ==> EndToEnd.Sent(ts, p))
    && forall r, p :: r in s.past && p in r.packets ==> EndToEnd.Sent(ts, p)
  }

  lemma MoreSent(ts: seq<EndToEnd.Transmission>, t: EndToEnd.Transmission, p: Wire.Packet)
    requires EndToEnd.Sent(ts, p) || p in t.packets
    ensures EndToEnd.Sent(ts + [t], p)
  {
    if EndToEnd.Sent(ts, p) {
      var x :| x in ts && p in x.packets;
      assert x in ts + [t];
    } else {
      assert t in ts + [t];
    }
  }

  lemma {:induction false} RunAllSent(s: HostState, es: seq<Event>)
    requires Valid(s) && Feasible(s, es) && s.sent == [] && s.past == []
    ensures AllSent(Run(s, es), Transmissions(s, es))
  {
    hide Valid, EndToEnd.Sent;
    if es != [] {
      var before, e := es[..|es| - 1], es[|es| - 1];
      RunAllSent(s, before);
      RunKeepsValid(s, before);
      SentStep(Run(s, before), e, Transmissions(s, before), Transmissions(s, es));
    }
  }

  lemma SentStep(s: HostState, e: Event, ts: seq<EndToEnd.Transmission>, us: seq<EndToEnd.Transmission>)
    requires Valid(s) && Enabled(s, e) && AllSent(s, ts)
    requires if e.Emit? then us == ts + [EndToEnd.Transmission(SegmentAt(s), [e.packet])] else us == ts
    ensures AllSent(Step(s, e), us)
  {
    hide Valid, Due, Cutoff, CanSend, InSource, Permitted, EndToEnd.Sent, Stamped, Drafted;
    if e.Emit? {
      var t := us[|us| - 1];
      forall p | EndToEnd.Sent(ts, p) || p in t.packets
        ensures EndToEnd.Sent(us, p)
      {
        MoreSent(ts, t, p);
      }
    }
  }

  /** Whatever the commands and their timing: what the loop sends between two executed seeks is a stretch of
      one host run of the source. */
  lemma StretchesAreOfTheSource(settings: Settings, now: int, es: seq<Event>, stream: u32, first: nat, last: nat,
                                ps: seq<Wire.Packet>)
    requires Sensible(settings, now) && Feasible(Initial(settings, now), es)
    requires var s := Run(Initial(settings, now), es);
             IsCurrent(s, stream, first, last, ps) || IsPast(s, stream, first, last, ps)
    ensures Valid(Initial(settings, now)) && settings.sampleRate < U32_LIMIT && settings.channels < U16_LIMIT
    ensures var ts := Transmissions(Initial(settings, now), es);
            && EndToEnd.IsHostRun(Source(settings), ts)
            && EndToEnd.IsStretch(Source(settings), ts, stream, ps, first, last)
  {
    var s := Initial(settings, now);
    InitialIsValid(settings, now);
    SourceFits(s);
    hide Valid, Host.Tiles, EndToEnd.IsHostRun, Transmissions, EndToEnd.Sent, Sensible;
    RunKeepsValid(s, es);
    RunIsHostRun(s, es);
    RunAllSent(s, es);
    StretchIsContiguous(Run(s, es), stream, first, last, ps);
    PacketsAreSent(Run(s, es), Transmissions(s, es), stream, first, last, ps);
  }

  lemma PacketsAreSent(s: HostState, ts: seq<EndToEnd.Transmission>, stream: nat, first: nat, last: nat,
                       ps: seq<Wire.Packet>)
    requires AllSent(s, ts) && (IsCurrent(s, stream, first, last, ps) || IsPast(s, stream, first, last, ps))
    ensures forall p :: p in ps ==> EndToEnd.Sent(ts, p)
  {
    hide EndToEnd.Sent;
    if IsPast(s, stream, first, last, ps) {
      var k :| 0 <= k < |s.past| && IsStretch(s.past[k], stream, first, last, ps);
      assert s.past[k] in s.past;
    }
  }

  /** From the command loop to the callback: in any run of the host and any interleaving on the client that
      leaves room, a frame still to be read is the source's own if and only if a packet of the stretch that
      holds it has arrived, and silence otherwise. */
  lemma ListenersHearTheSource(settings: Settings, now: int, hs: seq<Event>, stream: u32, first: nat, last: nat,
                               ps: seq<Wire.Packet>, s: ReceivePath.System, es: seq<ReceivePath.Event>, frame: nat,
                               channel: nat)
    requires Sensible(settings, now) && Feasible(Initial(settings, now), hs)
    requires var h := Run(Initial(settings, now), hs);
             IsCurrent(h, stream, first, last, ps) || IsPast(h, stream, first, last, ps)
    requires Playback.Joined(s) && ReceivePath.Feasible(s, es) && (forall e :: e in es && e.Arrive? ==> e.packet in ps)
    requires Playback.Roomy(s, [], es) && ReceivePath.NextFrame(ReceivePath.Run(s, es)) <= frame
    requires channel < settings.channels
    ensures settings.sampleRate < U32_LIMIT && settings.channels < U16_LIMIT
    ensures EndToEnd.ReadsAs(Source(settings), ReceivePath.Run(s, es).buffer.packets, frame, channel,
                             EndToEnd.Delivered(Playback.Arrived(es), frame))
  {
    hide Valid, Sensible, Feasible, Run, Playback.Roomy, ReceivePath.Run, ReceivePath.Feasible, EndToEnd.IsHostRun,
         EndToEnd.IsStretch;
    StretchesAreOfTheSource(settings, now, hs, stream, first, last, ps);
    Playback.FramesInTimeAreTheSource(Source(settings), Transmissions(Initial(settings, now), hs), stream, ps, first,
                                      last, s, es, frame, channel);
  }
}
