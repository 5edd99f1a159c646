# A verified model of the synchronised audio pipeline

A host plays an audio file and streams it over UDP to any number of clients that play it in step.
This project models the pipeline in Dafny and proves what its parts promise together: the host cuts
a PCM source into timestamped packets, a network loses, repeats and reorders them, the desktop and
iOS clients rebuild the frame timeline, estimate the host's clock and resample to follow it, and a
control channel lets members join a room and lets the host's user pause, resume, seek and stop.

`dafny verify dfyconfig.toml` checks everything. One file per component:

| file | component |
|---|---|
| `Wire.dfy`, `Pcm.dfy` | the SAUD datagram in C++ and Swift, and the sample encoding |
| `JitterBuffer.dfy`, `ArrivalOrder.dfy` | the bounded packet map, the frame reader, and why arrival order leaves no trace |
| `Player.dfy`, `ReceivePath.dfy` | the resampling audio callback, and its interleaving with the receiver thread |
| `Ring.dfy` | the ring between the host's decoder thread and audio callback, step by step |
| `Drift.dfy`, `Clock.dfy`, `ClockSync.dfy`, `ClockWire.dfy` | the drift estimator, frame and time conversion, the four-timestamp exchange and its message |
| `Host.dfy`, `HostLoop.dfy`, `Timeline.dfy`, `Rooms.dfy` | packetisation, the command loop against control threads, when its packets are due and where its seeks go, room membership |
| `Loss.dfy`, `HostLoss.dfy`, `SwiftLoss.dfy`, `SwiftQueue.dfy`, `Generation.dfy` | loss accounting on both clients, the Swift playback queue and its buffer generations |
| `EndToEnd.dfy`, `Playback.dfy`, `Broadcast.dfy` | from the host's source and its command loop to the samples that the desktop client plays |
| `SwiftEndToEnd.dfy`, `SwiftPlayback.dfy` | the same for the iOS client |

## How it is modelled

Classes and in-place loops of the program are Dafny classes and methods over fields and arrays. Each
method is proved to compute a step function on values, and the results about runs are lemmas about
that function. Where threads share state, each atomic access is a step of a state machine and the
lemmas quantify over every interleaving. Exceptions are `Err` results. Fixed-width arithmetic is
written out wherever it can wrap. `double`, `long double` and Swift's `Double` are exact reals. Clocks,
sockets, decoders and players are parameters: arbitrary pending actions and short reads at every
iteration, arbitrary delivered datagrams, arbitrary outcomes of a try-lock, arbitrary completions.

Some plausible statements are false of the code. For these the model keeps the code's behaviour, gives
a run or an input that shows the failure, and proves the exact condition under which the statement
holds:

- End-reached does not imply that everything was played (`Ring.EndHidesFrames`,
  `Ring.MissTail`, `Ring.EndsCompleteIff`).
- A second PAUSE can leave the host in its pause loop for good (`HostLoop.SecondPauseSticks`,
  `HostLoop.StuckForever`, `HostLoop.PauseSticksIff`).
- Seeks do not always rotate the stream ID, and an old ID can come back
  (`HostLoop.SecondSeekReusesStream`, `HostLoop.OldStreamComesBack`, `HostLoop.StreamIdsDistinctIff`,
  `HostLoop.SeekRotatesIff`).
- A PLAY scheduled before the room reads Playing restarts the clock of a running segment
  (`HostLoop.StrayPlayHappens`, `HostLoop.PlayReplaysStart`, `HostLoop.PlayEndsSegmentIff`).
- The reported round trip does not bound the clock error (`ClockSync.SlowMajority`,
  `ClockSync.ReportedRoundTripBoundsIff`, `ClockWire.SwiftReportedRoundTripBoundsIff`); the exact bound
  is half the second-lowest (`ClockSync.SecondLowestIsTight`, `ClockWire.SwiftSecondLowestIsTight`).
- Overlapping packets can break the copied count, hide expired packets and stall the Swift queue
  (`JitterBuffers.OverlapCountsTwice`, `JitterBuffers.CopiedCountsFramesIff`,
  `JitterBuffers.PruneLeavesHiddenExpired`, `JitterBuffers.PruneExactIff`,
  `SwiftQueue.OverlapStalls`, `SwiftQueue.DrainsIffDisjoint`); the host's own packets never overlap
  (`HostLoop.FramesAreSentOnceBetweenSeeks`).
- A resume restarts the sequence numbers under the same stream ID, so the Swift client drops packets
  whose numbers it has just seen (`SwiftEndToEnd.ResumedFirstIsNotQueued`,
  `SwiftEndToEnd.ResumeAdmitsAllIff`, `SwiftEndToEnd.ResumeQueuesAllIff`); after 4096 further numbers it
  lets them through again (`SwiftEndToEnd.WindowForgets`). For the same reason the C++ client's loss
  counter is not always what the host lost (`HostLoss.CounterIsHostLossIff`).
- The two clients' loss counters do not always agree (`SwiftLoss.ClientsDisagree`,
  `SwiftLoss.ClientsAgreeOnLossIff`).
- A packet from a gap wider than 100,000 stays counted as lost (`Loss.WideGapStaysCounted`,
  `Loss.LostCount`).
- Frames do not round-trip through timestamps above 10^9 frames per second
  (`Clock.RoundTripIffAtMostOnePerNanosecond`), and a negative start time can throw early
  (`Clock.NegativeStartThrowsEarly`).

## Model

| member | source | states |
|---|---|---|
| EndToEnd.EveryReadIsSourceOrSilence | desktop/src/DesktopAudioClient.cpp:111-150 | For any number of host segments (pauses, resumes, seeks), any drop, repetition and reordering, and any interleaving of arrivals with reads: each sample a read returns is the source's own sample at that absolute frame and channel if a held packet covers the frame, and zero otherwise |
| EndToEnd.CallbackHearsSource | desktop/src/DesktopAudioClient.cpp:303-318 | A sample that the callback puts out at a position lies between two neighbours, each the source's own sample or silence, as far from the first as the position is past it, to the nearest integer, and is the first at a whole position; after any host run, network and interleaving |
| EndToEnd.DeliveredFramesAreTheSource | desktop/src/DesktopAudioClient.cpp:111-150 | For any delivery of one stretch of at most 1024 packets, a frame reads as the source's own when a packet holding it arrived, and as silence otherwise |
| EndToEnd.FullDeliveryIsBitExact | desktop/src/DesktopAudioClient.cpp:111-150 | If every packet of the stretch arrives at least once, in any order, one read over the stretch returns the source slice bit for bit |
| EndToEnd.RunKeeps | desktop/src/DesktopAudioClient.cpp:118-137 | Every arrival and read keeps the receiver's invariant: only packets of the host's session are held, each with the source's samples at its own frames |
| EndToEnd.SentCarries | desktop/src/DesktopNetworkHost.cpp:232-252 | Every packet of a host run is accepted by the wire format and decodes to the source's samples at its frames |
| EndToEnd.SourceOrSilence | core/src/JitterBuffer.cpp:129-156 | A buffer of source packets reads as the source where a packet covers the frame and as silence elsewhere |
| EndToEnd.PacketReceiverWorker.ReceiveDatagram | desktop/src/DesktopAudioClient.cpp:114-144 | One pass of the receive loop: undecodable bytes, other sessions and other streams change nothing; without an expected session the first packet fixes session and stream; otherwise loss statistics, buffer and received count move together |
| EndToEnd.PacketReceiverWorker.Run | desktop/src/DesktopAudioClient.cpp:111-150 | The receive loop over any list of datagrams is the fold of that step |
| EndToEnd.ReceiveChanges | desktop/src/DesktopAudioClient.cpp:114-144 | Of the receive loop's step: a datagram that does not parse, or of another session or stream, changes nothing; any other fixes session and stream, counts in the loss statistics, is offered to the buffer and is received if the buffer takes it |
| EndToEnd.ReadExpires | core/src/JitterBuffer.cpp:113-126 | A read changes nothing but the expiry mark, and, if it is served, expires exactly the packets that its window has passed, but for the two frames kept for interpolation |
| EndToEnd.RunOfDatagrams | desktop/src/DesktopAudioClient.cpp:111-150 | A run of datagrams without reads between them is the receive loop over their list |
| Host.StreamFile | desktop/src/DesktopNetworkHost.cpp:120-286 | Either the segment cannot be opened and nothing is sent, or: packets tile [initialFrame, lastFrame), sequence numbers count from 0 modulo 2^32, every packet is due at its exact time, carries the source's own samples and is valid on the wire; and the reason for stopping holds (source exhausted only at its end, command only at or after the cutoff, rejection only for an unsupported format) |
| Host.SendPackets | desktop/src/DesktopNetworkHost.cpp:198-269 | The sending loop terminates and establishes all of the above for every schedule of pending actions, decoder short reads and route changes |
| Host.PacketsAreFull | desktop/src/DesktopNetworkHost.cpp:202-220 | Every packet has exactly the packet length, unless the source ends, the decoder gives less, or the pending action takes effect before one more frame has been played; and but for a single frame that starts in time its last frame has been played by then |
| Host.StopsWhenActionTakesEffect | desktop/src/DesktopNetworkHost.cpp:205-213 | With the action visible at the last cut, frame f was sent if and only if it is due before the action takes effect: a seek one send-ahead early, everything else when it is due |
| Host.BuildPacket | desktop/src/DesktopNetworkHost.cpp:232-252 | A built packet is faithful to the source slice, and `serialize` rejects it only in an unsupported format |
| Host.SupportedIsAccepted | desktop/src/DesktopNetworkHost.cpp:136-151 | In a supported format (8000 to 192000 Hz, one or two channels) the packet length chosen keeps every packet within the MTU-safe payload limit, so it is well formed |
| Host.PacketLengthIsTight | desktop/src/DesktopNetworkHost.cpp:136-147 | The packet length fits the payload limit, covers the desired duration unless one more frame would not fit, and is never a whole frame longer than the duration needs |
| Host.NothingAtOrAfterCutoff | desktop/src/DesktopNetworkHost.cpp:205-219 | Once the loop has seen an action, every frame it still sends is due strictly before the cutoff |
| Host.StopsExactlyAtCutoff | desktop/src/DesktopNetworkHost.cpp:205-219 | A segment ended by an action that was visible when its last packet was cut has sent precisely the frames due before the cutoff: frame f was sent if and only if it is due before it |
| Host.EveryFrameSentOnce | desktop/src/DesktopNetworkHost.cpp:193-264 | A frame is in the segment's range if and only if some packet holds it, and no two packets hold the same frame |
| Host.TilesJoin | desktop/src/DesktopNetworkHost.cpp:264-269 | Segments that resume where the last one ended tile the joined range |
| Host.RequestIsBeforeCutoff | desktop/src/DesktopNetworkHost.cpp:214-219 | The rounded-down frame request, never less than one, never reaches a frame due at or after the cutoff |
| Host.DueGrows | desktop/src/DesktopNetworkHost.cpp:201 | Later frames are never due earlier |
| Host.TimestampOf | desktop/src/DesktopNetworkHost.cpp:191-201 | The presentation timestamp is the exact ceiling of the frame offset after the start (nothing accumulates), or the clock throws because it is not representable |
| Host.TimestampsAreExact | desktop/src/DesktopNetworkHost.cpp:191-201 | Every packet sent is stamped the start time plus the output latency plus the playing time of the frames before it, rounded up to a nanosecond |
| Host.Configure | desktop/src/DesktopNetworkHost.cpp:103-118 | The constructor takes a configuration if and only if port and stream ID are set, the packet duration is positive, the send-ahead is not negative and the latency is within a second |
| HostLoop.StepKeepsValid | desktop/src/main.cpp:267-362 | Every step of the command loop, a control thread or the clock keeps the invariant: contiguous sent ranges under one stream ID, commands that say what their snapshot showed, stream IDs linked to the seeks that set them, room state in agreement with the loop |
| HostLoop.RequestCommand | desktop/src/ControlChannel.cpp:216-247 | A command that nothing interrupts: which of the four replies it gets, if and only if which condition holds, and that only an accepted one changes the room, by exactly the pending action |
| HostLoop.FramesAreSentOnceBetweenSeeks | desktop/src/main.cpp:267-360 | In every run: between executed seeks a frame was sent if and only if it lies in the stretch, packets never overlap, and all carry one stream ID, across any pauses, resumes and short reads |
| HostLoop.PacketIsRun | desktop/src/DesktopNetworkHost.cpp:198-264 | Each packet that `streamFile` emits is a look, a sleep and an emission of the loop model, number and samples included, with the slot as that iteration saw it, so segments under any scheduling are runs of the model |
| Broadcast.EmittedIsFaithful | desktop/src/DesktopNetworkHost.cpp:232-252 | Conversely, every packet that the loop model can emit is one that its segment sends faithfully: due time, source samples, wire validity |
| Broadcast.StretchesAreOfTheSource | desktop/src/main.cpp:267-360 | For every run of the command loop: what is sent between two executed seeks is a stretch of one host run of the source, as the client results need it |
| Broadcast.ListenersHearTheSource | desktop/src/main.cpp:267-360 | From the command loop to the callback: for every run of the host and every interleaving on the client that leaves room, a frame still to be read is the source's own if and only if a packet of the stretch holding it has arrived, and silence otherwise |
| Timeline.RestartIsTimed | desktop/src/main.cpp:315-342 | Over every run: after a resume the next segment begins with the frame that was reached, after a seek with the frame sought; that frame is due, up to the output latency, when the action takes effect, every later packet by its distance at the sample rate rounded up to a nanosecond, under the right stream ID and numbered from zero |
| Timeline.PacketsAreTimed | desktop/src/DesktopNetworkHost.cpp:191-201 | The same for any segment that is about to start, the first one included |
| Timeline.SeeksGoWhereAsked | desktop/src/ControlChannel.cpp:216-247 | In every run the host begins with frame 0, ends a stretch only by a seek, goes on from the frame sought, and never seeks beyond a file whose length it knows |
| Timeline.TwoSecondsAhead | desktop/src/ControlChannel.cpp:236-245 | With no command on the way none is executed for two seconds, less the output latency and, for a seek while playing, one send-ahead |
| Timeline.StopIsFinal | desktop/src/main.cpp:310-361 | After a stop, taken in a segment or while paused, and after the end of the source: over every continuation nothing more is sent or sought, and the room ends up stopped |
| Timeline.PausedSeekGoesThrough | desktop/src/main.cpp:336-348 | A seek taken while paused waits for its time, whatever is commanded meanwhile, and then moves frame, stream and next stretch to where it asks, without resuming |
| Timeline.SentInTime | desktop/src/DesktopNetworkHost.cpp:205-230 | What the loop sends is at most one send-ahead early, and after it has seen an action each frame is due before that takes effect, for a seek one send-ahead before its time |
| Timeline.OneWayOut | desktop/src/DesktopNetworkHost.cpp:202-220 | A segment ends by the action seen if and only if the next frame is due when it takes effect or later, otherwise with the source if and only if no frame is left, and sends only if neither |
| HostLoop.ActionNeverDisappears | desktop/src/main.cpp:297-300 | "Scheduled room action disappeared" is unreachable: what the segment saw pending is what `takeAction` returns |
| HostLoop.PendingOnlyLeavesByTake | core/src/Room.cpp:89-104 | No control command or streaming step replaces a pending action |
| HostLoop.OnlySeeksMoveTheStream | desktop/src/main.cpp:315-321 | Only executed seeks change the stream ID, and only seeks and sent packets move the frame |
| HostLoop.StreamIdsDistinctIff | desktop/src/ControlChannel.cpp:239-240 | In every run of fewer than 2^32 - 1 executed seeks: no two stretches share a stream ID if and only if every executed seek was validated after the seek before it |
| HostLoop.CurrentSeeksCount | desktop/src/ControlChannel.cpp:240 | While every executed seek was current, stretch k has the ID that k increments of the first one give, skipping zero |
| HostLoop.NthIs | desktop/src/ControlChannel.cpp:240 | The k-th ID in closed form: the nonzero 32-bit numbers in turn |
| HostLoop.SeekRotatesIff | desktop/src/main.cpp:315-321 | With all seeks before it current, a seek keeps the ID if and only if exactly one seek was executed since its snapshot, and takes an ID no stretch has had if and only if none was |
| HostLoop.StaleSeekRepeats | desktop/src/ControlChannel.cpp:239-240 | In every run the first stale seek brings back the ID of the stretch after its snapshot |
| HostLoop.SecondSeekReusesStream | desktop/src/main.cpp:299-317 | Witness, with two-second schedules, sleeps and all packets in between: a second seek accepted between `takeAction` and `setStreamId` gives two consecutive stretches the same stream ID |
| HostLoop.OldStreamComesBack | desktop/src/main.cpp:299-317 | Witness: a command that waits through two other seeks returns to the ID of the stretch before the last, although the stretches on either side of the second seek differ |
| HostLoop.PauseSticksIff | desktop/src/main.cpp:325-357 | The exact condition: before a pause ends it can get stuck if and only if a pause is in the slot, or a pause is in flight (validated, whether or not it has read the clock) while the slot holds nothing or a seek |
| HostLoop.StuckForever | desktop/src/main.cpp:325-357 | With a pending pause the pause loop never ends: over every continuation no packet is sent and no command is scheduled |
| HostLoop.PollIsIdleIff | desktop/src/main.cpp:325-357 | A look at the room changes nothing if and only if nothing or a pause is pending; with nothing pending a PLAY is still accepted |
| HostLoop.SecondPauseSticks | desktop/src/main.cpp:299-323 | Witness, with the two-second schedule and the packets until the cutoff: a second PAUSE accepted between `takeAction` and `setPlaybackState(Paused)` leads to the stuck state |
| HostLoop.PlayEndsSegmentIff | desktop/src/ControlChannel.cpp:234-245 | The exact condition: a streaming segment can end by taking a PLAY if and only if one is in the slot, or in flight towards an empty slot, that is due before the source ends (counted from now if it has not read the clock yet); no PLAY is accepted meanwhile |
| HostLoop.PlayReplaysStart | desktop/src/main.cpp:299-321 | What that means: the frame then reached is announced again for the time at which the first frame of the old segment was due |
| HostLoop.StrayPlayHappens | desktop/src/main.cpp:273-282 | Witness: a PLAY accepted before the room first reads Playing ends the first segment after frames were sent |
| HostLoop.StreamToCutoff | desktop/src/DesktopNetworkHost.cpp:198-219 | From any point of a segment whose source lasts long enough, the loop reaches a pending action's cutoff and stops at a frame due at or after it |
| Rooms.StepKeepsValid | desktop/src/ControlChannel.cpp:131-138 | Joining (as two steps), reporting (as two steps), accepting and closing keep the ownership invariant |
| Rooms.EveryMembershipHasOneOwner | desktop/src/ControlChannel.cpp:351-384 | In every interleaving each room entry is owned by exactly one live connection holding its token, at the endpoint of that join, and when all connections have closed the room is empty |
| Rooms.OnlyTheOwnerTouches | core/src/Room.cpp:62-76 | A step of any other connection, stale leaves and stale reports included, leaves an owned membership unchanged unless it is a join that takes the device over |
| Rooms.OnlyJoinCreates | core/src/Room.cpp:51-60 | A new membership appears only by a join and its token is greater than every token a connection holds |
| Rooms.StaleConnectionIsIdle | desktop/src/ControlChannel.cpp:380-381 | A connection whose entry is gone or belongs to a newer join stays without one over every run in which it does not leave or close, and its late leave, close or status report then changes nothing |
| Rooms.TakeoverMakesStale | core/src/Room.cpp:51-60 | A join for the same device by another connection leaves the former owner in that state |
| Rooms.ClientConnection.Join | desktop/src/ControlChannel.cpp:131-138 | Run without interruption, JOIN is the leave step followed by the enter step; a malformed device name changes nothing |
| Rooms.ClientConnection.ClientState | desktop/src/ControlChannel.cpp:174-213 | Accepted exactly when the connection holds the entry; then the entry shows the reported status, with device, endpoint, token and every other entry unchanged; otherwise nothing changes |
| Rooms.ClosedTakesNoPart | desktop/src/ControlChannel.cpp:380-382 | A connection that has closed takes no further part in any run |
| Rooms.EntryShowsLastReport | desktop/src/ControlChannel.cpp:174-213 | Over every run an entry that a connection still holds shows the status of the last report it took and wrote back under that entry, zero before the first |
| Rooms.ReportReachesRoom | desktop/src/ControlChannel.cpp:174-213 | A report taken while the entry is held and written back before any takeover changes the status of that entry and nothing else in the room |
| Rooms.ClientConnection.HangUp | desktop/src/ControlChannel.cpp:380-381 | Ending a connection leaves the room as the close step does |
| Rooms.SharedRoom.Join | core/src/Room.cpp:51-60 | A complete endpoint replaces the device's entry under the next token, anything else throws and changes nothing |
| Rooms.SharedRoom.Leave | core/src/Room.cpp:62-67 | Removes the entry exactly when device and token match |
| Rooms.SharedRoom.UpdateMember | core/src/Room.cpp:69-76 | Replaces the entry, and says so, exactly when device and token match |
| Rooms.SharedRoom.ScheduleAction | core/src/Room.cpp:89-96 | An action fills the slot only if it is empty; invalid actions throw |
| Rooms.SharedRoom.TakeAction | core/src/Room.cpp:98-104 | Empties the slot and remembers what was in it |
| JitterBuffers.JitterBuffer.Push | core/src/JitterBuffer.cpp:26-105 | The new state and the outcome (inserted, late, duplicate, invalid) are those of the step function, from a well-formed state to a well-formed state |
| JitterBuffers.AcceptableIff | core/src/JitterBuffer.cpp:27-40 | What is not refused outright: 16-bit samples, 8000 to 192000 Hz, one or two channels, at least a frame, an end that fits 64 bits and a payload of exactly that size |
| JitterBuffers.PushOutcomeIff | core/src/JitterBuffer.cpp:57-73 | When a packet is refused, late, a duplicate of one still held, or inserted |
| JitterBuffers.PushLeaves | core/src/JitterBuffer.cpp:50-104 | What each outcome leaves: the expired front is gone, and one counter, the format, the latest end and the number of packets move as they must, by overflow from 1024 on |
| JitterBuffers.JitterBuffer.ReadFrames | core/src/JitterBuffer.cpp:107-157 | A served read fills the span with the pointwise rendering of the packet map, returns the copied count and moves the expiry mark; failed try-lock, missing format and a misaligned span are silent and leave the mark; a window that wraps past 2^64 reads as silence |
| JitterBuffers.ServedIffWholeFrames | core/src/JitterBuffer.cpp:113-121 | A read reaches the packets if and only if the lock was free, a format is known and whole frames were asked for |
| JitterBuffers.ExpiredAfterRead | core/src/JitterBuffer.cpp:123-126 | After a read exactly those packets have expired that had before or end by the end of the window, less the two frames kept for interpolation |
| JitterBuffers.JitterBuffer.FirstPacketAtOrAfter | core/src/JitterBuffer.cpp:159-170 | The earliest unexpired packet due at or after the timestamp, and none exactly if there is none |
| JitterBuffers.JitterBuffer.PacketCount | core/src/JitterBuffer.cpp:186-193 | Counts the unexpired packets; when end frames never decrease that is what the next push would keep |
| JitterBuffers.JitterBuffer.DepthFrames | core/src/JitterBuffer.cpp:181-184 | No held packet ends beyond the reported depth |
| JitterBuffers.PushKeepsWellFormed | core/src/JitterBuffer.cpp:49-104 | The map stays sorted, bounded by 1024, uniformly shaped and within the latest end |
| JitterBuffers.PruneExactIff | core/src/JitterBuffer.cpp:50-56 | Stopping at the first unexpired packet prunes exactly the expired ones, for every mark, if and only if end frames never decrease along the map |
| JitterBuffers.DisjointEndsAscend | core/src/JitterBuffer.cpp:50-56 | Disjoint packets, which is what a host sends, meet that condition |
| JitterBuffers.PruneLeavesHiddenExpired | core/src/JitterBuffer.cpp:50-56 | Witness, with the pushes and the read that lead there: an expired packet survives the pruning loop behind an earlier one that outlasts it |
| JitterBuffers.GreatestCoverWins | core/src/JitterBuffer.cpp:129-156 | Overlaps included, a frame comes from the covering packet with the greatest start frame |
| JitterBuffers.UncoveredIsSilent | core/src/JitterBuffer.cpp:111-112 | A frame that no packet covers is silent |
| JitterBuffers.BreakLosesNothing | core/src/JitterBuffer.cpp:132-137 | Stopping at the first packet that starts at or after the window changes neither the samples nor the count |
| JitterBuffers.CopiedCountsFramesIff | core/src/JitterBuffer.cpp:141-156 | The returned value is the number of covered frames if and only if no frame of the window is covered twice, and is never less |
| JitterBuffers.DisjointHasNoFrameTwice | core/src/JitterBuffer.cpp:141-156 | Disjoint packets meet that condition for every window |
| JitterBuffers.OverlapCountsTwice | core/src/JitterBuffer.cpp:150 | Witness, with the pushes that lead there: with overlaps the returned value exceeds the window |
| JitterBuffers.CopiedBound | core/src/JitterBuffer.cpp:127-156 | The 32-bit count cannot wrap |
| ArrivalOrder.HeldAreNewest | core/src/JitterBuffer.cpp:49-104 | Between two reads, whatever unexpired packets the buffer held before, and expired ones as long as the pruning loop finds them all (`JitterBuffers.PruneExactIff`): any arrivals of the same stream leave exactly the 1024 greatest start frames (all if fewer) of the unexpired packets it had and those offered, and the latest end |
| ArrivalOrder.ArrivalOrderIrrelevant | core/src/JitterBuffer.cpp:49-104 | Two arrival orders of the same packets, repeats included, into the same such buffer leave the same map, latest end and mark, hence the same later reads |
| Pcm.ToLittleEndianPcm | desktop/src/DesktopNetworkHost.cpp:89-99 | The packed bytes decode to the samples that went in |
| Pcm.DecodedEncoded | core/src/JitterBuffer.cpp:12-22 | Decoding undoes the host's packing for every sample sequence |
| Pcm.DecodePcm | core/src/JitterBuffer.cpp:12-22 | The loop builds the sample at each byte pair |
| Players.ScheduledStreamPlayer.DataCallback | desktop/src/DesktopAudioClient.cpp:269-337 | Before the start time: silence and no change. Afterwards: the ratio slews once, output frame k is the buffer at cursor + k times the ratio (linear between the two frames around it, to the nearest integer) or silence if the try-lock of chunk k / 256 failed, the cursor advances exactly frameCount times the ratio, a served last chunk leaves the expiry mark at the cursor, and the underruns are the known frames missed chunk by chunk; from a whole frame at ratio 1 with every read served it is the buffer's own samples |
| Players.CallbackOutputSounds | desktop/src/DesktopAudioClient.cpp:292-334 | The chunked rendering is, position by position, the buffer at that position or silence |
| Players.WholeSpeedIsRender | desktop/src/DesktopAudioClient.cpp:303-318 | At whole positions and ratio 1 the output is what one read of the buffer returns |
| Players.Interpolate | desktop/src/DesktopAudioClient.cpp:315-316 | The output sample is within half a step of left + fraction * (right - left), and equals left at fraction 0 |
| Players.Slew | desktop/src/DesktopAudioClient.cpp:287-289 | One callback moves the ratio all the way to its target or by exactly 20 ppm towards it |
| Players.CorrectionRemovesError | core/src/DriftCorrection.cpp:76-86 | Within its limits the correction follows the drift part by part and removes a buffer error in fifty seconds of playing |
| Players.ScheduledStreamPlayer.RenderChunk | desktop/src/DesktopAudioClient.cpp:292-334 | One chunk writes only its own part of the output, lands the expiry mark exactly on the new cursor frame, and counts underruns by the known shortfall |
| Players.ScheduledStreamPlayer.Fetch | desktop/src/DesktopAudioClient.cpp:296-302 | The lookahead of two cancels the two extra frames: the mark moves to the next cursor position |
| Players.ChunkRequest | desktop/src/DesktopAudioClient.cpp:296-312 | A chunk asks for at most 259 frames and both interpolation indices lie inside the request |
| Players.SlewAll | desktop/src/DesktopAudioClient.cpp:288-291 | Over any run of targets the ratio stays within 500 ppm of 1 |
| Players.SlewReaches | desktop/src/DesktopAudioClient.cpp:288-289 | Callbacks with one target go to it in steps of 20 ppm, reach it as soon as they can and stay there |
| Players.CorrectionRatio | core/src/DriftCorrection.cpp:76-86 | The target is above 1 exactly when drift plus twenty times the buffer error is positive, below exactly when negative, and saturates at 500 ppm exactly when that sum does |
| Players.BlendInRange | desktop/src/DesktopAudioClient.cpp:315-316 | The rounded interpolation stays between its two neighbours, so the 16-bit cast never overflows |
| Players.BlendedIsHeard | desktop/src/DesktopAudioClient.cpp:303-318 | Interpolating the fetched window is interpolating the buffer at absolute positions |
| Players.HeardSplits | desktop/src/DesktopAudioClient.cpp:292-334 | Rendering m + n frames is rendering m and then n from where the cursor stopped |
| Players.ChunkingIsInvisible | desktop/src/DesktopAudioClient.cpp:292-334 | With every read served, the 256-frame chunks do not show in the output |
| Players.CallbacksCompose | desktop/src/DesktopAudioClient.cpp:269-337 | Two callbacks at one ratio, the second from the cursor the first one left, give the output of a single longer one |
| Players.CallbackOutputShift | desktop/src/DesktopAudioClient.cpp:328-332 | A callback depends only on the absolute cursor position, not on how it is split into frame and fraction base, failed try-locks included |
| Players.ShortfallIsMissingFrames | desktop/src/DesktopAudioClient.cpp:319-327 | If no requested frame is covered twice, an underrun counts exactly the known frames that are missing, for any latest end loaded after the read |
| Players.UnderrunIsMissingFrames | desktop/src/DesktopAudioClient.cpp:319-327 | An underrun counts what has not arrived of the requested frames below the latest end; all of those when the try-lock failed |
| ReceivePath.StepKeepsValid | desktop/src/DesktopAudioClient.cpp:292-334 | In every interleaving of arrivals, callbacks and failed try-locks the expiry mark never passes the first frame still to be read |
| ReceivePath.ReadMovesMarkToNextFrame | core/src/JitterBuffer.cpp:123-126 | A served chunk read moves the mark exactly to the next cursor frame |
| ReceivePath.CursorFollowsRatio | desktop/src/DesktopAudioClient.cpp:292-334 | Within a callback the cursor moves by the ratio for every frame put out, neither more nor less, whatever arrives in between and whichever try-locks fail |
| ReceivePath.RatioFollowsTargets | desktop/src/DesktopAudioClient.cpp:287-291 | Over any run the ratio takes one step towards the target at each callback and at no other time |
| ReceivePath.NeverLateInTime | core/src/JitterBuffer.cpp:57-60 | A packet with a frame still to be played is never refused as late, after any run |
| ReceivePath.OnlyOverflowRemoves | core/src/JitterBuffer.cpp:100-103 | A held packet with a frame still to be played leaves only through the 1024 cap |
| Playback.FramesInTimeAreTheSource | desktop/src/DesktopAudioClient.cpp:111-150 | For a stretch of any length, in any interleaving of arrivals, chunks and failed try-locks that leaves room: a frame still to be read is the source's own if and only if a packet holding it has arrived, and silence otherwise |
| Playback.NextChunkIsWhatArrived | desktop/src/DesktopAudioClient.cpp:292-334 | So at every position from the cursor on the callback's next chunk puts out the point between two frames of the source, weighted by how far the position is past the first, with silence for those that no packet has brought |
| Playback.OverflowsIff | core/src/JitterBuffer.cpp:100-103 | Overflow in terms of what arrives: a packet is lost to the 1024 limit if and only if at some arrival more than 1024 packets have arrived that still end after the expiry mark |
| Playback.NoOverflowIff | core/src/JitterBuffer.cpp:49-104 | The same for any such buffer, and until then it holds what has arrived and is not expired, and nothing that has not arrived |
| Playback.OrderLeavesNoTrace | core/src/JitterBuffer.cpp:49-104 | In the middle of playback the order in which more of the stretch arrives before the next read leaves no trace |
| Ring.StepKeepsValid | desktop/src/DesktopAudioPlayer.cpp:241-343 | Every load, slot copy and store of either thread keeps the ring invariant |
| Ring.SubmittedIsPrefix | desktop/src/DesktopAudioPlayer.cpp:324-338 | In every interleaving the submitted frames are a prefix of the source and read <= written <= read + capacity |
| Ring.CallbackSubmitsRequest | desktop/src/DesktopAudioPlayer.cpp:324-338 | Over every interleaving of one callback asked for `size` frames: it never submits more than `size` nor more than was unread when `writtenFrame_` was loaded, and when it is over exactly the smaller of the two, the next frames of the source in order |
| Ring.RequestIsGreatest | desktop/src/DesktopAudioPlayer.cpp:243-252 | The decoder asks for all that fits: it stops short of 4096 frames only where the free slots or the ring end |
| Ring.FillingIsDisjointFromUnread | desktop/src/DesktopAudioPlayer.cpp:243-256 | The slots the decoder may be writing are disjoint modulo capacity from the unread ones |
| Ring.EndKnowingIsComplete | desktop/src/DesktopAudioPlayer.cpp:325-342 | If the finished flag is set when `writtenFrame_` is loaded, then over every run of that callback end-reached means everything decoded was submitted |
| Ring.EndsCompleteIff | desktop/src/DesktopAudioPlayer.cpp:325-342 | The exact condition, seen when `writtenFrame_` has just been loaded: every end that this callback can still declare comes after all that was decoded, unless the callback drains all it saw while the decoder thread can publish more and then finish |
| Ring.EndIsForever | desktop/src/DesktopAudioPlayer.cpp:316-322 | After end-reached nothing more is submitted in any run |
| Ring.MissTail | desktop/src/DesktopAudioPlayer.cpp:325-342 | From every such state there is a run that declares the end with decoded frames never played: drain, publish, set the flag, see the flag |
| Ring.EndHidesFrames | desktop/src/DesktopAudioPlayer.cpp:241-343 | Witness from the initial state, for every source longer than one read: the first callback drains the first read and declares the end while the decoder publishes more |
| Ring.DrainInPlace | desktop/src/DesktopAudioPlayer.cpp:308-336 | The two block copies fill the device buffer with the modular ring slots and silence after them |
| Drift.PublishedLineIsOptimal | core/src/DriftCorrection.cpp:36-57 | After any accepted samples the published line is the unique minimiser of the squared residuals of the window among all lines with slope within 0.002 |
| Drift.FitIsLeastSquares | core/src/DriftCorrection.cpp:54-57 | Clamping covariance over variance and then passing through the centroid is jointly optimal |
| Drift.LinearClockIsTracked | core/src/DriftCorrection.cpp:7-66 | A linear clock within 2000 ppm, measured with errors of at most d up to 0.25 ms and samples at least 6000 d apart (3 microseconds for rounding), is tracked over every run: no sample is rejected and the window is the newest part of what was measured |
| Drift.LinearClockError | core/src/DriftCorrection.cpp:60-66 | From two samples on the published offset of such a clock is within 9 d of the truth, plus 8 d for every width of the window since the newest sample |
| Drift.NearIsNoOutlier | core/src/DriftCorrection.cpp:11-21 | A window at least 16000 d wide takes no sample within d of the line for an outlier |
| Drift.LinearClockIsExact | core/src/DriftCorrection.cpp:60-66 | Without errors, from two samples on, the published offset is the true one at all times, whatever the spacing |
| Drift.AddAllKeepsValid | core/src/DriftCorrection.cpp:7-58 | Over any samples the window is strictly increasing, at most 32 long, at most 120 s wide when longer than 2, with fewer than three outliers pending, and the line is the fit of that window |
| Drift.AddKeepsValid | core/src/DriftCorrection.cpp:8-10 | A sample is refused with an exception exactly when it is not newer than the last one |
| Drift.OutlierStep | core/src/DriftCorrection.cpp:11-21 | An outlier leaves the line alone until the third in a row, which restarts from itself |
| Drift.RefusedIffFarOff | core/src/DriftCorrection.cpp:11-21 | From four samples on: window and line are left alone if and only if the offset is above or below the published one by more than 5 ms and more than a thousandth of the elapsed time and it is not the third such in a row; the third restarts from itself; any other sample joins |
| Drift.FewAcceptAll | core/src/DriftCorrection.cpp:11 | With fewer than four samples every newer sample joins the window |
| Drift.TrimKeepsMost | core/src/DriftCorrection.cpp:24-28 | The window keeps all it may: any longer history would exceed 32 samples, or two samples and 120 s |
| Drift.ThirdOutlierRestarts | core/src/DriftCorrection.cpp:16-21 | Three outliers in a row leave a window of just the third |
| Drift.DriftEstimator.AddSample | core/src/DriftCorrection.cpp:7-58 | The method computes the step function on which the results above are proved |
| Drift.Moments | core/src/DriftCorrection.cpp:46-53 | The summing loop computes covariance and variance |
| Clock.FrameToDurationIsExact | core/src/PlaybackClock.cpp:75-95 | The split computation is the unbounded ceiling, throws exactly when that does not fit, and no 64-bit intermediate wraps |
| Clock.FrameToTimestampIsExact | core/src/PlaybackClock.cpp:36-45 | Throws exactly when duration or timestamp is unrepresentable; from a non-negative start exactly when the timestamp is |
| Clock.NegativeStartThrowsEarly | core/src/PlaybackClock.cpp:36-45 | Witness: from a negative start it throws although the timestamp would fit |
| Clock.TimestampToFrameIsExact | core/src/PlaybackClock.cpp:47-71 | The split computation is the unbounded floor, throws exactly when that does not fit, and no intermediate wraps |
| Clock.ReachedIffAtOrAfterTimestamp | core/src/PlaybackClock.cpp:36-71 | For every start time and f >= 1 the frame at t is at least f if and only if t is at or after the timestamp of f, overflow cases included |
| Clock.FrameRoundTrip | core/src/PlaybackClock.cpp:86-89 | Up to 10^9 frames per second every frame with a timestamp survives the round trip, from every start time |
| Clock.RoundTripIffAtMostOnePerNanosecond | core/src/PlaybackClock.cpp:86-89 | All frames round-trip from all start times if and only if the rate is at most 10^9 |
| Clock.RoundTripFromStart | core/src/PlaybackClock.cpp:86-89 | The same iff from each single start time that leaves room for a second |
| Clock.HigherRatesLoseAFrame | core/src/PlaybackClock.cpp:86-89 | Witness: above 10^9 frames per second, frame rate - 1 comes back as frame rate |
| ClockSync.OffsetWithinHalfRoundTrip | core/src/ClockSync.cpp:107-134 | Whatever the one-way delays, the offset is within half the round trip, rounded up to whole nanoseconds, of the truth |
| ClockSync.HonestExchangeIsAccepted | core/src/ClockSync.cpp:112-127 | An exchange with non-negative delays and 63-bit stamps is never rejected |
| ClockSync.EstimateMeans | core/src/ClockSync.cpp:107-134 | An estimate exists exactly for ordered 63-bit stamps with no more time at the host than between request and answer; round trip, offset to the nearest nanosecond and the middle of the exchange as sample time |
| ClockSync.Select | desktop/src/ClockSyncTransport.cpp:311-328 | The two sorts pick the median offset of the three fastest samples, for any way of ordering ties; no sample is an error |
| ClockSync.ReportsMinimumRoundTrip | desktop/src/ClockSyncTransport.cpp:320-327 | The reported round trip is the minimum over all samples |
| ClockSync.WithinSecondLowestRoundTrip | desktop/src/ClockSyncTransport.cpp:319-326 | The result is within half the second-lowest round trip, rounded up, of the truth (half the only one, for a single sample) |
| ClockSync.SecondLowestIsTight | desktop/src/ClockSyncTransport.cpp:319-326 | That is the exact bound: for any round trips, all exchanges with them give results within a bound if and only if the bound is at least that |
| ClockSync.MedianOutvotesOne | desktop/src/ClockSyncTransport.cpp:319-325 | If any two of the three selected samples are within a bound, so is the result |
| ClockSync.ReportedRoundTripBoundsIff | desktop/src/ClockSyncTransport.cpp:325-326 | The reported round trip bounds the error of every list of exchanges with these round trips if and only if there is one sample, or the two lowest are equal, or the lowest is odd and the next is one higher |
| ClockSync.SlowMajority | desktop/src/ClockSyncTransport.cpp:319-326 | The exchanges, as stamps and delays, on which the error reaches half the second-lowest round trip, for any round trips |
| ClockSync.ClockSampleFilter.Add | ios/SyncAudioReceiver/ClockSync.swift:26-54 | The Swift filter keeps 16 samples and selects from the last 8 by the same rule, on unrounded offsets |
| ClockWire.Serialize | core/src/ClockSync.cpp:59-78 | The in-place writer produces the message layout; unknown types throw |
| ClockWire.Deserialize | core/src/ClockSync.cpp:80-105 | The sequential reader computes the offset table |
| ClockWire.EncodingExistsIff | core/src/ClockSync.cpp:61-64 | Only requests and responses have an encoding |
| ClockWire.OnlyRequestsAreAnswered | desktop/src/ClockSyncTransport.cpp:179-198 | The host answers requests and nothing else, with the request's number and stamp and its own two stamps; no answer is itself answered |
| ClockWire.CppTakesAnswer | desktop/src/ClockSyncTransport.cpp:291-306 | The client samples a datagram if and only if it is a response with the number and stamp of the outstanding request and the stamps are possible |
| ClockWire.EncodingIsLayout | core/src/ClockSync.cpp:59-105 | Bytes are the encoding of a message if and only if they decode to it and the reserved word is zero |
| ClockWire.EncodeIsInjective | core/src/ClockSync.cpp:59-78 | Two messages with the same bytes are equal |
| ClockWire.SwiftRequestIsCppRequest | ios/SyncAudioReceiver/ClockSync.swift:60-69 | The Swift request is byte for byte the C++ one |
| ClockWire.ClientsAgreeOnSamples | ios/SyncAudioReceiver/ClockSync.swift:71-91 | For 63-bit stamps Swift accepts exactly the C++ samples with a round trip under a second; round trips are equal and offsets agree up to rounding |
| ClockWire.ExchangeIsHonest | desktop/src/ClockSyncTransport.cpp:179-198 | Request, reply and sample together: the host answers either client's request, the sample is accepted and its error is within half its round trip |
| ClockWire.SwiftSecondLowestIsTight | ios/SyncAudioReceiver/ClockSync.swift:26-54 | The exact bound of the Swift filter, whose offsets are not rounded: half the second-lowest round trip |
| ClockWire.SwiftReportedRoundTripBoundsIff | ios/SyncAudioReceiver/ClockSync.swift:33 | Half the reported round trip bounds the Swift error if and only if there is one sample or the two lowest are equal; with half a nanosecond more, if and only if they differ by at most one |
| Loss.SequenceStatistics.UpdateSequenceStatistics | desktop/src/DesktopAudioClient.cpp:86-109 | The counters and the missing set move as the step function says |
| Loss.OutOfOrderIsOvertaken | desktop/src/DesktopAudioClient.cpp:104 | Out of order are exactly the arrivals that the same or a higher number preceded |
| Loss.AlwaysAccounted | desktop/src/DesktopAudioClient.cpp:86-109 | After any arrivals the missing set is what has not arrived and is remembered, and the count adds the numbers in forgotten gaps |
| Loss.LostCount | desktop/src/DesktopAudioClient.cpp:91-107 | The count never underflows; it equals the true loss if and only if no straggler came from a gap wider than 100,000 |
| Loss.LostCountIsExact | desktop/src/DesktopAudioClient.cpp:91-107 | With gaps of at most 100,000 the count is the number of sequence numbers between first and highest not yet received |
| Loss.WideGapStaysCounted | desktop/src/DesktopAudioClient.cpp:95-100 | Witness: a straggler from a wider gap stays counted as lost |
| HostLoss.CounterIsHostLossIff | desktop/src/DesktopAudioClient.cpp:86-109 | Around a resume, for any delivery: apart from forgotten stragglers `packetsLost` never exceeds the host packets that did not arrive, and equals them if and only if every loss lies between numbers that arrived and none shares its number with a packet of the other segment |
| SwiftLoss.RecordKeeps | ios/SyncAudioReceiver/ReceiverSnapshot.swift:50-79 | Wrap-around included: lost count >= missing set size >= 0, the recent set is its order list, both windows stay within 4096 |
| SwiftLoss.RunKeeps | ios/SyncAudioReceiver/ReceiverSnapshot.swift:50-79 | ... after any arrivals |
| SwiftLoss.ClientsAgreeOnLossIff | ios/SyncAudioReceiver/ReceiverSnapshot.swift:58-79 | For any 32-bit arrivals the Swift and C++ clients keep reporting the same highest number, missing set and loss exactly while each arrival is a number Swift has just seen or lies within half the number space with a gap that both remember or both forget |
| SwiftLoss.ClientsDisagree | ios/SyncAudioReceiver/ReceiverSnapshot.swift:69-79 | Witness: after 0, 5000, 100 the Swift client reports 4999 lost and the C++ client 4998 |
| SwiftLoss.StreamAccumulator.RecordPacket | ios/SyncAudioReceiver/ReceiverSnapshot.swift:40-117 | A new session or stream starts afresh, a format change is refused, and buffered totals equal the sums over the held packets |
| SwiftLoss.StreamAccumulator.Trim | ios/SyncAudioReceiver/ReceiverSnapshot.swift:127-144 | At most half a second and 512 KiB remain, oldest dropped first; of the arrivals exactly those of the last second stay |
| SwiftLoss.DropKeepsMost | ios/SyncAudioReceiver/ReceiverSnapshot.swift:134-139 | No more leaves than must: any longer history would exceed half a second or 512 KiB |
| SwiftQueue.DrainPlaysReadFrames | ios/SyncAudioReceiver/PacketPlaybackQueue.swift:43-73 | Draining a queue of disjoint packets empties it, emits exactly `bufferedFrames` frames with each packet at its own start, and plays what one `readFrames` over the interval returns |
| SwiftQueue.SwiftPlaysWhatCppReads | ios/SyncAudioReceiver/PacketPlaybackQueue.swift:63-73 | Holding the same packets, the Swift and C++ clients play the same samples |
| SwiftQueue.DrainsIffDisjoint | ios/SyncAudioReceiver/PacketPlaybackQueue.swift:63-73 | A well-formed queue drains to empty if and only if its packets are disjoint; one overlap stalls it |
| SwiftQueue.OverlapStalls | ios/SyncAudioReceiver/PacketPlaybackQueue.swift:63-73 | Witness, with the inserts that lead there: a packet that begins inside another is accepted and never comes out |
| SwiftQueue.BehindCursorIsStranded | ios/SyncAudioReceiver/PacketPlaybackQueue.swift:69 | A packet below the cursor is never returned |
| SwiftQueue.PopDecreases | ios/SyncAudioReceiver/PacketPlaybackQueue.swift:63-73 | Every item shrinks the queue or the distance to the next packet, so draining terminates |
| SwiftQueue.PopKeeps | ios/SyncAudioReceiver/PacketPlaybackQueue.swift:63-73 | Popping keeps a disjoint queue well formed and gives nothing only when it is empty |
| SwiftQueue.InsertKeeps | ios/SyncAudioReceiver/PacketPlaybackQueue.swift:43-61 | Inserting a non-overlapping packet keeps the queue drainable and within 512; it is refused exactly when it lies behind the cursor of its own stream |
| SwiftQueue.DiscardKeeps | ios/SyncAudioReceiver/PacketPlaybackQueue.swift:37-40 | Discarding by timestamp keeps the queue drainable |
| SwiftQueue.DiscardStays | ios/SyncAudioReceiver/PacketPlaybackQueue.swift:37-40 | Exactly the packets from the timestamp on stay, as they are, and the cursor moves to the first of them |
| SwiftQueue.InsertHolds | ios/SyncAudioReceiver/PacketPlaybackQueue.swift:43-61 | What an insert leaves: another stream starts afresh, a packet behind the cursor changes nothing, any other is held under its start frame, and of more than 512 the first leaves and the cursor moves to the next |
| SwiftQueue.PopGives | ios/SyncAudioReceiver/PacketPlaybackQueue.swift:63-73 | What a pop gives: the packet at the cursor, or silence up to the next packet, at most 1024 frames at a time, or nothing exactly if none is left or one lies behind the cursor |
| SwiftQueue.PacketPlaybackQueue.InsertPacket | ios/SyncAudioReceiver/PacketPlaybackQueue.swift:43-61 | The method computes the insert step |
| SwiftQueue.PacketPlaybackQueue.PopNext | ios/SyncAudioReceiver/PacketPlaybackQueue.swift:63-73 | The method computes the pop step |
| SwiftQueue.PacketPlaybackQueue.DiscardBefore | ios/SyncAudioReceiver/PacketPlaybackQueue.swift:37-40 | The method computes the discard step |
| SwiftEndToEnd.SwiftPlaysTheSource | ios/SyncAudioReceiver/UDPStreamReceiver.swift:131-136 | The whole path on iOS: after any delivery of a stretch of at most 512 packets the queue drains, and plays from the first arrival's start frame on the source's own sample wherever a packet that was let through covers the frame, and silence elsewhere |
| SwiftEndToEnd.ClientRecords | ios/SyncAudioReceiver/UDPStreamReceiver.swift:131-136 | After any arrivals of one stream, of any length, the client has recorded every packet and inserted exactly those that `record` let through |
| SwiftEndToEnd.RunOfDatagrams | ios/SyncAudioReceiver/UDPStreamReceiver.swift:122-143 | A run of datagrams with nothing between them is the delivery of their list |
| SwiftEndToEnd.RunOfPops | ios/SyncAudioReceiver/PacketPlaybackQueue.swift:63-73 | Popping gives exactly the items of the drained queue, one after the other, and then nothing |
| SwiftEndToEnd.QueueIsOfOneFormat | ios/SyncAudioReceiver/ReceiverSnapshot.swift:46-48 | Whatever datagrams arrive, all that is queued is of the session and stream the client was told of and of one format |
| SwiftEndToEnd.ClientFollows | ios/SyncAudioReceiver/PacketPlaybackQueue.swift:43-61 | With at most 512 different packets arriving, the queue holds what was let through, from the first arrival's start frame on |
| SwiftEndToEnd.AdmittedIffNew | ios/SyncAudioReceiver/ReceiverSnapshot.swift:50-79 | While its window of 4096 numbers has forgotten nothing, `record` lets a packet through if and only if its number has not arrived before |
| SwiftEndToEnd.NewIsLetThrough | ios/SyncAudioReceiver/ReceiverSnapshot.swift:50-79 | However long the stream is, `record` lets a number through that has not arrived before |
| SwiftEndToEnd.LetThroughIffFirstOfNumber | ios/SyncAudioReceiver/ReceiverSnapshot.swift:50-79 | Until more than 4096 different numbers have arrived, `record` lets an arrival through if and only if nothing with its number arrived before it |
| SwiftEndToEnd.WindowForgets | ios/SyncAudioReceiver/ReceiverSnapshot.swift:58-64 | Witness: after 4097 packets of one segment `record` lets the first packet of the resumed segment through, although its number has been used |
| SwiftEndToEnd.EveryDeliveryAdmittedIff | ios/SyncAudioReceiver/ReceiverSnapshot.swift:50-79 | For any packets and deliveries of any length: `record` lets every delivery of them through in full if and only if no two of them carry the same number |
| SwiftEndToEnd.AllAdmittedIff | ios/SyncAudioReceiver/ReceiverSnapshot.swift:50-79 | For one delivery of at most 4096 different numbers: every delivered packet is let through if and only if no two different ones carry the same number |
| SwiftEndToEnd.OneSegmentIdentifies | desktop/src/DesktopNetworkHost.cpp:194 | Within one segment of up to 2^32 packets the numbers tell packets apart |
| SwiftEndToEnd.ResumeAdmitsAllIff | desktop/src/DesktopNetworkHost.cpp:193-264 | Of two segments that the host emits around a resume under one session and stream ID, each of up to 2^32 packets: `record` lets every delivery through in full if and only if one of them is empty |
| SwiftEndToEnd.ResumeQueuesAllIff | ios/SyncAudioReceiver/UDPStreamReceiver.swift:131-136 | The same for the playback queue of a client, for up to 512 packets: every delivery is queued in full from its first arrival on if and only if one side of the resume is empty |
| SwiftEndToEnd.ResumedFirstIsNotQueued | desktop/src/DesktopNetworkHost.cpp:194 | Witness: the first packets of both segments arrive in order, and the queue has only the first |
| SwiftEndToEnd.EveryPopIsSourceOrSilence | ios/SyncAudioReceiver/PacketPlaybackQueue.swift:63-73 | For any host run and network, in any interleaving of arrivals, pops and discards: each item popped is the source's own from the cursor on, or silence that reaches no queued packet, and moves the cursor by what it plays |
| SwiftPlayback.PacketsInTimeAreTheSource | ios/SyncAudioReceiver/PacketPlaybackQueue.swift:43-73 | For a stretch of any length and any interleaving of arrivals and pops with at most 512 packets waiting: what has been popped is, frame after frame from the first packet on, the source's own if and only if a packet holding the frame was let through before the cursor had passed its start, and silence otherwise; packets in time that the cursor has not reached are queued |
| SwiftPlayback.RunSound | ios/SyncAudioReceiver/PacketPlaybackQueue.swift:43-73 | Every arrival and pop keeps the played, the waiting and the queued packets in agreement |
| Generation.QueuedFramesIsExact | ios/SyncAudioReceiver/AudioPlaybackController.swift:262-270 | With completions in any order and arbitrarily late, across resets, `queuedFrames` is the total of the uncompleted buffers of the current generation |
| Generation.ClampIsIdle | ios/SyncAudioReceiver/AudioPlaybackController.swift:267-268 | The clamp never changes a value and a stale completion has no effect |
| Generation.StepKeepsValid | ios/SyncAudioReceiver/AudioPlaybackController.swift:340-346 | Scheduling, completing and every kind of reset keep that equality |
| Generation.AudioPlaybackController.FillPlayer | ios/SyncAudioReceiver/AudioPlaybackController.swift:253-271 | The pump loop terminates; what it scheduled, the at most one item it lost and what is left are the timeline in order, and it stops only at the target, at a failed conversion or on an empty queue |
| Generation.AudioPlaybackController.ResetStream | ios/SyncAudioReceiver/AudioPlaybackController.swift:414-425 | A reset disowns every outstanding buffer |
| Generation.AudioPlaybackController.BufferPlayed | ios/SyncAudioReceiver/AudioPlaybackController.swift:265-270 | A completion callback subtracts only its own generation's frames |
| Wire.DecodeEncode | core/src/PacketSerializer.cpp:121-190 | Parsing what was serialised gives the packet back, for every valid packet |
| Wire.EncodeDecode | core/src/PacketSerializer.cpp:150-190 | Re-serialising an accepted datagram reproduces it except for a zeroed byte 27 |
| Wire.DecodeIffLayout | core/src/PacketSerializer.cpp:150-190 | A datagram is accepted if and only if it is laid out as some valid packet, and then it is that packet |
| Wire.LayoutCharacterisesEncoding | core/src/PacketSerializer.cpp:128-147 | Bytes are the encoding of a packet if and only if every field sits at its offset and byte 27 is zero |
| Wire.Serialize | core/src/PacketSerializer.cpp:121-148 | Succeeds exactly for valid packets, within 1200 bytes |
| Wire.Deserialize | core/src/PacketSerializer.cpp:150-190 | The sequential reader computes the offset table and rejects everything else |
| Wire.ParsersAgree | ios/SyncAudioReceiver/AudioPacket.swift:18-58 | The Swift parser accepts exactly the datagrams the C++ one accepts with byte 27 zero, with equal fields |
| Wire.SwiftReadsHostPackets | ios/SyncAudioReceiver/AudioPacket.swift:18-58 | Every packet a C++ host can send is read by the Swift client with the same fields |

## Left out

- Floating-point rounding: the resampling cursor, the drift fit and the clock offset are exact reals, so accumulated rounding error is not covered; the `isfinite` branch of `correctionRatio` and infinities are not modelled.
- Form: `prefetch` and the ring callback, `runHost` with the control commands, `serveClient` and the receiver beside the callback are state machines over their atomic steps rather than methods, because what matters there is how their threads interleave; the room, the buffer, the callback and the receive loop are classes and methods. The two sorts of `measure` build sorted copies instead of sorting in place.
- Weak memory: atomic loads and stores of the ring are sequentially consistent steps, and the buffer and room mutexes make each call one step.
- Wrap-around of 64-bit counters (membership tokens, received and overflow counts, ring positions) and of nanosecond sums of configuration values.
- Sockets, mDNS discovery, threads, sleeping and the wall clock; the debug-only network impairment, which the arbitrary network already covers; encryption and random identifiers.
- The audio libraries: the decoder returns some of the requested frames or nothing at the end, the player is a set of outstanding buffers. Stopping the prefetch thread from outside (`prefetchRunning_`), the silent callbacks before the start time and the timeline freeze of the local player are not modelled.
- The jitter and target-buffer estimates of both clients, packet rates and percentages, which are single formulas over wall-clock arrival times.
- Control lines as text: parsing, formatting, the refusal of host commands from other machines, and the nine status fields, which are one value here. Commands are values whose snapshot and scheduling are separate steps.
- Timing: `HostLoop.dfy` has one clock that only moves forward and that a command reads after its snapshot, the two-second schedule of commands, the sleeps before packets, cutoffs and paused seeks, and no upper bound on how long a step takes. The wait before a stop in the pause loop is not modelled.
- The C++ client's configuration with a session but no stream is excluded: the program then reads an empty optional.
- The slope, quality label and drift field of the Swift clock filter; `PlaybackTiming`, output-latency checks, priming and staging of streams around a seek on iOS, the user interfaces and the command line.
- EndToEnd.DeliveredFramesAreTheSource: states exact delivery for stretches of at most 1024 packets read after all arrivals; longer stretches and interleaved reads are the subject of Playback.FramesInTimeAreTheSource.
- Playback.FramesInTimeAreTheSource: covers runs in which at most 1024 arrived packets are unexpired, which is exactly when nothing overflows (Playback.OverflowsIff); after an overflow only EndToEnd.EveryReadIsSourceOrSilence is stated.
- SwiftEndToEnd.SwiftPlaysTheSource: states playback for stretches of at most 512 packets drained after all arrivals, which is what the queue and the recent-number window hold without forgetting; longer stretches and arrivals between pops are the subject of SwiftPlayback.PacketsInTimeAreTheSource. With discards, or more than 512 packets waiting, only the safety half is stated, in SwiftEndToEnd.EveryPopIsSourceOrSilence. Pausing and the staging queue around a seek are not part of it.
- EndToEnd.EveryReadIsSourceOrSilence: datagrams under the host's session are assumed to be the host's own, unchanged; forged or corrupted datagrams that still parse are outside the model.
- Players.ScheduledStreamPlayer.DataCallback: requires the cursor to stay below 2^64 over the callback.
