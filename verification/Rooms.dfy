/** core/src/Room.cpp and the connection lifecycle of desktop/src/ControlChannel.cpp: membership
    tokens shared by concurrent connections. Each call into the room takes its mutex once, so one
    call is one atomic step. */
module Rooms {
  import opened Numbers

  datatype PlaybackState = Stopped | Playing | Paused
  datatype ActionKind = Play | Pause | Seek | Stop
  datatype Action = Action(kind: ActionKind, effective: int, seekFrame: nat, nextStreamId: nat)

  /** `status` stands for the nine reported measurements. */
  datatype Member = Member(deviceId: string, address: string, audioPort: nat, token: nat, status: int)

  datatype Room = Room(
    members: map<string, Member>,
    nextToken: nat,
    streamId: nat,
    playback: PlaybackState,
    pending: Option<Action>,
    recent: Option<Action>)

  // ---- What each call does -------------------------------------------------------

  predicate JoinAccepted(deviceId: string, address: string, audioPort: nat) {
    deviceId != "" && address != "" && audioPort != 0
  }

  function Joined(r: Room, deviceId: string, address: string, audioPort: nat): Room {
    r.(members := r.members[deviceId := Member(deviceId, address, audioPort, r.nextToken, 0)],
       nextToken := r.nextToken + 1)
  }

  function Left(r: Room, deviceId: string, token: nat): Room {
    if deviceId in r.members && r.members[deviceId].token == token
    then r.(members := r.members - {deviceId}) else r
  }

  function Updated(r: Room, m: Member): Room {
    if m.deviceId in r.members && r.members[m.deviceId].token == m.token
    then r.(members := r.members[m.deviceId := m]) else r
  }

  predicate ActionAccepted(a: Action) {
    a.effective > 0 && a.nextStreamId != 0
  }

  function Scheduled(r: Room, a: Action): Room {
    if r.pending.Some? then r else r.(pending := Some(a))
  }

  function Taken(r: Room): Room {
    if r.pending.Some? then r.(recent := r.pending, pending := None) else r
  }

  class SharedRoom {
    var members: map<string, Member>
    var nextMembershipToken: nat
    var streamId: nat
    var playbackState: PlaybackState
    var pendingAction: Option<Action>
    var recentAction: Option<Action>

    ghost function Value(): Room
      reads this
    {
      Room(members, nextMembershipToken, streamId, playbackState, pendingAction, recentAction)
    }

    constructor (stream: nat)
      requires stream != 0
      ensures Value() == Room(map[], 1, stream, Stopped, None, None)
    {
      members, nextMembershipToken, streamId := map[], 1, stream;
      playbackState, pendingAction, recentAction := Stopped, None, None;
    }

    method Join(deviceId: string, address: string, audioPort: nat) returns (token: Result<nat>)
      modifies this
      ensures token == if JoinAccepted(deviceId, address, audioPort) then Ok(old(nextMembershipToken)) else Err
      ensures Value() == if token.Ok? then Joined(old(Value()), deviceId, address, audioPort) else old(Value())
      ensures token.Err? <==> deviceId == "" || address == "" || audioPort == 0
      ensures token.Ok? ==>
                && token.value == old(nextMembershipToken) && nextMembershipToken == token.value + 1
                && members == old(members)[deviceId := Member(deviceId, address, audioPort, token.value, 0)]
                && (streamId, playbackState, pendingAction, recentAction)
                   == old((streamId, playbackState, pendingAction, recentAction))
    {
      if deviceId == "" || address == "" || audioPort == 0 {
        return Err;
      }
      var next := nextMembershipToken;
      nextMembershipToken := nextMembershipToken + 1;
      members := members[deviceId := Member(deviceId, address, audioPort, next, 0)];
      return Ok(next);
    }

    method Leave(deviceId: string, token: nat)
      modifies this
      ensures Value() == Left(old(Value()), deviceId, token)
      ensures deviceId in members <==> deviceId in old(members) && old(members)[deviceId].token != token
      ensures members - {deviceId} == old(members) - {deviceId}
      ensures deviceId in members ==> members[deviceId] == old(members)[deviceId]
    {
      if deviceId in members && members[deviceId].token == token {
        members := members - {deviceId};
      }
    }

    method UpdateMember(m: Member) returns (updated: bool)
      modifies this
      ensures Value() == Updated(old(Value()), m)
      ensures updated <==> m.deviceId in old(members) && old(members)[m.deviceId].token == m.token
      ensures members == if updated then old(members)[m.deviceId := m] else old(members)
      ensures nextMembershipToken == old(nextMembershipToken) && pendingAction == old(pendingAction)
    {
      if m.deviceId !in members || members[m.deviceId].token != m.token {
        return false;
      }
      members := members[m.deviceId := m];
      return true;
    }

    method SetPlaybackState(state: PlaybackState)
      modifies this
      ensures Value() == old(Value()).(playback := state)
    {
      playbackState := state;
    }

    method SetStreamId(stream: nat) returns (r: Result<()>)
      modifies this
      ensures r == if stream == 0 then Err else Ok(())
      ensures Value() == if stream == 0 then old(Value()) else old(Value()).(streamId := stream)
    {
      if stream == 0 {
        return Err;
      }
      streamId := stream;
      r := Ok(());
    }

    method ScheduleAction(a: Action) returns (scheduled: Result<bool>)
      modifies this
      ensures scheduled == if !ActionAccepted(a) then Err else Ok(old(pendingAction).None?)
      ensures Value() == if ActionAccepted(a) then Scheduled(old(Value()), a) else old(Value())
      ensures scheduled.Err? <==> a.effective <= 0 || a.nextStreamId == 0
      ensures pendingAction == if scheduled == Ok(true) then Some(a) else old(pendingAction)
      ensures recentAction == old(recentAction) && members == old(members)
    {
      if a.effective <= 0 || a.nextStreamId == 0 {
        return Err;
      }
      if pendingAction.Some? {
        return Ok(false);
      }
      pendingAction := Some(a);
      return Ok(true);
    }

    method TakeAction() returns (a: Option<Action>)
      modifies this
      ensures a == old(pendingAction) && Value() == Taken(old(Value()))
      ensures pendingAction.None? && recentAction == if a.Some? then a else old(recentAction)
      ensures members == old(members) && streamId == old(streamId) && playbackState == old(playbackState)
    {
      a := pendingAction;
      if a.Some? {
        recentAction := a;
      }
      pendingAction := None;
    }
  }

  // ---- Connections ------------------------------------------------------------------

  /** The locals of one `serveClient` thread. `joining` marks the moment inside JOIN between
      leaving the old membership and entering the new one; `report` the copy that CLIENT_STATE
      took from the snapshot and has not written back yet. */
  datatype Connection = Connection(peer: string, device: string, token: nat, joining: Option<string>,
                                   report: Option<Member>)

  datatype System = System(room: Room, connections: map<nat, Connection>, audioPort: nat)

  datatype Event =
    | Accept(id: nat, peer: string)
    | LeaveOld(id: nat, device: string)
    | EnterNew(id: nat)
    | TakeSnapshot(id: nat, status: int)
    | WriteBack(id: nat)
    | Close(id: nat)

  predicate Between(c: Connection) {
    c.joining.None? && c.report.None?
  }

  predicate Enabled(s: System, e: Event) {
    match e
    case Accept(id, peer) => id !in s.connections && peer != ""
    case LeaveOld(id, device) => id in s.connections && Between(s.connections[id]) && device != ""
    case EnterNew(id) => id in s.connections && s.connections[id].joining.Some?
    case TakeSnapshot(id, _) => id in s.connections && Between(s.connections[id])
    case WriteBack(id) => id in s.connections && s.connections[id].report.Some?
    case Close(id) => id in s.connections && Between(s.connections[id])
  }

  function LeaveIfJoined(r: Room, c: Connection): Room {
    if c.device != "" then Left(r, c.device, c.token) else r
  }

  function Step(s: System, e: Event): System
    requires Enabled(s, e)
  {
    match e
    case Accept(id, peer) => s.(connections := s.connections[id := Connection(peer, "", 0, None, None)])
    case LeaveOld(id, device) =>
      var c := s.connections[id];
      s.(room := LeaveIfJoined(s.room, c), connections := s.connections[id := c.(joining := Some(device))])
    case EnterNew(id) =>
      var c := s.connections[id];
      var device := c.joining.value;
      s.(room := Joined(s.room, device, c.peer, s.audioPort),
         connections := s.connections[id := Connection(c.peer, device, s.room.nextToken, None, None)])
    case TakeSnapshot(id, status) =>
      var c := s.connections[id];
      if c.device != "" && c.device in s.room.members && s.room.members[c.device].token == c.token
      then s.(connections := s.connections[id := c.(report := Some(s.room.members[c.device].(status := status)))])
      else s
    case WriteBack(id) =>
      var c := s.connections[id];
      s.(room := Updated(s.room, c.report.value), connections := s.connections[id := c.(report := None)])
    case Close(id) =>
      s.(room := LeaveIfJoined(s.room, s.connections[id]), connections := s.connections - {id})
  }

  predicate ValidDeviceId(id: string) {
    0 < |id| <= 64
    && forall c :: c in id ==> '0' <= c <= '9' || 'A' <= c <= 'Z' || 'a' <= c <= 'z' || c == '-' || c == '_'
  }

  /** Every member is stored under its own device; the room keeps this because it owns all its
      members (`EveryMemberOwned` below). */
  ghost predicate Keyed(r: Room) {
    forall device :: device in r.members ==> r.members[device].deviceId == device
  }

  datatype Reply = Welcome | InvalidDeviceId | Okay | NotJoined

  /** The locals and the room-facing commands of one `serveClient` thread, when nothing comes
      between the steps of a command. */
  class ClientConnection {
    const room: SharedRoom
    const peerAddress: string
    const audioPort: nat
    var joinedDeviceId: string
    var membershipToken: nat

    /** This connection alone with the room; a step of it leaves the others' locals alone. */
    ghost function Value(): System
      reads this, room
    {
      System(room.Value(), map[0 := Connection(peerAddress, joinedDeviceId, membershipToken, None, None)], audioPort)
    }

    constructor (shared: SharedRoom, peer: string, port: nat)
      requires peer != "" && port != 0
      ensures room == shared && peerAddress == peer && audioPort == port
      ensures Value() == Step(System(shared.Value(), map[], port), Accept(0, peer))
    {
      room, peerAddress, audioPort := shared, peer, port;
      joinedDeviceId, membershipToken := "", 0;
    }

    method Join(deviceId: string) returns (reply: Reply)
      requires peerAddress != "" && audioPort != 0
      modifies this, room
      ensures reply == if ValidDeviceId(deviceId) then Welcome else InvalidDeviceId
      ensures reply == Welcome ==>
                && joinedDeviceId == deviceId && membershipToken == old(room.nextMembershipToken)
                && deviceId in room.members
                && room.members[deviceId] == Member(deviceId, peerAddress, audioPort, membershipToken, 0)
                && (forall d :: d in room.members && d != deviceId ==>
                      d in old(room.members) && room.members[d] == old(room.members)[d])
                && (forall d :: d in old(room.members) && d !in room.members ==>
                      d == old(joinedDeviceId) && old(room.members)[d].token == old(membershipToken))
      ensures reply == InvalidDeviceId ==> room.members == old(room.members) && joinedDeviceId == old(joinedDeviceId)
      ensures Value() == if ValidDeviceId(deviceId) then Step(Step(old(Value()), LeaveOld(0, deviceId)), EnterNew(0))
                         else old(Value())
    {
      if !ValidDeviceId(deviceId) {
        return InvalidDeviceId;
      }
      if joinedDeviceId != "" {
        room.Leave(joinedDeviceId, membershipToken);
      }
      var token := room.Join(deviceId, peerAddress, audioPort);
      membershipToken := token.value;
      joinedDeviceId := deviceId;
      return Welcome;
    }

    method ClientState(status: int) returns (reply: Reply)
      requires Keyed(room.Value())
      modifies room
      ensures Keyed(room.Value())
      ensures var reported := Step(old(Value()), TakeSnapshot(0, status));
              if reported.connections[0].report.Some?
              then reply == Okay && Value() == Step(reported, WriteBack(0))
              else reply == NotJoined && Value() == old(Value())
      ensures reply == Okay <==> && joinedDeviceId != "" && joinedDeviceId in old(room.members)
                                 && old(room.members)[joinedDeviceId].token == membershipToken
      ensures reply == Okay ==>
                && room.members
                   == old(room.members)[joinedDeviceId := old(room.members)[joinedDeviceId].(status := status)]
                && room.nextMembershipToken == old(room.nextMembershipToken)
    {
      if joinedDeviceId == "" {
        return NotJoined;
      }
      var members := room.members;
      if joinedDeviceId !in members || members[joinedDeviceId].token != membershipToken {
        return NotJoined;
      }
      var updated := room.UpdateMember(members[joinedDeviceId].(status := status));
      reply := if updated then Okay else NotJoined;
    }

    method HangUp()
      modifies room
      ensures room.Value() == Step(old(Value()), Close(0)).room
      ensures room.members - {joinedDeviceId} == old(room.members) - {joinedDeviceId}
      ensures joinedDeviceId != "" && joinedDeviceId in room.members ==>
                room.members[joinedDeviceId].token != membershipToken
    {
      if joinedDeviceId != "" {
        room.Leave(joinedDeviceId, membershipToken);
      }
    }
  }

  /** The connection holds the membership of `device` and its endpoint is the one it joined with. */
  ghost predicate Owns(s: System, id: nat, device: string) {
    && id in s.connections && device in s.room.members
    && s.connections[id].joining.None?
    && s.connections[id].device == device && s.connections[id].token == s.room.members[device].token
    && s.room.members[device].deviceId == device
    && s.room.members[device].address == s.connections[id].peer
    && s.room.members[device].audioPort == s.audioPort
  }

  ghost predicate TokensFresh(s: System) {
    forall id :: id in s.connections && s.connections[id].device != "" ==> s.connections[id].token < s.room.nextToken
  }

  ghost predicate TokensDistinct(s: System) {
    forall i, j :: i in s.connections && j in s.connections && i != j
                   && s.connections[i].device != "" && s.connections[j].device != ""
                   ==> s.connections[i].token != s.connections[j].token
  }

  ghost predicate ReportsMatch(s: System) {
    forall id :: id in s.connections && s.connections[id].report.Some? ==>
      var c := s.connections[id];
      var m := c.report.value;
      && c.device != "" && c.joining.None?
      && m.deviceId == c.device && m.token == c.token && m.address == c.peer && m.audioPort == s.audioPort
  }

  ghost predicate EveryMemberOwned(s: System) {
    forall device :: device in s.room.members ==> device != "" && exists id :: Owns(s, id, device)
  }

  ghost predicate NamesPresent(s: System) {
    forall id :: id in s.connections ==>
      s.connections[id].peer != "" && (s.connections[id].joining.Some? ==> s.connections[id].joining.value != "")
  }

  ghost predicate Valid(s: System) {
    && s.audioPort != 0 && NamesPresent(s)
    && TokensFresh(s) && TokensDistinct(s) && ReportsMatch(s) && EveryMemberOwned(s)
  }

  /** At most one connection can own a membership. */
  lemma OwnerIsUnique(s: System, i: nat, j: nat, device: string)
    requires Valid(s) && Owns(s, i, device) && Owns(s, j, device)
    ensures i == j
  {
  }

  lemma AcceptKeeps(s: System, id: nat, peer: string)
    requires Valid(s) && Enabled(s, Accept(id, peer))
    ensures Valid(Step(s, Accept(id, peer)))
  {
    var t := Step(s, Accept(id, peer));
    forall d | d in t.room.members
      ensures d != "" && exists i :: Owns(t, i, d)
    {
      var i :| Owns(s, i, d);
      assert Owns(t, i, d);
    }
  }

  lemma LeaveOldKeeps(s: System, id: nat, device: string)
    requires Valid(s) && Enabled(s, LeaveOld(id, device))
    ensures Valid(Step(s, LeaveOld(id, device)))
  {
    var t := Step(s, LeaveOld(id, device));
    forall d | d in t.room.members
      ensures d != "" && exists i :: Owns(t, i, d)
    {
      var i :| Owns(s, i, d);
      assert i != id;
      assert Owns(t, i, d);
    }
  }

  lemma EnterNewKeeps(s: System, id: nat)
    requires Valid(s) && Enabled(s, EnterNew(id))
    ensures JoinAccepted(s.connections[id].joining.value, s.connections[id].peer, s.audioPort)
    ensures Valid(Step(s, EnterNew(id)))
    ensures Owns(Step(s, EnterNew(id)), id, s.connections[id].joining.value)
  {
    var t, device := Step(s, EnterNew(id)), s.connections[id].joining.value;
    assert Owns(t, id, device);
    forall d | d in t.room.members
      ensures d != "" && exists i :: Owns(t, i, d)
    {
      if d != device {
        var i :| Owns(s, i, d);
        assert Owns(t, i, d);
      }
    }
  }

  lemma TakeSnapshotKeeps(s: System, id: nat, status: int)
    requires Valid(s) && Enabled(s, TakeSnapshot(id, status))
    ensures Valid(Step(s, TakeSnapshot(id, status)))
  {
    var t := Step(s, TakeSnapshot(id, status));
    var c := s.connections[id];
    if c.device != "" && c.device in s.room.members && s.room.members[c.device].token == c.token {
      var j :| Owns(s, j, c.device);
      assert j == id;
    }
    forall d | d in t.room.members
      ensures d != "" && exists i :: Owns(t, i, d)
    {
      var i :| Owns(s, i, d);
      assert Owns(t, i, d);
    }
  }

  lemma WriteBackKeeps(s: System, id: nat)
    requires Valid(s) && Enabled(s, WriteBack(id))
    ensures Valid(Step(s, WriteBack(id)))
  {
    var t := Step(s, WriteBack(id));
    forall d | d in t.room.members
      ensures d != "" && exists i :: Owns(t, i, d)
    {
      var i :| Owns(s, i, d);
      assert Owns(t, i, d);
    }
  }

  lemma CloseKeeps(s: System, id: nat)
    requires Valid(s) && Enabled(s, Close(id))
    ensures Valid(Step(s, Close(id)))
  {
    var t := Step(s, Close(id));
    forall d | d in t.room.members
      ensures d != "" && exists i :: Owns(t, i, d)
    {
      var i :| Owns(s, i, d);
      assert i != id;
      assert Owns(t, i, d);
    }
  }

  lemma StepKeepsValid(s: System, e: Event)
    requires Valid(s) && Enabled(s, e)
    ensures Valid(Step(s, e))
  {
    hide Valid, Step;
    match e
    case Accept(id, peer) => AcceptKeeps(s, id, peer);
    case LeaveOld(id, device) => LeaveOldKeeps(s, id, device);
    case EnterNew(id) => EnterNewKeeps(s, id);
    case TakeSnapshot(id, status) => TakeSnapshotKeeps(s, id, status);
    case WriteBack(id) => WriteBackKeeps(s, id);
    case Close(id) => CloseKeeps(s, id);
  }

  // ---- Whole runs -----------------------------------------------------------------

  function Initial(stream: nat, audioPort: nat): System {
    System(Room(map[], 1, stream, Stopped, None, None), map[], audioPort)
  }

  predicate Feasible(s: System, es: seq<Event>)
    decreases es
  {
    es == [] || (Enabled(s, es[0]) && Feasible(Step(s, es[0]), es[1..]))
  }

  function Run(s: System, es: seq<Event>): System
    requires Feasible(s, es)
    decreases es
  {
    if es == [] then s else Run(Step(s, es[0]), es[1..])
  }

  lemma {:induction false} RunKeepsValid(s: System, es: seq<Event>)
    requires Valid(s) && Feasible(s, es)
    ensures Valid(Run(s, es)) && Run(s, es).audioPort == s.audioPort
    decreases es
  {
    if es != [] {
      StepKeepsValid(s, es[0]);
      RunKeepsValid(Step(s, es[0]), es[1..]);
    }
  }

  /** A connection that has closed takes no further part, and owns nothing, until its number is given out again. */
  lemma ClosedTakesNoPart(s: System, id: nat, es: seq<Event>)
    requires Enabled(s, Close(id)) && Feasible(Step(s, Close(id)), es)
    requires forall e :: e in es ==> !(e.Accept? && e.id == id)
    ensures id !in Run(Step(s, Close(id)), es).connections
    ensures forall e :: e in es ==> e.id != id
  {
    StaysOut(Step(s, Close(id)), id, es);
  }

  lemma {:induction false} StaysOut(s: System, id: nat, es: seq<Event>)
    requires id !in s.connections && Feasible(s, es) && forall e :: e in es ==> !(e.Accept? && e.id == id)
    ensures id !in Run(s, es).connections && forall e :: e in es ==> e.id != id
    decreases es
  {
    if es != [] {
      assert es[0] in es && forall e :: e in es ==> e == es[0] || e in es[1..];
      StaysOut(Step(s, es[0]), id, es[1..]);
    }
  }

  lemma MembersNeedConnections(s: System)
    requires Valid(s) && s.room.members != map[]
    ensures s.connections != map[]
  {
    var device :| device in s.room.members;
    var id :| Owns(s, id, device);
    assert id in s.connections;
  }

  /** In every interleaving, each membership is owned by exactly one live connection, at the
      endpoint that connection joined from, and a room without connections is empty. */
  lemma EveryMembershipHasOneOwner(stream: nat, audioPort: nat, es: seq<Event>)
    requires audioPort != 0 && Feasible(Initial(stream, audioPort), es)
    ensures var s := Run(Initial(stream, audioPort), es);
            && (forall device :: device in s.room.members ==> exists id :: Owns(s, id, device))
            && (forall device, i, j :: Owns(s, i, device) && Owns(s, j, device) ==> i == j)
            && (s.connections == map[] ==> s.room.members == map[])
  {
    var s := Run(Initial(stream, audioPort), es);
    RunKeepsValid(Initial(stream, audioPort), es);
    forall device, i, j | Owns(s, i, device) && Owns(s, j, device)
      ensures i == j
    {
      OwnerIsUnique(s, i, j, device);
    }
    if s.room.members != map[] {
      MembersNeedConnections(s);
    }
  }

  /** A step of one connection leaves alone every membership that another connection owns,
      unless that step is a join taking the device over; and no step but a join creates one.
      So a late leave or a late status report never reaches a newer membership. */
  lemma OnlyTheOwnerTouches(s: System, e: Event, owner: nat, device: string)
    requires Valid(s) && Enabled(s, e) && Owns(s, owner, device)
    requires e.id != owner
    requires e.EnterNew? ==> s.connections[e.id].joining.value != device
    ensures Owns(Step(s, e), owner, device)
    ensures Step(s, e).room.members[device] == s.room.members[device]
  {
  }

  /** A new membership is entered only by a join, with a token no connection has held before. */
  lemma OnlyJoinCreates(s: System, e: Event, device: string)
    requires Valid(s) && Enabled(s, e)
    requires device in Step(s, e).room.members
    requires device !in s.room.members || Step(s, e).room.members[device].token != s.room.members[device].token
    ensures e.EnterNew? && Owns(Step(s, e), e.id, device)
    ensures forall id :: id in s.connections && s.connections[id].device != "" ==>
              s.connections[id].token < Step(s, e).room.members[device].token
  {
    if e.EnterNew? {
      EnterNewKeeps(s, e.id);
    }
  }

  // ---- What a membership shows ---------------------------------------------------------

  /** The connection still holds an entry of the room. */
  predicate Holds(s: System, id: nat) {
    && id in s.connections && s.connections[id].joining.None? && s.connections[id].device in s.room.members
    && s.room.members[s.connections[id].device].token == s.connections[id].token
  }

  /** What a connection has reported: the status it last took into a report that it wrote back since it entered;
      a report is taken only while the entry is held. `taken` is the report under way. */
  function Reported(s: System, es: seq<Event>, id: nat, shown: int, taken: int): int
    requires Feasible(s, es)
    decreases es
  {
    if es == [] then shown
    else
      var e, t := es[0], Step(s, es[0]);
      if e == EnterNew(id) then Reported(t, es[1..], id, 0, taken)
      else if e == WriteBack(id) then Reported(t, es[1..], id, taken, taken)
      else if e.TakeSnapshot? && e.id == id && Holds(s, id) then Reported(t, es[1..], id, shown, e.status)
      else Reported(t, es[1..], id, shown, taken)
  }

  ghost predicate Shows(s: System, id: nat, shown: int, taken: int) {
    && (Holds(s, id) ==> s.room.members[s.connections[id].device].status == shown)
    && (id in s.connections && s.connections[id].report.Some? ==> s.connections[id].report.value.status == taken)
  }

  /** After the step, what the connection shows and has under way. */
  lemma ShowsStep(s: System, e: Event, id: nat, shown: int, taken: int)
    requires Valid(s) && Enabled(s, e) && Shows(s, id, shown, taken)
    ensures var now := if e == EnterNew(id) then 0 else if e == WriteBack(id) then taken else shown;
            var next := if e.TakeSnapshot? && e.id == id && Holds(s, id) then e.status else taken;
            Shows(Step(s, e), id, now, next)
  {
    var t := Step(s, e);
    if Holds(t, id) && e.id != id {
      var device := t.connections[id].device;
      assert t.connections[id] == s.connections[id];
      HeldSinceBefore(s, e, id);
    }
  }

  /** Only its own join gives a connection an entry, and no step of another changes it. */
  lemma HeldSinceBefore(s: System, e: Event, id: nat)
    requires Valid(s) && Enabled(s, e) && e.id != id && Holds(Step(s, e), id)
    ensures Holds(s, id) && s.connections[id] == Step(s, e).connections[id]
    ensures Step(s, e).room.members[s.connections[id].device] == s.room.members[s.connections[id].device]
  {
    var t := Step(s, e);
    var device := t.connections[id].device;
    assert t.connections[id] == s.connections[id];
    if device in s.room.members && s.room.members[device].token == t.room.members[device].token {
      var owner :| Owns(s, owner, device);
      assert owner == id;
      OnlyTheOwnerTouches(s, e, id, device);
    } else {
      OnlyJoinCreates(s, e, device);
    }
  }

  /** Over every run: an entry that a connection still holds shows the status of the last report that the
      connection wrote back under that entry, zero before the first; its device, endpoint and token are those
      of its join (`EveryMembershipHasOneOwner`). */
  lemma {:induction false} EntryShowsLastReport(s: System, es: seq<Event>, id: nat, shown: int, taken: int)
    requires Valid(s) && Feasible(s, es) && Shows(s, id, shown, taken)
    ensures Holds(Run(s, es), id) ==>
              Run(s, es).room.members[Run(s, es).connections[id].device].status == Reported(s, es, id, shown, taken)
    decreases es
  {
    hide Valid, Step, Enabled, Holds;
    if es != [] {
      var e := es[0];
      StepKeepsValid(s, e);
      ShowsStep(s, e, id, shown, taken);
      var now := if e == EnterNew(id) then 0 else if e == WriteBack(id) then taken else shown;
      var next := if e.TakeSnapshot? && e.id == id && Holds(s, id) then e.status else taken;
      hide Shows;
      EntryShowsLastReport(Step(s, e), es[1..], id, now, next);
    } else if Holds(s, id) {
      ShownIs(s, id, shown, taken);
    }
  }

  lemma ShownIs(s: System, id: nat, shown: int, taken: int)
    requires Shows(s, id, shown, taken) && Holds(s, id)
    ensures s.room.members[s.connections[id].device].status == shown
  {
  }

  /** A report reaches the room: taken while the entry is held and written back before any takeover, it changes
      the status of that entry and nothing else in the room. */
  lemma ReportReachesRoom(s: System, id: nat, status: int, between: seq<Event>)
    requires Valid(s) && Enabled(s, TakeSnapshot(id, status)) && Holds(s, id) && s.connections[id].device != ""
    requires Feasible(Step(s, TakeSnapshot(id, status)), between) && forall e :: e in between ==> e.id != id
    requires var t := Run(Step(s, TakeSnapshot(id, status)), between); Enabled(t, WriteBack(id)) && Holds(t, id)
    ensures var t := Run(Step(s, TakeSnapshot(id, status)), between);
            var device := s.connections[id].device;
            && device in t.room.members
            && Step(t, WriteBack(id)).room
               == t.room.(members := t.room.members[device := t.room.members[device].(status := status)])
  {
    hide Valid, Enabled;
    var u := Step(s, TakeSnapshot(id, status));
    StepKeepsValid(s, TakeSnapshot(id, status));
    OthersLeave(u, between, id);
    RunKeepsValid(u, between);
    ReportIsWritten(Run(u, between), id, status);
  }

  /** The connection's locals are its own. */
  lemma {:induction false} OthersLeave(s: System, es: seq<Event>, id: nat)
    requires Feasible(s, es) && id in s.connections && forall e :: e in es ==> e.id != id
    ensures id in Run(s, es).connections && Run(s, es).connections[id] == s.connections[id]
    decreases es
  {
    if es != [] {
      assert es[0] in es && forall e :: e in es[1..] ==> e in es;
      OthersLeave(Step(s, es[0]), es[1..], id);
    }
  }

  lemma ReportIsWritten(t: System, id: nat, status: int)
    requires Valid(t) && Enabled(t, WriteBack(id)) && Holds(t, id) && t.connections[id].report.value.status == status
    ensures var device := t.connections[id].device;
            Step(t, WriteBack(id)).room
            == t.room.(members := t.room.members[device := t.room.members[device].(status := status)])
  {
    var device := t.connections[id].device;
    var owner :| Owns(t, owner, device);
    assert owner == id;
  }

  // ---- Connections that lost their membership ----------------------------------------

  /** The connection joined, and its entry has since gone or belongs to a newer join. */
  predicate Stale(s: System, id: nat) {
    && id in s.connections && s.connections[id].device != "" && s.connections[id].joining.None?
    && (var c := s.connections[id]; c.device in s.room.members ==> s.room.members[c.device].token != c.token)
  }

  /** The steps by which a connection gives up its membership. */
  predicate LeavesOrCloses(e: Event, id: nat) {
    e == Close(id) || (e.LeaveOld? && e.id == id)
  }

  /** A join for the same device by another connection makes the owner stale. */
  lemma TakeoverMakesStale(s: System, owner: nat, id: nat, device: string)
    requires Valid(s) && Owns(s, owner, device) && id != owner
    requires Enabled(s, EnterNew(id)) && s.connections[id].joining == Some(device)
    ensures Stale(Step(s, EnterNew(id)), owner)
    ensures Owns(Step(s, EnterNew(id)), id, device)
  {
    EnterNewKeeps(s, id);
  }

  lemma StaleStays(s: System, e: Event, id: nat)
    requires Valid(s) && Enabled(s, e) && Stale(s, id) && !LeavesOrCloses(e, id)
    ensures Stale(Step(s, e), id)
  {
  }

  /** A connection that lost its membership never gets it back by accident: after any run in which
      it did not leave or close, its late leave, its closing and its late status report all find
      the room without a membership of theirs and change nothing. */
  lemma {:induction false} StaleConnectionIsIdle(s: System, es: seq<Event>, id: nat, e: Event)
    requires Valid(s) && Feasible(s, es) && Stale(s, id)
    requires forall x :: x in es ==> !LeavesOrCloses(x, id)
    requires Enabled(Run(s, es), e) && e.id == id
    ensures Stale(Run(s, es), id)
    ensures Step(Run(s, es), e).room == Run(s, es).room
    decreases es
  {
    if es == [] {
      OwnStepIsIdle(s, e);
    } else {
      assert es[0] in es;
      StepKeepsValid(s, es[0]);
      StaleStays(s, es[0], id);
      StaleConnectionIsIdle(Step(s, es[0]), es[1..], id, e);
    }
  }

  lemma OwnStepIsIdle(s: System, e: Event)
    requires Valid(s) && Enabled(s, e) && Stale(s, e.id)
    ensures Step(s, e).room == s.room
  {
  }
}
