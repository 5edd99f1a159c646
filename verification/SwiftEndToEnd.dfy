/** From the host's source to what the iOS client plays: the datagram parser and session filter
    (ios/SyncAudioReceiver/UDPStreamReceiver.swift), the sequence window that decides which packets
    are let through (ReceiverSnapshot.swift) and the playback queue (PacketPlaybackQueue.swift). */
module SwiftEndToEnd {
  import opened Numbers
  import opened SwiftLoss
  import opened SwiftQueue
  import ArrivalOrder
  import EndToEnd
  import Host
  import JB = JitterBuffers
  import Rooms
  import Wire

  // ---- The receiver -----------------------------------------------------------------

  datatype Client = Client(session: nat, stream: nat, format: Option<(nat, nat)>, accounting: Accounting, queue: Queue)

  function NewClient(session: nat, stream: nat): Client {
    Client(session, stream, None, SwiftLoss.FRESH, SwiftQueue.EMPTY)
  }

  /** One datagram. Only packets that `record` returns true for go on to the queue. */
  ghost function Receive(c: Client, d: seq<u8>): Client {
    match Wire.SwiftParse(d)
    case None => c
    case Some(p) =>
      if p.sessionId != c.session || p.streamId != c.stream then c
      else if c.format.Some? && c.format.value != (p.sampleRate, p.channels) then c
      else
        var (accounting, recorded) := Record(c.accounting, p.sequenceNumber);
        if recorded
        then c.(accounting := accounting, format := Some((p.sampleRate, p.channels)), queue := Insert(c.queue, p).0)
        else c.(accounting := accounting)
  }

  ghost function ReceiveAll(c: Client, ds: seq<seq<u8>>): Client {
    if ds == [] then c else Receive(ReceiveAll(c, ds[..|ds| - 1]), ds[|ds| - 1])
  }

  /** Whatever arrives, all queued packets are of the one session and stream the client was told of, and of the
      format of the first packet it let through. */
  ghost predicate OfOneFormat(c: Client) {
    forall k :: k in c.queue.packets ==>
      var p := c.queue.packets[k];
      p.sessionId == c.session && p.streamId == c.stream && c.format == Some((p.sampleRate as nat, p.channels as nat))
  }

  lemma ReceiveKeepsFormat(c: Client, d: seq<u8>)
    requires OfOneFormat(c)
    ensures var after := Receive(c, d);
            && OfOneFormat(after) && after.session == c.session && after.stream == c.stream
            && (c.format.Some? ==> after.format == c.format)
  {
    hide Wire.SwiftParse, Record, Insert;
    if Wire.SwiftParse(d).Some? {
      InsertHolds(c.queue, Wire.SwiftParse(d).value);
    }
  }

  lemma {:induction false} QueueIsOfOneFormat(session: nat, stream: nat, ds: seq<seq<u8>>)
    ensures var c := ReceiveAll(NewClient(session, stream), ds);
            OfOneFormat(c) && c.session == session && c.stream == stream
  {
    if ds != [] {
      QueueIsOfOneFormat(session, stream, ds[..|ds| - 1]);
      ReceiveKeepsFormat(ReceiveAll(NewClient(session, stream), ds[..|ds| - 1]), ds[|ds| - 1]);
    }
  }

  // ---- Which packets are let through ---------------------------------------------------

  ghost function NumbersOf(arrivals: seq<Wire.Packet>): set<nat> {
    set p | p in arrivals :: p.sequenceNumber as nat
  }

  /** The sequence accounting after some arrivals. */
  ghost function Books(arrivals: seq<Wire.Packet>): Accounting {
    if arrivals == [] then SwiftLoss.FRESH
    else Record(Books(arrivals[..|arrivals| - 1]), arrivals[|arrivals| - 1].sequenceNumber).0
  }

  /** `record` returned true for arrival `i`. */
  ghost predicate LetThrough(arrivals: seq<Wire.Packet>, i: nat)
    requires i < |arrivals|
  {
    Record(Books(arrivals[..i]), arrivals[i].sequenceNumber).1
  }

  /** The packets that `record` let through. */
  ghost function Admitted(arrivals: seq<Wire.Packet>): set<Wire.Packet> {
    if arrivals == [] then {}
    else
      var before, p := arrivals[..|arrivals| - 1], arrivals[|arrivals| - 1];
      Admitted(before) + (if Record(Books(before), p.sequenceNumber).1 then {p} else {})
  }

  /** The window has forgotten nothing yet. */
  ghost predicate Remembers(a: Accounting, seen: set<nat>) {
    && AccountingValid(a) && a.recent == seen && (a.highest.Some? ==> a.highest.value in seen)
    && forall n :: n in seen ==> n < U32_LIMIT
  }

  lemma {:induction false} DistinctSize(s: seq<nat>, elements: set<nat>)
    requires Distinct(s) && forall n :: n in elements <==> n in s
    ensures |elements| == |s|
  {
    if s != [] {
      var rest, last := s[..|s| - 1], s[|s| - 1];
      assert last !in rest;
      assert s == rest + [last];
      DistinctSize(rest, elements - {last});
      assert elements == (elements - {last}) + {last};
    } else {
      assert elements == {};
    }
  }

  lemma OrderSize(a: Accounting)
    requires AccountingValid(a)
    ensures |a.order| == |a.recent|
  {
    DistinctSize(a.order, a.recent);
  }

  /** While its window has forgotten nothing, `record` lets through exactly the numbers it has not seen; the
      window holds 4096. */
  lemma AdmittedIffNew(a: Accounting, seen: set<nat>, number: nat)
    requires Remembers(a, seen) && number < U32_LIMIT
    ensures Record(a, number).1 <==> number !in seen
    ensures |seen + {number}| <= WINDOW ==> Remembers(Record(a, number).0, seen + {number})
  {
    RecordKeeps(a, number);
    OrderSize(a);
    if number in seen {
      assert seen + {number} == seen;
    } else if a.highest.Some? {
      DifferentNumbers(number, a.highest.value);
    }
    hide AccountingValid, Skipped, Delta;
  }

  lemma DifferentNumbers(number: nat, highest: nat)
    requires number < U32_LIMIT && highest < U32_LIMIT && number != highest
    ensures Delta(number, highest) != 0
  {
  }

  // ---- What the queue holds ---------------------------------------------------------------

  /** The admitted packets from frame `c` on, under their start frames. */
  ghost predicate Keeps(packets: map<nat, Wire.SwiftPacket>, admitted: set<Wire.Packet>, c: nat) {
    && (forall k :: k in packets ==> KeptAs(packets, admitted, c, k))
    && (forall p :: p in admitted && c <= p.startFrame ==>
          p.startFrame in packets && packets[p.startFrame] == Wire.ToSwift(p))
  }

  ghost predicate KeptAs(packets: map<nat, Wire.SwiftPacket>, admitted: set<Wire.Packet>, c: nat, k: nat)
    requires k in packets
  {
    exists p :: p in admitted && c <= k == p.startFrame && packets[k] == Wire.ToSwift(p)
  }

  /** The packets of one stream whose start frames tell them apart. */
  ghost predicate Family(ps: seq<Wire.Packet>, session: nat, stream: nat, format: (nat, nat)) {
    && (forall p :: p in ps ==>
          && Wire.WellFormed(p) && p.sessionId == session && p.streamId == stream
          && p.sampleRate == format.0 && p.channelCount == format.1)
    && (forall p, q :: p in ps && q in ps && p.startFrame == q.startFrame ==> p == q)
  }

  ghost function Starts(ps: seq<Wire.Packet>): set<nat> {
    set p | p in ps :: p.startFrame as nat
  }

  lemma {:induction false} SetsAreSmall(ps: seq<Wire.Packet>)
    ensures |Starts(ps)| <= |ps| && |NumbersOf(ps)| <= |ps|
  {
    if ps != [] {
      var rest, p := ps[..|ps| - 1], ps[|ps| - 1];
      SetsAreSmall(rest);
      assert ps == rest + [p];
      NumbersStep(rest, p);
      assert Starts(ps) == Starts(rest) + {p.startFrame as nat};
      hide Starts, NumbersOf;
    }
  }

  /** The queue after some arrivals: every packet let through is inserted. */
  ghost function QueueOf(arrivals: seq<Wire.Packet>): Queue {
    if arrivals == [] then SwiftQueue.EMPTY
    else
      var before, p := arrivals[..|arrivals| - 1], arrivals[|arrivals| - 1];
      if Record(Books(before), p.sequenceNumber).1 then Insert(QueueOf(before), Wire.ToSwift(p)).0 else QueueOf(before)
  }

  /** What the client is after some arrivals of one stream. */
  ghost function After(c: Client, arrivals: seq<Wire.Packet>, format: (nat, nat)): Client {
    c.(format := if arrivals == [] then c.format else Some(format), accounting := Books(arrivals),
       queue := QueueOf(arrivals))
  }

  /** From the first arrival on the queue has what was let through. */
  ghost predicate Follows(c: Client, arrivals: seq<Wire.Packet>, format: (nat, nat)) {
    if arrivals == [] then QueueOf(arrivals) == SwiftQueue.EMPTY
    else
      && QueueOf(arrivals).cursor == Some(arrivals[0].startFrame as nat)
      && QueueOf(arrivals).stream == Some(Stream(c.session, c.stream, format.0, format.1))
      && Keeps(QueueOf(arrivals).packets, Admitted(arrivals), arrivals[0].startFrame)
  }

  lemma {:induction false} AdmittedArrived(arrivals: seq<Wire.Packet>)
    ensures forall p :: p in Admitted(arrivals) ==> p in arrivals
    ensures arrivals != [] ==> arrivals[0] in Admitted(arrivals)
  {
    if arrivals != [] {
      var before := arrivals[..|arrivals| - 1];
      AdmittedArrived(before);
      if before != [] {
        assert before[0] == arrivals[0];
      }
    }
  }

  lemma InsertKeptPacket(q: Queue, p: Wire.Packet, admitted: set<Wire.Packet>, c: nat, ps: seq<Wire.Packet>)
    requires q.cursor == Some(c) && q.stream == Some(StreamOf(Wire.ToSwift(p)))
    requires Keeps(q.packets, admitted, c) && p in ps && (forall x :: x in admitted ==> x in ps)
    requires |ps| <= SwiftQueue.MAXIMUM_PACKETS
    requires forall x, y :: x in ps && y in ps && x.startFrame == y.startFrame ==> x == y
    ensures var t := Insert(q, Wire.ToSwift(p)).0;
            t.cursor == q.cursor && t.stream == q.stream && Keeps(t.packets, admitted + {p}, c)
  {
    var s := Wire.ToSwift(p);
    if c <= p.startFrame {
      var t := Put(q, s);
      forall k | k in t.packets
        ensures KeptAs(t.packets, admitted + {p}, c, k)
      {
        if k != p.startFrame {
          assert KeptAs(q.packets, admitted, c, k);
        } else {
          assert p in admitted + {p};
        }
      }
      forall k | k in t.packets
        ensures k in Starts(ps)
      {
        assert KeptAs(t.packets, admitted + {p}, c, k);
      }
      SetsAreSmall(ps);
      ArrivalOrder.SubsetSize(t.packets.Keys, Starts(ps));
    } else {
      forall k | k in q.packets
        ensures KeptAs(q.packets, admitted + {p}, c, k)
      {
        assert KeptAs(q.packets, admitted, c, k);
      }
    }
  }

  lemma FirstInsert(p: Wire.Packet)
    ensures var t := Insert(SwiftQueue.EMPTY, Wire.ToSwift(p)).0;
            && t.cursor == Some(p.startFrame as nat) && t.stream == Some(StreamOf(Wire.ToSwift(p)))
            && Keeps(t.packets, {p}, p.startFrame)
  {
    var t := Put(SwiftQueue.EMPTY.(stream := Some(StreamOf(Wire.ToSwift(p)))), Wire.ToSwift(p));
    assert t.packets == map[p.startFrame as nat := Wire.ToSwift(p)];
    assert t.packets.Keys == {p.startFrame as nat};
    assert |t.packets| == 1;
    assert KeptAs(t.packets, {p}, p.startFrame, p.startFrame);
  }

  /** After any arrivals of a stream, of any length, repeats and reordering included: the client has recorded
      every packet, and inserted exactly those that were let through. */
  lemma {:induction false} ClientRecords(c: Client, arrivals: seq<Wire.Packet>, ps: seq<Wire.Packet>,
                                         format: (nat, nat))
    requires c == NewClient(c.session, c.stream) && Family(ps, c.session, c.stream, format)
    requires forall p :: p in arrivals ==> p in ps
    ensures ReceiveAll(c, EndToEnd.Datagrams(arrivals)) == After(c, arrivals, format)
  {
    hide Wire.WellFormed, Wire.Encode, Wire.SwiftParse, Receive, Family, Record, Insert, Wire.ToSwift;
    if arrivals != [] {
      var before, p := arrivals[..|arrivals| - 1], arrivals[|arrivals| - 1];
      ClientRecords(c, before, ps, format);
      FamilyMember(ps, p, c.session, c.stream, format);
      Wire.SwiftReadsHostPackets(p);
      Wire.DecodeEncode(p);
      var ds := EndToEnd.Datagrams(arrivals);
      assert ds[..|ds| - 1] == EndToEnd.Datagrams(before) && ds[|ds| - 1] == Wire.Encode(p).value;
      ReceiveIs(After(c, before, format), p, format);
      FirstIsLetThrough(p.sequenceNumber);
    }
  }

  lemma FirstIsLetThrough(number: nat)
    ensures Record(SwiftLoss.FRESH, number).1
  {
  }

  lemma ReceiveIs(c: Client, p: Wire.Packet, format: (nat, nat))
    requires c.format.None? || c.format == Some(format)
    requires p.sessionId == c.session && p.streamId == c.stream
             && (p.sampleRate as nat, p.channelCount as nat) == format
    requires Wire.Encode(p).Ok? && Wire.SwiftParse(Wire.Encode(p).value) == Some(Wire.ToSwift(p))
    ensures var (accounting, recorded) := Record(c.accounting, p.sequenceNumber);
            Receive(c, Wire.Encode(p).value)
            == if recorded
               then c.(accounting := accounting, format := Some(format), queue := Insert(c.queue, Wire.ToSwift(p)).0)
               else c.(accounting := accounting)
  {
    hide Wire.WellFormed, Wire.Encode, Wire.SwiftParse, Record, Insert;
  }

  /** With room for the whole stretch the queue holds what was let through, from the first arrival's start
      frame on. */
  lemma {:induction false} ClientFollows(c: Client, arrivals: seq<Wire.Packet>, ps: seq<Wire.Packet>,
                                         format: (nat, nat))
    requires Family(ps, c.session, c.stream, format)
    requires (forall p :: p in arrivals ==> p in ps) && |ps| <= SwiftQueue.MAXIMUM_PACKETS
    ensures Follows(c, arrivals, format)
  {
    hide Wire.WellFormed, Record, Follows, Family;
    if arrivals == [] {
      NothingArrived(c, format);
    } else {
      var before, p := arrivals[..|arrivals| - 1], arrivals[|arrivals| - 1];
      ClientFollows(c, before, ps, format);
      FamilyMember(ps, p, c.session, c.stream, format);
      assert before + [p] == arrivals;
      if !Record(Books(before), p.sequenceNumber).1 {
        if before == [] {
          FirstIsLetThrough(p.sequenceNumber);
        }
        RefusedStep(c, before, p, format);
      } else if before == [] {
        FirstStep(c, p, format);
      } else {
        LaterStep(c, before, p, ps, format);
      }
    }
  }

  lemma FamilyMember(ps: seq<Wire.Packet>, p: Wire.Packet, session: nat, stream: nat, format: (nat, nat))
    requires Family(ps, session, stream, format) && p in ps
    ensures Wire.WellFormed(p) && p.sessionId == session && p.streamId == stream
    ensures (p.sampleRate as nat, p.channelCount as nat) == format
  {
    hide Wire.WellFormed;
  }

  lemma NothingArrived(c: Client, format: (nat, nat))
    ensures Follows(c, [], format)
  {
  }

  lemma RefusedStep(c: Client, before: seq<Wire.Packet>, p: Wire.Packet, format: (nat, nat))
    requires Follows(c, before, format) && before != [] && !Record(Books(before), p.sequenceNumber).1
    ensures Follows(c, before + [p], format)
  {
    hide Record, Keeps, Admitted, QueueOf, Books;
    AdmittedStep(before, p);
    assert (before + [p])[0] == before[0];
  }

  lemma FirstStep(c: Client, p: Wire.Packet, format: (nat, nat))
    requires p.sessionId == c.session && p.streamId == c.stream
    requires (p.sampleRate as nat, p.channelCount as nat) == format && Record(Books([]), p.sequenceNumber).1
    ensures Follows(c, [] + [p], format)
  {
    hide Record, Keeps, Insert;
    AdmittedStep([], p);
    assert Admitted([]) + {p} == {p};
    FirstInsert(p);
  }

  lemma LaterStep(c: Client, before: seq<Wire.Packet>, p: Wire.Packet, ps: seq<Wire.Packet>, format: (nat, nat))
    requires Follows(c, before, format) && before != [] && Record(Books(before), p.sequenceNumber).1
    requires Family(ps, c.session, c.stream, format) && p in ps
    requires (forall x :: x in before ==> x in ps) && |ps| <= SwiftQueue.MAXIMUM_PACKETS
    ensures Follows(c, before + [p], format)
  {
    FamilyMember(ps, p, c.session, c.stream, format);
    StartsApart(ps, c.session, c.stream, format);
    hide Record, Keeps, Admitted, Insert, Family, Wire.WellFormed, QueueOf, Books;
    AdmittedStep(before, p);
    AdmittedArrived(before);
    assert (before + [p])[0] == before[0];
    InsertKeptPacket(QueueOf(before), p, Admitted(before), before[0].startFrame, ps);
  }

  lemma AdmittedStep(before: seq<Wire.Packet>, p: Wire.Packet)
    ensures Books(before + [p]) == Record(Books(before), p.sequenceNumber).0
    ensures var through := Record(Books(before), p.sequenceNumber).1;
            && Admitted(before + [p]) == (if through then Admitted(before) + {p} else Admitted(before))
            && QueueOf(before + [p]) == if through then Insert(QueueOf(before), Wire.ToSwift(p)).0 else QueueOf(before)
  {
    assert (before + [p])[..|before|] == before;
    assert Admitted(before) + {} == Admitted(before);
  }

  lemma NumbersStep(before: seq<Wire.Packet>, p: Wire.Packet)
    ensures NumbersOf(before + [p]) == NumbersOf(before) + {p.sequenceNumber as nat}
  {
  }

  lemma StartsApart(ps: seq<Wire.Packet>, session: nat, stream: nat, format: (nat, nat))
    requires Family(ps, session, stream, format)
    ensures forall x, y :: x in ps && y in ps && x.startFrame == y.startFrame ==> x == y
  {
    hide Wire.WellFormed;
  }

  // ---- When every delivered packet is let through -------------------------------------------

  lemma {:induction false} AdmittedIffLetThrough(arrivals: seq<Wire.Packet>, p: Wire.Packet)
    ensures p in Admitted(arrivals) <==> exists i :: 0 <= i < |arrivals| && arrivals[i] == p && LetThrough(arrivals, i)
  {
    hide Record, Books;
    if arrivals != [] {
      var n := |arrivals| - 1;
      var before := arrivals[..n];
      AdmittedIffLetThrough(before, p);
      forall i | 0 <= i < n
        ensures before[i] == arrivals[i] && (LetThrough(before, i) <==> LetThrough(arrivals, i))
      {
        assert before[..i] == arrivals[..i];
      }
      assert arrivals[..n] == before;
    }
  }

  /** `record` keeps numbers that have arrived, and nothing else. */
  lemma {:induction false} BooksAreSeen(arrivals: seq<Wire.Packet>)
    ensures var a := Books(arrivals);
            && a.recent <= NumbersOf(arrivals) && (a.highest.Some? ==> a.highest.value in NumbersOf(arrivals))
  {
    if arrivals != [] {
      var before, p := arrivals[..|arrivals| - 1], arrivals[|arrivals| - 1];
      BooksAreSeen(before);
      assert before + [p] == arrivals;
      NumbersStep(before, p);
      hide Record, NumbersOf;
      RecordSeen(Books(before), p.sequenceNumber);
    }
  }

  lemma RecordSeen(a: Accounting, number: nat)
    ensures forall n :: n in Record(a, number).0.recent ==> n in a.recent || n == number
    ensures Record(a, number).0.highest == a.highest || Record(a, number).0.highest == Some(number)
  {
    hide Delta, Skipped, Remember;
  }

  /** A number that has not arrived before is let through, however long the stream is. */
  lemma NewIsLetThrough(arrivals: seq<Wire.Packet>, i: nat)
    requires i < |arrivals| && arrivals[i].sequenceNumber as nat !in NumbersOf(arrivals[..i])
    ensures LetThrough(arrivals, i)
  {
    BooksAreSeen(arrivals[..i]);
    var highest := Books(arrivals[..i]).highest;
    SeenFits(arrivals[..i]);
    hide Books, NumbersOf;
    if highest.Some? {
      DifferentNumbers(arrivals[i].sequenceNumber, highest.value);
    }
    hide Delta;
  }

  lemma SeenFits(arrivals: seq<Wire.Packet>)
    ensures forall n :: n in NumbersOf(arrivals) ==> n < U32_LIMIT
  {
  }

  lemma {:induction false} BooksRemember(arrivals: seq<Wire.Packet>)
    requires |NumbersOf(arrivals)| <= WINDOW
    ensures Remembers(Books(arrivals), NumbersOf(arrivals))
  {
    hide NumbersOf, Remembers, Record;
    if arrivals == [] {
      NothingSeen();
    } else {
      var before, p := arrivals[..|arrivals| - 1], arrivals[|arrivals| - 1];
      assert before + [p] == arrivals;
      NumbersStep(before, p);
      ArrivalOrder.SubsetSize(NumbersOf(before), NumbersOf(arrivals));
      BooksRemember(before);
      AdmittedIffNew(Books(before), NumbersOf(before), p.sequenceNumber);
    }
  }

  lemma NothingSeen()
    ensures Remembers(SwiftLoss.FRESH, NumbersOf([]))
  {
    assert NumbersOf([]) == {};
  }

  /** Until more than 4096 different numbers have arrived, an arrival is let through if and only if nothing
      with its number arrived before it. */
  lemma LetThroughIffFirstOfNumber(arrivals: seq<Wire.Packet>, i: nat)
    requires i < |arrivals| && |NumbersOf(arrivals[..i])| <= WINDOW
    ensures LetThrough(arrivals, i)
       <==> forall j :: 0 <= j < i ==> arrivals[j].sequenceNumber != arrivals[i].sequenceNumber
  {
    hide Books, Record, Remembers;
    BooksRemember(arrivals[..i]);
    AdmittedIffNew(Books(arrivals[..i]), NumbersOf(arrivals[..i]), arrivals[i].sequenceNumber);
    NumbersAre(arrivals[..i], arrivals[i].sequenceNumber);
  }

  lemma NumbersAre(arrivals: seq<Wire.Packet>, number: nat)
    ensures number in NumbersOf(arrivals) <==> exists j :: 0 <= j < |arrivals| && arrivals[j].sequenceNumber == number
  {
    if j :| 0 <= j < |arrivals| && arrivals[j].sequenceNumber == number {
      assert arrivals[j] in arrivals;
    }
  }

  /** No two different packets have the same number. */
  ghost predicate NumbersIdentify(ps: seq<Wire.Packet>) {
    forall p, q :: p in ps && q in ps && p.sequenceNumber == q.sequenceNumber ==> p == q
  }

  ghost predicate AllFrom(arrivals: seq<Wire.Packet>, ps: seq<Wire.Packet>) {
    forall p :: p in arrivals ==> p in ps
  }

  ghost predicate AllAdmitted(arrivals: seq<Wire.Packet>) {
    forall p :: p in arrivals ==> p in Admitted(arrivals)
  }

  lemma IdentifiedAreAdmitted(arrivals: seq<Wire.Packet>)
    requires NumbersIdentify(arrivals)
    ensures AllAdmitted(arrivals)
  {
    hide Admitted, LetThrough, NumbersOf;
    forall p | p in arrivals
      ensures p in Admitted(arrivals)
    {
      var i := FirstOf(arrivals, p.sequenceNumber);
      NumbersAre(arrivals[..i], p.sequenceNumber);
      NewIsLetThrough(arrivals, i);
      AdmittedIffLetThrough(arrivals, p);
    }
  }

  /** A second packet of the same number right after the first is refused. */
  lemma TwinIsRefused(p: Wire.Packet, q: Wire.Packet)
    requires p != q && p.sequenceNumber == q.sequenceNumber
    ensures Admitted([p, q]) == {p}
  {
    FirstIsLetThrough(p.sequenceNumber);
    AdmittedStep([], p);
    AdmittedStep([p], q);
    assert [] + [p] == [p] && [p] + [q] == [p, q];
    SecondIsRefused(p.sequenceNumber);
  }

  lemma SecondIsRefused(number: nat)
    ensures !Record(Record(SwiftLoss.FRESH, number).0, number).1
  {
  }

  /** The exact condition, for packets of any number and deliveries of any length: every delivery is let
      through in full if and only if no two of the packets carry the same number. */
  lemma EveryDeliveryAdmittedIff(ps: seq<Wire.Packet>)
    ensures (forall arrivals :: AllFrom(arrivals, ps) ==> AllAdmitted(arrivals)) <==> NumbersIdentify(ps)
  {
    hide Admitted;
    if NumbersIdentify(ps) {
      forall arrivals | AllFrom(arrivals, ps)
        ensures AllAdmitted(arrivals)
      {
        IdentifiedAreAdmitted(arrivals);
      }
    } else {
      var p, q :| p in ps && q in ps && p.sequenceNumber == q.sequenceNumber && p != q;
      TwinIsRefused(p, q);
      assert AllFrom([p, q], ps) && q in [p, q];
    }
  }

  /** For one delivery of at most 4096 different numbers the same holds of what arrived. */
  lemma AllAdmittedIff(arrivals: seq<Wire.Packet>)
    requires |NumbersOf(arrivals)| <= WINDOW
    ensures AllAdmitted(arrivals) <==> NumbersIdentify(arrivals)
  {
    hide Admitted, LetThrough;
    if NumbersIdentify(arrivals) {
      IdentifiedAreAdmitted(arrivals);
    } else {
      var p, q :| p in arrivals && q in arrivals && p.sequenceNumber == q.sequenceNumber && p != q;
      AdmittedIffLetThrough(arrivals, p);
      AdmittedIffLetThrough(arrivals, q);
      forall i | 0 <= i < |arrivals| && LetThrough(arrivals, i)
        ensures forall j :: 0 <= j < i ==> arrivals[j].sequenceNumber != arrivals[i].sequenceNumber
      {
        ArrivalOrder.SubsetSize(NumbersOf(arrivals[..i]), NumbersOf(arrivals));
        LetThroughIffFirstOfNumber(arrivals, i);
      }
    }
  }

  ghost predicate Consecutive(arrivals: seq<Wire.Packet>) {
    forall k :: 0 <= k < |arrivals| ==> arrivals[k].sequenceNumber == k
  }

  /** After the numbers below `n` in order the window holds the last 4096. */
  ghost predicate HoldsLast(a: Accounting, n: nat) {
    var oldest: nat := Max(0, n - WINDOW);
    && a.highest == (if n == 0 then None else Some(n - 1))
    && a.order == seq(n - oldest, i requires 0 <= i < n - oldest => oldest + i)
    && forall k :: k in a.recent <==> oldest <= k < n
  }

  lemma {:induction false} ConsecutiveBooks(arrivals: seq<Wire.Packet>)
    requires Consecutive(arrivals) && |arrivals| <= HALF
    ensures HoldsLast(Books(arrivals), |arrivals|)
  {
    hide Record;
    if arrivals != [] {
      var n := |arrivals| - 1;
      ConsecutiveBooks(arrivals[..n]);
      hide HoldsLast;
      NextNumber(Books(arrivals[..n]), n);
    }
  }

  lemma NextNumber(a: Accounting, n: nat)
    requires n < HALF && HoldsLast(a, n)
    ensures HoldsLast(Record(a, n).0, n + 1)
  {
    hide Skipped;
    if n > 0 {
      NoWrap(n, n - 1);
    }
    hide Delta;
  }

  /** Beyond the window a repeated number is let through again: after 4097 packets of one segment `record`
      accepts the first packet of the resumed one, whose number it has forgotten. */
  lemma WindowForgets(x: Host.Sending, y: Host.Sending)
    requires Host.IsSending(x) && Host.IsSending(y) && Host.Resumes(x, y) && |x.packets| > WINDOW && y.packets != []
    ensures y.packets[0].sequenceNumber == x.packets[0].sequenceNumber && y.packets[0] != x.packets[0]
    ensures LetThrough(x.packets[..WINDOW + 1] + [y.packets[0]], WINDOW + 1)
  {
    SameFirstNumber(x, y);
    var before := x.packets[..WINDOW + 1];
    FirstNumbers(x, before);
    ConsecutiveBooks(before);
    assert (before + [y.packets[0]])[..WINDOW + 1] == before;
    hide Host.IsSending, Books;
    NoWrap(0, WINDOW);
  }

  lemma FirstNumbers(x: Host.Sending, before: seq<Wire.Packet>)
    requires Host.IsSending(x) && before <= x.packets && |before| <= HALF
    ensures Consecutive(before)
  {
    hide Host.Playable, Host.Faithful, Host.Sized, Host.Tiles;
    forall k | 0 <= k < |before|
      ensures before[k].sequenceNumber == k
    {
      assert before[k] == x.packets[k];
      SmallNumber(k);
    }
  }

  lemma FirstOf(arrivals: seq<Wire.Packet>, number: nat) returns (i: nat)
    requires exists p :: p in arrivals && p.sequenceNumber == number
    ensures i < |arrivals| && arrivals[i].sequenceNumber == number
    ensures forall j :: 0 <= j < i ==> arrivals[j].sequenceNumber != number
  {
    i := 0;
    while arrivals[i].sequenceNumber != number
      invariant i < |arrivals|
      invariant forall j :: 0 <= j < i ==> arrivals[j].sequenceNumber != number
      invariant exists k :: i <= k < |arrivals| && arrivals[k].sequenceNumber == number
      decreases |arrivals| - i
    {
      i := i + 1;
    }
  }

  /** Within one segment, up to 2^32 packets, the numbers tell the packets apart. */
  lemma OneSegmentIdentifies(g: Host.Segment, ps: seq<Wire.Packet>, last: nat, pending: nat -> Option<Rooms.Action>,
                             chunk: nat -> nat)
    requires Host.Playable(g) && g.sampleRate != 0 && Host.Emitted(g, ps, last, pending, chunk) && |ps| <= U32_LIMIT
    ensures NumbersIdentify(ps)
  {
    hide Host.Playable, Host.Faithful, Host.Sized, Host.Tiles;
    forall p, q | p in ps && q in ps && p.sequenceNumber == q.sequenceNumber
      ensures p == q
    {
      var a :| 0 <= a < |ps| && ps[a] == p;
      var b :| 0 <= b < |ps| && ps[b] == q;
      SmallNumber(a);
      SmallNumber(b);
    }
  }

  lemma SmallNumber(k: nat)
    requires k < U32_LIMIT
    ensures k % U32_LIMIT == k
  {
  }

  // ---- A resume --------------------------------------------------------------------------------

  /** Every delivery around a resume is let through in full by `record` if and only if one side of it is empty:
      the numbers start again under the same stream ID, so the first packets of both sides carry number 0. */
  lemma ResumeAdmitsAllIff(x: Host.Sending, y: Host.Sending)
    requires Host.IsSending(x) && Host.IsSending(y) && Host.Resumes(x, y)
    ensures (forall arrivals :: AllFrom(arrivals, x.packets + y.packets) ==> AllAdmitted(arrivals))
       <==> x.packets == [] || y.packets == []
  {
    hide Host.Playable, Host.Faithful, Host.Sized, AllAdmitted, NumbersIdentify;
    EveryDeliveryAdmittedIff(x.packets + y.packets);
    if x.packets == [] || y.packets == [] {
      var z := if y.packets == [] then x else y;
      assert x.packets + y.packets == z.packets;
      OneSegmentIdentifies(z.segment, z.packets, z.last, z.pending, z.chunk);
    } else {
      SameFirstNumber(x, y);
      assert !NumbersIdentify(x.packets + y.packets) by {
        Twins(x.packets + y.packets, x.packets[0], y.packets[0]);
      }
    }
  }

  lemma Twins(ps: seq<Wire.Packet>, p: Wire.Packet, q: Wire.Packet)
    requires p in ps && q in ps && p != q && p.sequenceNumber == q.sequenceNumber
    ensures !NumbersIdentify(ps)
  {
  }

  lemma SameFirstNumber(x: Host.Sending, y: Host.Sending)
    requires Host.IsSending(x) && Host.IsSending(y) && Host.Resumes(x, y) && x.packets != [] && y.packets != []
    ensures x.packets[0].startFrame < y.packets[0].startFrame
    ensures x.packets[0].sequenceNumber == y.packets[0].sequenceNumber == 0
  {
    hide Host.Playable, Host.Faithful, Host.Sized;
    Host.TilesAreOrdered(x.packets, x.segment.initialFrame, x.last);
    Host.TilesAreOrdered(y.packets, y.segment.initialFrame, y.last);
  }

  lemma ResumedFamily(x: Host.Sending, y: Host.Sending)
    requires Host.IsSending(x) && Host.IsSending(y) && Host.Resumes(x, y)
    ensures Family(x.packets + y.packets, x.segment.config.sessionId, x.segment.config.streamId,
                   (x.segment.sampleRate, x.segment.channels))
  {
    hide Host.Playable, Host.Sized, Host.SourceSlice, Host.Total, Host.Due, Wire.WellFormed, Host.Tiles;
    var ps := x.packets + y.packets;
    forall p | p in ps
      ensures Host.Faithful(x.segment, p) || Host.Faithful(y.segment, p)
    {
    }
    Host.TilesJoin(x.packets, y.packets, x.segment.initialFrame, x.last, y.last);
    forall p, q | p in ps && q in ps && p.startFrame == q.startFrame
      ensures p == q
    {
      EndToEnd.SameStartSamePacket(ps, x.segment.initialFrame, y.last, p, q);
    }
  }

  /** The queue of a client that waits for this stream has all of a delivery, from its first arrival on. */
  ghost predicate QueuesAll(x: Host.Sending, arrivals: seq<Wire.Packet>) {
    var c := NewClient(x.segment.config.sessionId, x.segment.config.streamId);
    var packets := ReceiveAll(c, EndToEnd.Datagrams(arrivals)).queue.packets;
    forall p :: p in arrivals && arrivals[0].startFrame <= p.startFrame ==>
                  p.startFrame in packets && packets[p.startFrame] == Wire.ToSwift(p)
  }

  lemma QueueOfDelivery(x: Host.Sending, y: Host.Sending, arrivals: seq<Wire.Packet>)
    requires Host.IsSending(x) && Host.IsSending(y) && Host.Resumes(x, y) && arrivals != []
    requires AllFrom(arrivals, x.packets + y.packets)
    requires |x.packets| + |y.packets| <= SwiftQueue.MAXIMUM_PACKETS || |arrivals| <= SwiftQueue.MAXIMUM_PACKETS
    ensures var c := NewClient(x.segment.config.sessionId, x.segment.config.streamId);
            Keeps(ReceiveAll(c, EndToEnd.Datagrams(arrivals)).queue.packets, Admitted(arrivals), arrivals[0].startFrame)
  {
    hide Host.IsSending, Family, Follows, ReceiveAll, Admitted, Keeps;
    var session, stream := x.segment.config.sessionId, x.segment.config.streamId;
    var format := (x.segment.sampleRate as nat, x.segment.channels as nat);
    var ps := if |arrivals| <= SwiftQueue.MAXIMUM_PACKETS then arrivals else x.packets + y.packets;
    ResumedFamily(x, y);
    FamilyShrinks(x.packets + y.packets, ps, session, stream, format);
    ClientRecords(NewClient(session, stream), arrivals, ps, format);
    ClientFollows(NewClient(session, stream), arrivals, ps, format);
    FollowsQueue(NewClient(session, stream), arrivals, format);
  }

  lemma FamilyShrinks(ps: seq<Wire.Packet>, qs: seq<Wire.Packet>, session: nat, stream: nat, format: (nat, nat))
    requires Family(ps, session, stream, format) && AllFrom(qs, ps)
    ensures Family(qs, session, stream, format)
  {
    hide Wire.WellFormed;
  }

  /** ... and so in the queue: around a resume of at most 512 packets every delivery is queued in full if
      and only if one side of the resume is empty. */
  lemma ResumeQueuesAllIff(x: Host.Sending, y: Host.Sending)
    requires Host.IsSending(x) && Host.IsSending(y) && Host.Resumes(x, y)
    requires |x.packets| + |y.packets| <= SwiftQueue.MAXIMUM_PACKETS
    ensures (forall arrivals :: arrivals != [] && AllFrom(arrivals, x.packets + y.packets) ==> QueuesAll(x, arrivals))
       <==> x.packets == [] || y.packets == []
  {
    hide Host.IsSending, ReceiveAll, Admitted, Host.Resumes;
    if x.packets == [] || y.packets == [] {
      ResumeAdmitsAllIff(x, y);
      forall arrivals | arrivals != [] && AllFrom(arrivals, x.packets + y.packets)
        ensures QueuesAll(x, arrivals)
      {
        assert AllAdmitted(arrivals);
        QueueOfDelivery(x, y, arrivals);
      }
    } else {
      ResumedFirstIsNotQueued(x, y);
      var arrivals := [x.packets[0], y.packets[0]];
      assert AllFrom(arrivals, x.packets + y.packets);
      assert arrivals[1] in arrivals;
    }
  }

  /** Whatever the lengths: if the two first packets arrive in order, the second is not queued. */
  lemma ResumedFirstIsNotQueued(x: Host.Sending, y: Host.Sending)
    requires Host.IsSending(x) && Host.IsSending(y) && Host.Resumes(x, y) && x.packets != [] && y.packets != []
    ensures x.packets[0].startFrame < y.packets[0].startFrame
    ensures var c := NewClient(x.segment.config.sessionId, x.segment.config.streamId);
            y.packets[0].startFrame
            !in ReceiveAll(c, EndToEnd.Datagrams([x.packets[0], y.packets[0]])).queue.packets
  {
    hide Host.IsSending, ReceiveAll, Admitted, Host.Resumes;
    var arrivals := [x.packets[0], y.packets[0]];
    assert x.packets[0] != y.packets[0] && x.packets[0].sequenceNumber == y.packets[0].sequenceNumber
           && x.packets[0].startFrame < y.packets[0].startFrame by { SameFirstNumber(x, y); }
    TwinIsRefused(x.packets[0], y.packets[0]);
    QueueOfDelivery(x, y, arrivals);
    var c := NewClient(x.segment.config.sessionId, x.segment.config.streamId);
    var packets := ReceiveAll(c, EndToEnd.Datagrams(arrivals)).queue.packets;
    assert forall k :: k in packets ==> KeptAs(packets, Admitted(arrivals), arrivals[0].startFrame, k);
  }

  // ---- What is played ------------------------------------------------------------------------

  lemma StretchIsFamily(g: EndToEnd.Programme, ts: seq<EndToEnd.Transmission>, stream: u32, ps: seq<Wire.Packet>,
                        first: nat, last: nat)
    requires EndToEnd.IsHostRun(g, ts) && EndToEnd.IsStretch(g, ts, stream, ps, first, last)
    ensures Family(ps, g.session, stream, (g.sampleRate, g.channels))
  {
    hide EndToEnd.IsHostRun, EndToEnd.Carries, Wire.WellFormed, EndToEnd.Sent;
    forall p | p in ps
      ensures Wire.WellFormed(p) && p.sessionId == g.session && p.streamId == stream
      ensures p.sampleRate == g.sampleRate && p.channelCount == g.channels
    {
      EndToEnd.SentCarries(g, ts, p);
    }
    forall p, q | p in ps && q in ps && p.startFrame == q.startFrame
      ensures p == q
    {
      EndToEnd.SameStartSamePacket(ps, first, last, p, q);
    }
  }

  /** The packets that the queue has, in the C++ buffer's terms. */
  lemma {:induction false} SortedHolds(packets: map<nat, Wire.SwiftPacket>, k: nat)
    requires k in packets
    ensures SwiftQueue.ToBuffered(packets[k]) in Sorted(packets)
    decreases |packets|
  {
    hide SwiftQueue.ToBuffered;
    var least := Least(packets.Keys);
    if k != least {
      SortedHolds(packets - {least}, k);
    }
  }

  lemma SameBuffered(p: Wire.Packet)
    ensures SwiftQueue.ToBuffered(Wire.ToSwift(p)) == JB.ToBuffered(p)
  {
  }

  lemma KeptPlayable(packets: map<nat, Wire.SwiftPacket>, admitted: set<Wire.Packet>, c: nat, format: (nat, nat))
    requires Keeps(packets, admitted, c)
    requires forall p :: p in admitted ==> Wire.WellFormed(p) && p.channelCount == format.1
    ensures Playable(packets, format.1)
  {
    hide Wire.WellFormed;
    forall k | k in packets
      ensures packets[k].startFrame == k && packets[k].frameCount > 0
      ensures |packets[k].payload| == packets[k].frameCount as int * format.1 * 2
    {
      assert KeptAs(packets, admitted, c, k);
      var p :| p in admitted && c <= k == p.startFrame && packets[k] == Wire.ToSwift(p);
      WellFormedPayload(p);
    }
  }

  lemma WellFormedPayload(p: Wire.Packet)
    requires Wire.WellFormed(p)
    ensures p.frameCount > 0 && |p.payload| == p.frameCount as int * p.channelCount * 2
  {
    Wire.PayloadSize(p);
  }

  lemma KeptApart(packets: map<nat, Wire.SwiftPacket>, admitted: set<Wire.Packet>, c: nat, ps: seq<Wire.Packet>,
                  first: nat, last: nat)
    requires Keeps(packets, admitted, c) && (forall p :: p in admitted ==> p in ps) && Host.Tiles(ps, first, last)
    ensures Apart(packets)
  {
    Host.TilesAreOrdered(ps, first, last);
    forall j, k | j in packets && k in packets && j < k
      ensures End(packets[j]) <= k
    {
      assert KeptAs(packets, admitted, c, j) && KeptAs(packets, admitted, c, k);
      var p :| p in admitted && c <= j == p.startFrame && packets[j] == Wire.ToSwift(p);
      var q :| q in admitted && c <= k == q.startFrame && packets[k] == Wire.ToSwift(q);
      var a :| 0 <= a < |ps| && ps[a] == p;
      var b :| 0 <= b < |ps| && ps[b] == q;
    }
  }

  /** Frames of the timeline that a packet let through covers, from the first arrival on. */
  ghost predicate Covered(arrivals: seq<Wire.Packet>, frame: nat)
    requires arrivals != []
  {
    exists p :: p in Admitted(arrivals) && arrivals[0].startFrame <= p.startFrame <= frame < Host.EndOf(p)
  }

  lemma ReceivedIffCovered(packets: map<nat, Wire.SwiftPacket>, arrivals: seq<Wire.Packet>, channels: nat, frame: nat)
    requires arrivals != [] && Keeps(packets, Admitted(arrivals), arrivals[0].startFrame)
    requires Playable(packets, channels) && Apart(packets)
    ensures JB.Received(Sorted(packets), frame) <==> Covered(arrivals, frame)
  {
    hide Sorted, Admitted, Playable, Apart, Keeps;
    if JB.Received(Sorted(packets), frame) {
      ReceivedIsCovered(packets, arrivals, channels, frame);
    }
    if Covered(arrivals, frame) {
      CoveredIsReceived(packets, arrivals, frame);
    }
  }

  lemma ReceivedIsCovered(packets: map<nat, Wire.SwiftPacket>, arrivals: seq<Wire.Packet>, channels: nat, frame: nat)
    requires arrivals != [] && Keeps(packets, Admitted(arrivals), arrivals[0].startFrame)
    requires Playable(packets, channels) && Apart(packets) && JB.Received(Sorted(packets), frame)
    ensures Covered(arrivals, frame)
  {
    SortedShape(packets, channels);
    hide Sorted, Admitted, Playable, Apart;
    var bs := Sorted(packets);
    var i :| 0 <= i < |bs| && bs[i].Covers(frame);
    var k := bs[i].start;
    assert KeptAs(packets, Admitted(arrivals), arrivals[0].startFrame, k);
  }

  lemma CoveredIsReceived(packets: map<nat, Wire.SwiftPacket>, arrivals: seq<Wire.Packet>, frame: nat)
    requires arrivals != [] && Keeps(packets, Admitted(arrivals), arrivals[0].startFrame) && Covered(arrivals, frame)
    ensures JB.Received(Sorted(packets), frame)
  {
    hide Sorted, Admitted;
    var bs := Sorted(packets);
    var p :| p in Admitted(arrivals) && arrivals[0].startFrame <= p.startFrame <= frame < Host.EndOf(p);
    SortedHolds(packets, p.startFrame);
    var b := SwiftQueue.ToBuffered(Wire.ToSwift(p));
    var i :| 0 <= i < |bs| && bs[i] == b;
    assert bs[i].Covers(frame);
  }

  lemma SortedCarries(g: EndToEnd.Programme, ts: seq<EndToEnd.Transmission>, packets: map<nat, Wire.SwiftPacket>,
                      admitted: set<Wire.Packet>, c: nat)
    requires EndToEnd.IsHostRun(g, ts) && (forall p :: p in admitted ==> EndToEnd.Sent(ts, p))
    requires Keeps(packets, admitted, c) && Playable(packets, g.channels) && Apart(packets)
    ensures EndToEnd.AllCarry(g, Sorted(packets)) && JB.AllShaped(Sorted(packets), g.channels)
  {
    SortedShape(packets, g.channels);
    hide EndToEnd.IsHostRun, EndToEnd.Carries, Sorted, Wire.WellFormed, EndToEnd.Sent, SwiftQueue.ToBuffered,
         JB.ToBuffered, JB.Shaped;
    forall b | b in Sorted(packets)
      ensures EndToEnd.Carries(g, b) && JB.Shaped(b, g.channels)
    {
      assert KeptAs(packets, admitted, c, b.start);
      var p :| p in admitted && c <= b.start == p.startFrame && packets[b.start] == Wire.ToSwift(p);
      SameBuffered(p);
      EndToEnd.SentCarries(g, ts, p);
      EndToEnd.WellFormedIsAcceptable(p);
      WellFormedPayload(p);
      AcceptableIsShaped(p);
    }
  }

  lemma AcceptableIsShaped(p: Wire.Packet)
    requires JB.Acceptable(p) && Wire.WellFormed(p)
    ensures JB.Shaped(JB.ToBuffered(p), p.channelCount)
  {
    JB.BufferedIsShaped(p);
  }

  /** The queue after some arrivals. */
  ghost function QueueAfter(g: EndToEnd.Programme, stream: u32, arrivals: seq<Wire.Packet>): Queue {
    ReceiveAll(NewClient(g.session, stream), EndToEnd.Datagrams(arrivals)).queue
  }

  ghost predicate Sound(g: EndToEnd.Programme, ts: seq<EndToEnd.Transmission>, q: Queue, arrivals: seq<Wire.Packet>)
    requires arrivals != []
  {
    && SwiftQueue.WellFormed(q) && Disjoint(q) && Playable(q.packets, g.channels)
    && q.cursor == Some(arrivals[0].startFrame as nat)
    && Keeps(q.packets, Admitted(arrivals), arrivals[0].startFrame)
    && EndToEnd.AllCarry(g, Sorted(q.packets)) && JB.AllShaped(Sorted(q.packets), g.channels)
  }

  lemma QueueIsSound(g: EndToEnd.Programme, ts: seq<EndToEnd.Transmission>, stream: u32, ps: seq<Wire.Packet>,
                     first: nat, last: nat, arrivals: seq<Wire.Packet>)
    requires EndToEnd.IsHostRun(g, ts) && EndToEnd.IsStretch(g, ts, stream, ps, first, last)
    requires |ps| <= SwiftQueue.MAXIMUM_PACKETS && arrivals != [] && forall p :: p in arrivals ==> p in ps
    ensures Sound(g, ts, QueueAfter(g, stream, arrivals), arrivals)
  {
    var format := (g.sampleRate as nat, g.channels as nat);
    StretchIsFamily(g, ts, stream, ps, first, last);
    ClientRecords(NewClient(g.session, stream), arrivals, ps, format);
    ClientFollows(NewClient(g.session, stream), arrivals, ps, format);
    AdmittedArrived(arrivals);
    var q, c := QueueAfter(g, stream, arrivals), arrivals[0].startFrame;
    FollowsQueue(NewClient(g.session, stream), arrivals, format);
    FamilyFormat(ps, Admitted(arrivals), g.session, stream, format);
    hide EndToEnd.IsHostRun, Family, Keeps, Admitted, EndToEnd.Sent, Wire.WellFormed, EndToEnd.AllCarry, JB.AllShaped,
         Follows, ReceiveAll;
    KeptPlayable(q.packets, Admitted(arrivals), c, format);
    KeptApart(q.packets, Admitted(arrivals), c, ps, first, last);
    SortedCarries(g, ts, q.packets, Admitted(arrivals), c);
    KeptWellFormed(q, Admitted(arrivals), c, format, g.session, stream);
  }

  lemma FollowsQueue(c: Client, arrivals: seq<Wire.Packet>, format: (nat, nat))
    requires Follows(c, arrivals, format) && arrivals != []
    ensures QueueOf(arrivals).cursor == Some(arrivals[0].startFrame as nat)
    ensures QueueOf(arrivals).stream == Some(Stream(c.session, c.stream, format.0, format.1))
    ensures Keeps(QueueOf(arrivals).packets, Admitted(arrivals), arrivals[0].startFrame)
  {
    hide Keeps, Admitted, QueueOf;
  }

  lemma FamilyFormat(ps: seq<Wire.Packet>, admitted: set<Wire.Packet>, session: nat, stream: nat, format: (nat, nat))
    requires Family(ps, session, stream, format) && forall p :: p in admitted ==> p in ps
    ensures forall p :: p in admitted ==>
              && Wire.WellFormed(p) && p.sessionId == session && p.streamId == stream
              && p.sampleRate == format.0 && p.channelCount == format.1
  {
    hide Wire.WellFormed;
  }

  lemma KeptWellFormed(q: Queue, admitted: set<Wire.Packet>, c: nat, format: (nat, nat), session: nat, stream: nat)
    requires q.cursor == Some(c) && q.stream == Some(Stream(session, stream, format.0, format.1))
    requires Keeps(q.packets, admitted, c) && Playable(q.packets, format.1)
    requires forall p :: p in admitted ==>
               p.sessionId == session && p.streamId == stream && p.sampleRate == format.0 && p.channelCount == format.1
    ensures SwiftQueue.WellFormed(q)
  {
    forall k | k in q.packets
      ensures c <= k && Some(StreamOf(q.packets[k])) == q.stream
    {
      assert KeptAs(q.packets, admitted, c, k);
    }
    hide Keeps;
  }

  /** The whole path to the iOS client's player: after any delivery of a stretch of at most 512 packets
      the queue plays, from the first arrival's start frame on and without a gap, the source's own
      sample wherever a packet that was let through covers the frame, and silence elsewhere; `n` is the
      frame count that `bufferedFrames` reports. */
  lemma SwiftPlaysTheSource(g: EndToEnd.Programme, ts: seq<EndToEnd.Transmission>, stream: u32, ps: seq<Wire.Packet>,
                            first: nat, last: nat, arrivals: seq<Wire.Packet>, n: nat, frame: nat, channel: nat)
    requires EndToEnd.IsHostRun(g, ts) && EndToEnd.IsStretch(g, ts, stream, ps, first, last)
    requires |ps| <= SwiftQueue.MAXIMUM_PACKETS && arrivals != [] && (forall p :: p in arrivals ==> p in ps)
    requires IsBuffered(QueueAfter(g, stream, arrivals), n) && 1 <= g.channels <= 2
    requires frame < n && channel < g.channels
    ensures Drain(QueueAfter(g, stream, arrivals)).0.packets == map[]
    ensures PlaysAs(g, Played(Drain(QueueAfter(g, stream, arrivals)).1, g.channels), arrivals[0].startFrame, frame,
                    channel, Covered(arrivals, arrivals[0].startFrame + frame))
  {
    hide EndToEnd.IsHostRun, EndToEnd.IsStretch, IsBuffered, QueueAfter, Drain, Covered, Keeps, Sorted,
         EndToEnd.AllCarry, JB.AllShaped, SwiftQueue.WellFormed, PlaysAs, Admitted, Playable, Apart, Played;
    QueueIsSound(g, ts, stream, ps, first, last, arrivals);
    var q := QueueAfter(g, stream, arrivals);
    DisjointIsApart(q);
    hide Disjoint;
    DrainPlaysReadFrames(q, g.channels, n);
    ReceivedIffCovered(q.packets, arrivals, g.channels, arrivals[0].startFrame + frame);
    SortedReads(g, q.packets, arrivals[0].startFrame + frame, channel);
    PlayedReads(g, q, Drain(q).0, Drain(q).1, n, frame, channel);
  }

  /** Sample `channel` of frame `frame` of what is played from `start` on. */
  ghost predicate PlaysAs(g: EndToEnd.Programme, played: seq<i16>, start: nat, frame: nat, channel: nat,
                          covered: bool) {
    var k, a := frame * g.channels + channel, (start + frame) * g.channels + channel;
    k < |played| && if covered then a < |g.source| && played[k] == g.source[a] else played[k] == 0
  }

  lemma PlayedReads(g: EndToEnd.Programme, q: Queue, rest: Queue, items: seq<Item>, n: nat, frame: nat, channel: nat)
    requires q.cursor.Some? && PlaysRead(q, rest, items, g.channels, n)
    requires 1 <= g.channels <= 2 && frame < n && channel < g.channels
    requires EndToEnd.ReadsAs(g, Sorted(q.packets), q.cursor.value + frame, channel,
                              JB.Received(Sorted(q.packets), q.cursor.value + frame))
    ensures rest.packets == map[]
    ensures PlaysAs(g, Played(items, g.channels), q.cursor.value, frame, channel,
                    JB.Received(Sorted(q.packets), q.cursor.value + frame))
  {
    hide Sorted, Played, SwiftQueue.TotalFrames, OnTime, JB.SampleAt, JB.Received;
    Indices(q.cursor.value, frame, n, g.channels, channel);
  }

  lemma DisjointIsApart(q: Queue)
    requires Disjoint(q)
    ensures Apart(q.packets)
  {
  }

  lemma Indices(start: nat, frame: nat, n: nat, channels: nat, channel: nat)
    requires 1 <= channels <= 2 && frame < n && channel < channels
    ensures frame * channels + channel < n * channels
    ensures start * channels + (frame * channels + channel) == (start + frame) * channels + channel
  {
  }

  lemma SortedReads(g: EndToEnd.Programme, packets: map<nat, Wire.SwiftPacket>, frame: nat, channel: nat)
    requires EndToEnd.AllCarry(g, Sorted(packets)) && JB.AllShaped(Sorted(packets), g.channels)
    requires 1 <= g.channels <= 2 && channel < g.channels
    ensures EndToEnd.ReadsAs(g, Sorted(packets), frame, channel, JB.Received(Sorted(packets), frame))
  {
    hide Sorted, JB.Received, EndToEnd.AllCarry, JB.AllShaped;
    var bs := Sorted(packets);
    if JB.Received(bs, frame) {
      EndToEnd.CoveredIsSource(g, bs, frame, channel);
    } else {
      NotReceived(bs, frame);
      JB.UncoveredIsSilent(bs, g.channels, frame, channel);
    }
  }

  lemma NotReceived(bs: seq<JB.Buffered>, frame: nat)
    requires !JB.Received(bs, frame)
    ensures forall b :: b in bs ==> !b.Covers(frame)
  {
  }

  // ---- Arrivals, pops and discards in any order -----------------------------------------------

  datatype Event =
    | Datagram(bytes: seq<u8>)
    | PopNext
    | DiscardBefore(timestamp: real)

  ghost function Step(c: Client, e: Event): Client {
    match e
    case Datagram(d) => Receive(c, d)
    case PopNext => c.(queue := Pop(c.queue).0)
    case DiscardBefore(timestamp) => c.(queue := Discard(c.queue, timestamp))
  }

  ghost function Run(c: Client, es: seq<Event>): Client {
    if es == [] then c else Step(Run(c, es[..|es| - 1]), es[|es| - 1])
  }

  function Datagrams(ds: seq<seq<u8>>): seq<Event> {
    seq(|ds|, i requires 0 <= i < |ds| => Datagram(ds[i]))
  }

  function Pops(n: nat): seq<Event> {
    seq(n, _ => PopNext)
  }

  /** A run of datagrams alone is the delivery of their list. */
  lemma {:induction false} RunOfDatagrams(c: Client, ds: seq<seq<u8>>)
    ensures Run(c, Datagrams(ds)) == ReceiveAll(c, ds)
  {
    hide Receive;
    if ds != [] {
      RunOfDatagrams(c, ds[..|ds| - 1]);
      assert Datagrams(ds)[..|ds| - 1] == Datagrams(ds[..|ds| - 1]);
    }
  }

  /** As many pops as a drained queue gives items, and no fewer, drain it. */
  lemma {:induction false} RunOfPops(c: Client)
    ensures Run(c, Pops(|Drain(c.queue).1|)) == c.(queue := Drain(c.queue).0)
    ensures forall n: nat :: n < |Drain(c.queue).1| ==> Pop(Run(c, Pops(n)).queue).1 == Some(Drain(c.queue).1[n])
    ensures Pop(Drain(c.queue).0).1.None?
    decreases |c.queue.packets|, Ahead(c.queue)
  {
    hide Pop;
    var (next, item) := Pop(c.queue);
    assert Pops(0) == [];
    if item.Some? {
      PopDecreases(c.queue);
      RunOfPops(Step(c, PopNext));
      forall n: nat
        ensures Run(c, Pops(n + 1)) == Run(Step(c, PopNext), Pops(n))
      {
        PopFirst(c, n);
      }
      forall n: nat | n < |Drain(c.queue).1|
        ensures Pop(Run(c, Pops(n)).queue).1 == Some(Drain(c.queue).1[n])
      {
        if n > 0 {
          PopFirst(c, n - 1);
        }
      }
    }
  }

  lemma {:induction false} PopFirst(c: Client, n: nat)
    ensures Run(c, Pops(n + 1)) == Run(Step(c, PopNext), Pops(n))
  {
    hide Pop;
    if n > 0 {
      PopFirst(c, n - 1);
      assert Pops(n + 1)[..n] == Pops(n) && Pops(n)[..n - 1] == Pops(n - 1);
    } else {
      assert Pops(1)[..0] == [];
    }
  }

  /** Under its start frame the queue has a packet of the host. */
  ghost predicate FromHost(ts: seq<EndToEnd.Transmission>, packets: map<nat, Wire.SwiftPacket>, k: nat)
    requires k in packets
  {
    exists p :: EndToEnd.Sent(ts, p) && p.startFrame == k && packets[k] == Wire.ToSwift(p)
  }

  ghost predicate AllFromHost(ts: seq<EndToEnd.Transmission>, packets: map<nat, Wire.SwiftPacket>) {
    forall k :: k in packets ==> FromHost(ts, packets, k)
  }

  lemma FewerFromHost(ts: seq<EndToEnd.Transmission>, packets: map<nat, Wire.SwiftPacket>,
                      fewer: map<nat, Wire.SwiftPacket>)
    requires AllFromHost(ts, packets) && forall k :: k in fewer ==> k in packets && fewer[k] == packets[k]
    ensures AllFromHost(ts, fewer)
  {
    hide EndToEnd.Sent, Wire.ToSwift;
    forall k | k in fewer
      ensures FromHost(ts, fewer, k)
    {
      assert FromHost(ts, packets, k);
    }
  }

  lemma InsertFromHost(ts: seq<EndToEnd.Transmission>, q: Queue, p: Wire.Packet)
    requires AllFromHost(ts, q.packets) && EndToEnd.Sent(ts, p)
    ensures AllFromHost(ts, Insert(q, Wire.ToSwift(p)).0.packets)
  {
    hide EndToEnd.Sent;
    var base := if q.stream == Some(StreamOf(Wire.ToSwift(p))) then q.packets else map[];
    var all := base[p.startFrame as nat := Wire.ToSwift(p)];
    forall k | k in all
      ensures FromHost(ts, all, k)
    {
      if k != p.startFrame {
        assert FromHost(ts, q.packets, k);
      }
    }
    var t := Insert(q, Wire.ToSwift(p)).0;
    if Insert(q, Wire.ToSwift(p)).1 {
      FewerFromHost(ts, all, t.packets);
    } else {
      FewerFromHost(ts, q.packets, t.packets);
    }
  }

  lemma ReceiveFromHost(g: EndToEnd.Programme, ts: seq<EndToEnd.Transmission>, c: Client, d: seq<u8>)
    requires EndToEnd.IsHostRun(g, ts) && EndToEnd.Genuine(g, ts, true, d)
    requires c.session == g.session && AllFromHost(ts, c.queue.packets)
    ensures Receive(c, d).session == g.session && AllFromHost(ts, Receive(c, d).queue.packets)
  {
    hide EndToEnd.IsHostRun, EndToEnd.Sent, Wire.Decode, Wire.SwiftParse, Wire.Encode, Wire.WellFormed, Insert, Record,
         AllFromHost;
    Wire.ParsersAgree(d);
    if Wire.SwiftParse(d).Some? && Wire.SwiftParse(d).value.sessionId == c.session {
      var p :| EndToEnd.Sent(ts, p) && Wire.Encode(p) == Ok(d);
      EndToEnd.SentCarries(g, ts, p);
      Wire.SwiftReadsHostPackets(p);
      InsertFromHost(ts, c.queue, p);
    }
  }

  lemma {:induction false} RunFromHost(g: EndToEnd.Programme, ts: seq<EndToEnd.Transmission>, c: Client, es: seq<Event>)
    requires EndToEnd.IsHostRun(g, ts) && forall e :: e in es && e.Datagram? ==> EndToEnd.Genuine(g, ts, true, e.bytes)
    requires c.session == g.session && AllFromHost(ts, c.queue.packets)
    ensures Run(c, es).session == g.session && AllFromHost(ts, Run(c, es).queue.packets)
  {
    hide EndToEnd.IsHostRun, EndToEnd.Genuine, Receive, AllFromHost;
    if es != [] {
      var before, e := es[..|es| - 1], es[|es| - 1];
      RunFromHost(g, ts, c, before);
      var was := Run(c, before);
      if e.Datagram? {
        ReceiveFromHost(g, ts, was, e.bytes);
      } else {
        FewerFromHost(ts, was.queue.packets, Step(was, e).queue.packets);
      }
    }
  }

  /** The source's own frames from `at` on, or as much silence as no packet of the queue reaches into. */
  ghost predicate PlaysAt(g: EndToEnd.Programme, q: Queue, item: Item, at: nat) {
    var samples, from := Samples(item, g.channels), at * g.channels;
    && |samples| == item.Frames() * g.channels
    && if item.Audio?
       then from + |samples| <= |g.source| && forall i :: 0 <= i < |samples| ==> samples[i] == g.source[from + i]
       else
         && (forall i :: 0 <= i < |samples| ==> samples[i] == 0)
         && (forall k :: k in q.packets ==> at + item.count <= k)
  }

  /** Whatever the host did and whatever the network lost, repeated or reordered, in any interleaving with
      pops and discards: the next item played is the source's own from the cursor on, or silence, and
      moves the cursor by what it plays. */
  lemma EveryPopIsSourceOrSilence(g: EndToEnd.Programme, ts: seq<EndToEnd.Transmission>, stream: u32, es: seq<Event>)
    requires EndToEnd.IsHostRun(g, ts) && forall e :: e in es && e.Datagram? ==> EndToEnd.Genuine(g, ts, true, e.bytes)
    ensures var q := Run(NewClient(g.session, stream), es).queue;
            Pop(q).1.Some? ==>
              && q.cursor.Some? && PlaysAt(g, q, Pop(q).1.value, q.cursor.value)
              && Pop(q).0.cursor == Some(q.cursor.value + Pop(q).1.value.Frames())
  {
    hide EndToEnd.IsHostRun, EndToEnd.Sent, Run, EndToEnd.Genuine;
    RunFromHost(g, ts, NewClient(g.session, stream), es);
    var q := Run(NewClient(g.session, stream), es).queue;
    if Pop(q).1.Some? && q.cursor.value in q.packets {
      assert FromHost(ts, q.packets, q.cursor.value);
      var p :| EndToEnd.Sent(ts, p) && p.startFrame == q.cursor.value && q.packets[q.cursor.value] == Wire.ToSwift(p);
      EndToEnd.SentCarries(g, ts, p);
      SameBuffered(p);
    }
  }
}
