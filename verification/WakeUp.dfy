/**
 * Input-ready notification on the client's stream: the edge-triggered filter, the one-packet
 * `handle_hello` with its faked event, and the draining `handle_data`.  Handlers run one at a
 * time from the event loop; what they parse is left open.
 */
module WakeUp {
  import opened Bytes
  import opened Framing
  import opened PacketStream

  /** What a message turns out to be, and the sizes of the reads its parser makes for its arguments. */
  datatype Message =
    | Ordinary(args: seq<nat>)       // parsed, the connection goes on
    | TransferFrame(args: seq<nat>)  // only understood from protocol version 1.7 on
    | Fatal(args: seq<nat>)          // unknown code, close, error or malformed: disconnects

  /** The server's greeting, and the messages that follow by number. */
  datatype Work = Work(helloReads: seq<nat>, helloAccepted: bool, transferV2: bool, script: nat -> Message)

  /** Opening: not connected yet; Greeting: waiting for hello; Talking: the proxy reads messages. */
  datatype Phase = Opening | Greeting | Talking | Gone

  // ---------------------------------------------------------------- places in the input

  /** A reader's place, or that it stopped at a bad header. */
  datatype Place = Place(error: bool, done: seq<Payload>, partial: Payload, size: nat, buffer: seq<byte>)

  /** The place is one in the received bytes. */
  ghost predicate PlaceIn(limit: nat, received: seq<byte>, p: Place) {
    if p.error then p.partial == [] && p.size == 0 && p.buffer == [] && AtBadHeader(limit, received, p.done)
    else At(limit, received, p.done, p.partial, p.size, p.buffer) && (p.size == 0 ==> |p.buffer| < 4)
  }

  predicate Ready(p: Place) {
    0 < p.size <= |p.buffer|
  }

  /** How the reading of messages ends, or that it goes on with the next one. */
  datatype Outcome = Drained | Short | Hangup | Refused | Next

  predicate GoesOn(m: Message, transferV2: bool) {
    m.Ordinary? || (m.TransferFrame? && transferV2)
  }

  /** What becomes of a message in a packet with `size` bytes left. */
  function Fate(size: nat, m: Message, transferV2: bool): Outcome {
    if size < 4 then Short
    else if m.Fatal? then Hangup
    else if GoesOn(m, transferV2) then Next
    else Refused
  }

  /** The same by the place in front of it. */
  function FateAt(p: Place, m: Message, transferV2: bool): Outcome {
    if Ready(p) then Fate(p.size, m, transferV2) else Drained
  }

  /** A transfer frame refused at this place leaves a packet: its own arguments, or another one. */
  ghost predicate LeavesPacket(limit: nat, p: Place) {
    Ready(p) && 4 <= p.size && (p.size > 4 || PacketAt(limit, p.buffer[4..]))
  }

  function Sum(args: seq<nat>): nat {
    if args == [] then 0 else args[0] + Sum(args[1..])
  }

  /** Every message that is read is parsed by reads of exactly its packet, the four byte code aside. */
  ghost predicate Exact(script: nat -> Message, packets: seq<Payload>, transferV2: bool) {
    forall k :: 0 <= k < |packets| && |packets[k]| >= 4 && GoesOn(script(k), transferV2) ==>
      Sum(script(k).args) == |packets[k]| - 4
  }

  /** What reading packets with a script comes to: it ends before packet number `stop`, and how. */
  ghost predicate Reads(script: nat -> Message, packets: seq<Payload>, transferV2: bool, stop: nat, outcome: Outcome) {
    && stop <= |packets|
    && (forall k :: 0 <= k < stop ==> |packets[k]| >= 4 && GoesOn(script(k), transferV2))
    && outcome != Next
    && outcome == if stop == |packets| then Drained else Fate(|packets[stop]|, script(stop), transferV2)
  }

  // ---------------------------------------------------------------- what one event does

  datatype Snapshot = Snapshot(phase: Phase, queued: nat, transferV2: bool, received: seq<byte>, place: Place)

  /** What an event led to: nothing, reading hello, or reading messages up to number `stop`. */
  datatype Visit = NoVisit | Hello | Talk(stop: nat, outcome: Outcome, place: Place)

  predicate Lost(s: Snapshot) {
    s.phase == Talking && Ready(s.place) && s.queued == 0
  }

  /** What the socket has is taken in, up to a bad header, and nothing else happens. */
  ghost predicate TakesIn(limit: nat, pieces: seq<Piece>, s: Snapshot, t: Snapshot) {
    && t == s.(received := t.received, place := t.place)
    && PlaceIn(limit, t.received, t.place) && t.place.done == s.place.done && t.place.partial == s.place.partial
    && s.received <= t.received <= s.received + Concat(pieces)
    && (s.place.error ==> t.place == s.place && t.received == s.received)
    && (!t.place.error ==> t.received == s.received + Concat(pieces))
    && (Ready(s.place) ==> Ready(t.place))
  }

  /** A handler runs on a packet that is ready. */
  ghost predicate Handled(limit: nat, work: Work, s: Snapshot, t: Snapshot, visit: Visit) {
    && t.received == s.received && PlaceIn(limit, t.received, t.place)
    && match visit
       case NoVisit => false
       case Hello => s.phase == Greeting && TookHello(work, s, t)
       case Talk(stop, outcome, place) =>
         && s.phase == Talking && t.queued == 0 && t.transferV2 == s.transferV2
         && Talked(limit, work.script, s, t, stop, outcome, place)
  }

  ghost predicate TookHello(work: Work, s: Snapshot, t: Snapshot) {
    && t.phase == (if work.helloAccepted then Talking else Gone)
    && t.queued == (if t.phase == Talking && Ready(t.place) then 1 else 0)
    && (t.phase == Talking ==> t.transferV2 == work.transferV2)
    && (Ready(s.place) && Sum(work.helloReads) == s.place.size ==>
          t.place.partial == [] && t.place.done == s.place.done + [s.place.partial + s.place.buffer[..s.place.size]])
  }

  /**
   * Messages were read up to number `stop`, which stands at `place`.  A live stream is left with
   * a packet ready if and only if a transfer frame was refused there and leaves one.
   */
  ghost predicate Talked(limit: nat, script: nat -> Message, s: Snapshot, t: Snapshot,
                         stop: nat, outcome: Outcome, place: Place)
  {
    && PlaceIn(limit, t.received, place) && (stop == 0 ==> place == s.place)
    && (forall k :: 0 <= k < stop ==> GoesOn(script(k), t.transferV2))
    && outcome == FateAt(place, script(stop), t.transferV2) && outcome != Next
    && t.phase == (if outcome == Short || outcome == Hangup then Gone else Talking)
    && (t.phase == Talking ==> (Ready(t.place) <==> outcome == Refused && LeavesPacket(limit, place)))
    && (outcome == Drained ==> t.place == place)
    && var packets := Ahead(limit, s.received, s.place.done);
       s.place.partial == [] && Exact(script, packets, t.transferV2) ==>
         && Reads(script, packets, t.transferV2, stop, outcome)
         && place.partial == [] && place.done == s.place.done + packets[..stop]
         && LeftBehind(packets, s.place.done, t.place, stop, outcome)
  }

  /** What is left after reading whole packets ended before number `stop`. */
  ghost predicate LeftBehind(packets: seq<Payload>, done0: seq<Payload>, p: Place, stop: nat, outcome: Outcome)
    requires stop <= |packets| && (outcome == Refused ==> stop < |packets|)
  {
    && (outcome == Drained ==> p.partial == [] && p.done == done0 + packets)
    && (outcome == Refused ==> (Ready(p) <==> |packets[stop]| > 4 || stop + 1 < |packets|))
    && (outcome == Refused && |packets[stop]| == 4 ==> p.partial == [] && p.done == done0 + packets[..stop + 1])
  }

  class ClientStream {
    const filter: PacketStreamFilter
    var phase: Phase
    var queued: nat        // input-ready events for the filter waiting in the event queue
    var transferV2: bool

    ghost predicate Sound()
      reads this, filter
    {
      && filter.Valid() && !filter.closed && filter.limit < TWO_TO_THE_32
      && queued <= 1 && (phase == Opening || phase == Greeting ==> queued == 0)
    }

    /** Between handlers: nothing is ready before hello, and a queued event has a packet to read. */
    ghost predicate Valid()
      reads this, filter
    {
      && Sound()
      && (phase == Opening || phase == Greeting ==> !filter.IsReady())
      && (phase == Talking && queued > 0 ==> filter.IsReady())
    }

    /** A complete packet is buffered on a live stream and no event is coming for it. */
    predicate Lost()
      reads this, filter
    {
      phase == Talking && filter.IsReady() && queued == 0
    }

    ghost function Here(): (p: Place)
      reads filter
      ensures Ready(p) == filter.IsReady()
    {
      Place(filter.inputFormatError, filter.done, filter.partial, filter.size, filter.buffer)
    }

    lemma HereIsIn()
      requires Sound()
      ensures PlaceIn(filter.limit, filter.received, Here())
    {
    }

    /** The whole packets that are still to be read, the one in progress from its beginning. */
    ghost function Packets(): seq<Payload>
      reads this, filter
    {
      Ahead(filter.limit, filter.received, filter.done)
    }

    /** Between two packets, the next whole packet is the one that can be read. */
    lemma PacketsHere()
      requires Sound() && filter.partial == []
      ensures filter.IsReady() <==> Packets() != []
      ensures Packets() != [] ==>
                && filter.size == |Packets()[0]| && filter.buffer[..filter.size] == Packets()[0]
                && (PacketAt(filter.limit, filter.buffer[filter.size..]) <==> |Packets()| > 1)
                && Ahead(filter.limit, filter.received, filter.done + [Packets()[0]]) == Packets()[1..]
    {
      hide FrameAll, FromBE32, PacketAt, Whole;
      if filter.inputFormatError {
        NothingAhead(filter.limit, filter.received, filter.done, []);
        assert filter.received + [] == filter.received;
      } else {
        AheadHere(filter.limit, filter.received, filter.done, filter.size, filter.buffer);
      }
      if Packets() != [] {
        AheadNext(filter.limit, filter.received, filter.done);
      }
    }

    constructor (limit: nat)
      requires 1 <= limit < TWO_TO_THE_32
      ensures Valid() && fresh(filter) && filter.limit == limit
      ensures phase == Opening && queued == 0 && !transferV2
      ensures filter.received == [] && Here() == Place(false, [], [], 0, [])
    {
      filter := new PacketStreamFilter(limit);
      phase, queued, transferV2 := Opening, 0, false;
    }

    /** The reads of a typed parser.  Those that add up to what is left of the packet finish it. */
    method ReadAll(args: seq<nat>)
      requires filter.Valid() && !filter.closed
      modifies filter
      ensures filter.Valid() && !filter.closed && filter.received == old(filter.received)
      ensures |filter.buffer| <= |old(filter.buffer)|
      ensures Sum(args) == 0 ==> Here() == old(Here())
      ensures old(filter.IsReady()) && Sum(args) == old(filter.size) ==>
                && filter.partial == []
                && filter.done == old(filter.done) + [old(filter.partial) + old(filter.buffer)[..old(filter.size)]]
    {
      hide At, AtBadHeader, Delivered, FrameAll, Frame, FromBE32, Writable, Sendable, PacketAt, Sum;
      hide PacketStreamFilter.Tracking;
      var i := 0;
      ghost var exact := filter.IsReady() && Sum(args) == filter.size;
      ghost var packet := if exact then filter.partial + filter.buffer[..filter.size] else [];
      assert args[0..] == args;
      while i < |args|
        invariant 0 <= i <= |args| && filter.Valid() && !filter.closed
        invariant filter.received == old(filter.received) && |filter.buffer| <= |old(filter.buffer)|
        invariant Sum(args) == 0 ==> Sum(args[i..]) == 0 && Here() == old(Here())
        invariant exact && Sum(args[i..]) > 0 ==>
                    && filter.IsReady() && filter.size == Sum(args[i..]) && filter.done == old(filter.done)
                    && packet == filter.partial + filter.buffer[..filter.size]
        invariant exact && Sum(args[i..]) == 0 ==> filter.partial == [] && filter.done == old(filter.done) + [packet]
      {
        SumStep(args, i);
        ghost var before := Here();
        var out := filter.Read(args[i]);
        assert exact && Sum(args[i..]) > 0 && args[i] > 0 ==>
            before.partial + before.buffer[..before.size]
            == before.partial + out + before.buffer[|out|..][..before.size - |out|];
        i := i + 1;
      }
      NoSum(args);
    }

    /** Reads hello, and fakes an event if there is more to read. */
    method HandleHello(work: Work)
      requires Sound() && phase == Greeting
      modifies this, filter
      ensures Valid() && !Lost() && phase == if work.helloAccepted then Talking else Gone
      ensures queued == if phase == Talking && filter.IsReady() then 1 else 0
      ensures phase == Talking ==> transferV2 == work.transferV2
      ensures filter.received == old(filter.received)
      ensures old(filter.IsReady()) && Sum(work.helloReads) == old(filter.size) ==>
                && filter.partial == []
                && filter.done == old(filter.done) + [old(filter.partial) + old(filter.buffer)[..old(filter.size)]]
    {
      hide At, AtBadHeader, Delivered, FrameAll, Frame, FromBE32, Writable, Sendable, PacketAt, Sum;
      ReadAll(work.helloReads);
      if !work.helloAccepted {
        phase := Gone;
        return;
      }
      phase, transferV2 := Talking, work.transferV2;
      if filter.IsReady() {
        queued := queued + 1;
      }
    }

    /** Parses a message whose code has been read; false if no other is to be read. */
    method ParseMessage(message: Message) returns (goesOn: bool)
      requires Sound() && phase == Talking
      modifies this`phase, filter
      ensures Sound() && filter.received == old(filter.received) && |filter.buffer| <= |old(filter.buffer)|
      ensures goesOn == GoesOn(message, transferV2)
      ensures phase == if message.Fatal? then Gone else Talking
      ensures message.TransferFrame? && !transferV2 ==> Here() == old(Here())
      ensures goesOn && Sum(message.args) == 0 ==> Here() == old(Here())
      ensures goesOn && old(filter.IsReady()) && Sum(message.args) == old(filter.size) ==>
                && filter.partial == []
                && filter.done == old(filter.done) + [old(filter.partial) + old(filter.buffer)[..old(filter.size)]]
    {
      hide At, AtBadHeader, Delivered, FrameAll, Frame, FromBE32, Writable, Sendable, PacketAt, Sum;
      match message {
        case Ordinary(args) =>
          ReadAll(args);
        case TransferFrame(args) =>
          if !transferV2 {
            return false;
          }
          ReadAll(args);
        case Fatal(args) =>
          ReadAll(args);
          phase := Gone;
          return false;
      }
      goesOn := true;
    }

    /** One round of the loop over messages: the code and what it asks for. */
    method ReadMessage(message: Message) returns (outcome: Outcome)
      requires Sound() && phase == Talking && queued == 0
      modifies this`phase, filter
      ensures Sound() && filter.received == old(filter.received)
      ensures outcome == FateAt(old(Here()), message, transferV2)
      ensures phase == if outcome == Short || outcome == Hangup then Gone else Talking
      ensures outcome == Drained ==> Here() == old(Here())
      ensures outcome == Refused ==> (filter.IsReady() <==> LeavesPacket(filter.limit, old(Here())))
      ensures outcome == Next ==> |filter.buffer| < |old(filter.buffer)|
      ensures old(filter.partial) == []
              && ((outcome == Next && Sum(message.args) == old(filter.size) - 4)
                  || (outcome == Refused && old(filter.size) == 4)) ==>
                filter.partial == [] && filter.done == old(filter.done) + [old(filter.buffer)[..old(filter.size)]]
    {
      hide At, AtBadHeader, Delivered, FrameAll, Frame, FromBE32, Writable, Sendable, PacketAt, Sum;
      var code := filter.Read(4);
      if code == [] {
        return Drained;
      }
      if |code| != 4 {
        phase := Gone;
        return Short;
      }
      assert [] + code == code;
      assert old(filter.size) > 4 ==>
          code + filter.buffer[..filter.size] == old(filter.buffer)[..old(filter.size)];
      var goesOn := ParseMessage(message);
      outcome := if goesOn then Next else if phase == Gone then Hangup else Refused;
    }

    /**
     * Reads messages until none is left or one ends it, `place` being where message number
     * `stop` stands.  A live stream is left with a packet ready if and only if a transfer frame
     * was refused there and leaves one.  If the parsers read exactly their packets, `stop` and
     * `outcome` are those of reading the whole packets that were buffered.
     */
    method HandleData(script: nat -> Message) returns (stop: nat, outcome: Outcome, ghost place: Place)
      requires Sound() && phase == Talking && queued == 0
      modifies this`phase, filter
      ensures Valid() && filter.received == old(filter.received)
      ensures Talked(filter.limit, script, old(Now()), Now(), stop, outcome, place)
    {
      hide At, AtBadHeader, Delivered, FrameAll, Frame, FromBE32, Writable, Sendable, PacketAt, Sum, Whole, Ahead;
      hide PlaceIn, PacketStreamFilter.Tracking, Talked, LeavesPacket;
      stop := 0;
      ghost var packets, done0, start := Packets(), filter.done, Now();
      ghost var exact := filter.partial == [] && Exact(script, packets, transferV2);
      assert packets[0..] == packets && packets[..0] == [] && done0 + [] == done0;
      while true
        invariant Sound() && phase == Talking && queued == 0 && filter.received == old(filter.received)
        invariant stop == 0 ==> Here() == old(Here())
        invariant forall k :: 0 <= k < stop ==> GoesOn(script(k), transferV2)
        invariant exact ==>
                    && stop <= |packets| && (forall k :: 0 <= k < stop ==> |packets[k]| >= 4)
                    && filter.partial == [] && filter.done == done0 + packets[..stop] && Packets() == packets[stop..]
        decreases |filter.buffer|
      {
        HereIsIn();
        place := Here();
        if exact {
          PacketsHere();
          Another(done0, packets, stop);
        }
        outcome := ReadMessage(script(stop));
        if outcome != Next {
          TalkEnds(filter.limit, script, start, Now(), stop, outcome, place);
          return;
        }
        stop := stop + 1;
      }
    }

    /** The stream as a value. */
    ghost function Now(): Snapshot
      reads this, filter
    {
      Snapshot(phase, queued, transferV2, filter.received, Here())
    }

    /** Runs the handler that the filter's input-ready event has. */
    method Dispatch(work: Work) returns (ghost visit: Visit)
      requires Sound() && (phase == Greeting || phase == Talking) && queued == 0 && filter.IsReady()
      modifies this, filter
      ensures Valid() && Handled(filter.limit, work, old(Now()), Now(), visit)
    {
      hide At, AtBadHeader, Delivered, FrameAll, Frame, FromBE32, Writable, Sendable, PacketAt, Sum, Whole;
      if phase == Greeting {
        visit := Hello;
        HandleHello(work);
      } else {
        ghost var packets := Packets();
        ghost var place;
        var stop, outcome;
        stop, outcome, place := HandleData(work.script);
        visit := Talk(stop, outcome, place);
      }
      HereIsIn();
    }

    /** An input-ready event of the socket, with the pieces that the socket has. */
    method SocketReady(pieces: seq<Piece>, work: Work) returns (ghost intake: Snapshot, ghost visit: Visit)
      requires Valid() && (phase == Greeting || phase == Talking)
      modifies this, filter
      ensures Valid() && TakesIn(filter.limit, pieces, old(Now()), intake)
      ensures if Ready(old(Here())) || !Ready(intake.place) then Now() == intake && visit == NoVisit
              else Handled(filter.limit, work, intake, Now(), visit)
    {
      hide At, AtBadHeader, Delivered, FrameAll, Frame, FromBE32, Writable, Sendable, PacketAt, Concat, Sum, Whole;
      visit := NoVisit;
      var passed, taken := filter.FilterEvent(InputReady, pieces);
      assert pieces[..|pieces|] == pieces;
      ConcatPrefix(pieces, taken);
      ConcatNone<byte>();
      assert pieces[..0] == [];
      HereIsIn();
      intake := Now();
      if passed {
        visit := Dispatch(work);
      }
    }

    /** The faked event, if one is waiting, comes to the front of the event queue. */
    method QueuedReady(work: Work) returns (ghost visit: Visit)
      requires Valid() && (phase == Greeting || phase == Talking)
      modifies this, filter
      ensures Valid()
      ensures if old(queued) == 0 then Now() == old(Now()) && visit == NoVisit
              else Handled(filter.limit, work, old(Now()).(queued := 0), Now(), visit)
    {
      hide At, AtBadHeader, Delivered, FrameAll, Frame, FromBE32, Writable, Sendable, PacketAt, Sum, Whole;
      visit := NoVisit;
      if queued > 0 {
        queued := queued - 1;
        visit := Dispatch(work);
      }
    }
  }

  /** Nothing is ready at the place, or it has the packet number `stop`. */
  ghost predicate Found(limit: nat, packets: seq<Payload>, stop: nat, place: Place) {
    && stop <= |packets| && (Ready(place) <==> stop < |packets|)
    && (stop < |packets| ==>
          && place.size == |packets[stop]| && place.buffer[..place.size] == packets[stop]
          && (PacketAt(limit, place.buffer[place.size..]) <==> stop + 1 < |packets|))
  }

  lemma TalkEnds(limit: nat, script: nat -> Message, s: Snapshot, t: Snapshot,
                 stop: nat, outcome: Outcome, place: Place)
    requires PlaceIn(limit, t.received, place) && (stop == 0 ==> place == s.place)
    requires forall k :: 0 <= k < stop ==> GoesOn(script(k), t.transferV2)
    requires outcome == FateAt(place, script(stop), t.transferV2) && outcome != Next
    requires t.phase == if outcome == Short || outcome == Hangup then Gone else Talking
    requires outcome == Drained ==> t.place == place
    requires outcome == Refused ==> (Ready(t.place) <==> LeavesPacket(limit, place))
    requires var packets := Ahead(limit, s.received, s.place.done);
             s.place.partial == [] && Exact(script, packets, t.transferV2) ==>
               && Found(limit, packets, stop, place) && (forall k :: 0 <= k < stop ==> |packets[k]| >= 4)
               && place.partial == [] && place.done == s.place.done + packets[..stop]
               && (outcome == Refused && place.size == 4 ==>
                     t.place.partial == [] && t.place.done == place.done + [packets[stop]])
    ensures Talked(limit, script, s, t, stop, outcome, place)
  {
    hide PlaceIn, Ahead, Exact, PacketAt;
    var packets := Ahead(limit, s.received, s.place.done);
    if s.place.partial == [] && Exact(script, packets, t.transferV2) {
      Another(s.place.done, packets, stop);
    }
  }

  lemma Another(done: seq<Payload>, packets: seq<Payload>, k: nat)
    requires k <= |packets|
    ensures k < |packets| ==>
              && packets[k..] == [packets[k]] + packets[k + 1..] && packets[k..][1..] == packets[k + 1..]
              && done + packets[..k] + [packets[k]] == done + packets[..k + 1]
    ensures k == |packets| ==> packets[..k] == packets
  {
    if k < |packets| {
      assert packets[..k + 1] == packets[..k] + [packets[k]];
    }
  }

  lemma SumStep(args: seq<nat>, i: nat)
    requires i < |args|
    ensures Sum(args[i..]) == args[i] + Sum(args[i + 1..])
  {
    assert args[i..][1..] == args[i + 1..];
  }

  lemma NoSum(args: seq<nat>)
    ensures Sum(args[|args|..]) == 0
  {
  }

  // ---------------------------------------------------------------- whole runs

  /** What the event loop dispatches to the stream, in any order. */
  datatype Step =
    | Connected
    | FromSocket(pieces: seq<Piece>, work: Work)
    | FromQueue(work: Work)
    | Ended            // disconnected, timed out or suspended: the stream is deleted

  predicate Live(s: Snapshot) {
    s.phase == Greeting || s.phase == Talking
  }

  /** The socket's event takes in what there is, and runs a handler if a packet has become ready. */
  ghost predicate Through(limit: nat, pieces: seq<Piece>, work: Work, s: Snapshot, u: Snapshot, t: Snapshot,
                          visit: Visit)
  {
    && TakesIn(limit, pieces, s, u)
    && if Ready(s.place) || !Ready(u.place) then t == u && visit == NoVisit else Handled(limit, work, u, t, visit)
  }

  /** What one step does to the stream. */
  ghost predicate Follows(limit: nat, step: Step, s: Snapshot, t: Snapshot, visit: Visit) {
    match step
    case Connected => t == (if s.phase == Opening then s.(phase := Greeting) else s) && visit == NoVisit
    case Ended => t == s.(phase := Gone) && visit == NoVisit
    case FromSocket(pieces, work) =>
      if Live(s) then exists u :: Through(limit, pieces, work, s, u, t, visit) else t == s && visit == NoVisit
    case FromQueue(work) =>
      if Live(s) && s.queued > 0 then Handled(limit, work, s.(queued := 0), t, visit) else t == s && visit == NoVisit
  }

  /** One step, if it can happen now. */
  method Happen(c: ClientStream, step: Step) returns (ghost visit: Visit)
    requires c.Valid()
    modifies c, c.filter
    ensures c.Valid() && Follows(c.filter.limit, step, old(c.Now()), c.Now(), visit)
  {
    hide At, AtBadHeader, Delivered, FrameAll, Frame, FromBE32, Writable, Sendable, PacketAt, Sum, Whole;
    hide Handled, TakesIn;
    visit := NoVisit;
    match step {
      case Connected =>
        if c.phase == Opening { c.phase := Greeting; }
      case FromSocket(pieces, work) =>
        if c.phase == Greeting || c.phase == Talking {
          ghost var s := c.Now();
          ghost var u;
          u, visit := c.SocketReady(pieces, work);
          assert Through(c.filter.limit, pieces, work, s, u, c.Now(), visit);
        }
      case FromQueue(work) =>
        if c.phase == Greeting || c.phase == Talking { visit := c.QueuedReady(work); }
      case Ended =>
        c.phase := Gone;
    }
  }

  const START := Snapshot(Opening, 0, false, [], Place(false, [], [], 0, []))

  /** The states that a run goes through, and what each of its steps led to. */
  ghost predicate IsRun(limit: nat, steps: seq<Step>, trace: seq<Snapshot>, visits: seq<Visit>) {
    && limit < TWO_TO_THE_32
    && |trace| == |steps| + 1 && |visits| == |steps| && trace[0] == START
    && forall i :: 0 <= i < |steps| ==> Follows(limit, steps[i], trace[i], trace[i + 1], visits[i])
  }

  /** Every run of the stream, state by state. */
  method Run(limit: nat, steps: seq<Step>)
    returns (phase: Phase, lost: bool, ghost trace: seq<Snapshot>, ghost visits: seq<Visit>)
    requires 1 <= limit < TWO_TO_THE_32
    ensures IsRun(limit, steps, trace, visits)
    ensures phase == trace[|steps|].phase && lost == Lost(trace[|steps|])
    ensures lost <==> Abandoned(limit, steps, visits)
    ensures phase == Opening <==> Connected !in steps && Ended !in steps
    ensures Ended in steps ==> phase == Gone
    ensures phase == Greeting ==> Whole(limit, Input(steps)) == []
    ensures (lost ==> phase == Talking) && (NeverTransfers(steps) ==> !lost)
  {
    hide At, AtBadHeader, Delivered, FrameAll, Frame, FromBE32, Writable, Sendable, PacketAt, Sum, Whole, Follows;
    var c := new ClientStream(limit);
    trace, visits := [c.Now()], [];
    var i := 0;
    while i < |steps|
      invariant 0 <= i <= |steps| && c.Valid() && fresh(c) && fresh(c.filter) && c.filter.limit == limit
      invariant |trace| == i + 1 && |visits| == i && trace[0] == START && trace[i] == c.Now()
      invariant forall k :: 0 <= k < i ==> Follows(limit, steps[k], trace[k], trace[k + 1], visits[k])
    {
      ghost var visit := Happen(c, steps[i]);
      trace, visits := trace + [c.Now()], visits + [visit];
      i := i + 1;
    }
    LostIff(limit, steps, trace, visits);
    phase, lost := c.phase, c.Lost();
    PhaseAt(limit, steps, trace, visits, |steps|);
    GreetingHasNoPacket(limit, steps, trace, visits);
    if NeverTransfers(steps) {
      NeverLost(limit, steps, trace, visits);
    }
    assert steps[..|steps|] == steps;
  }

  // ---------------------------------------------------------------- when a wake-up is lost

  /** A transfer frame was refused and left a packet. */
  ghost predicate Loses(limit: nat, visit: Visit) {
    visit.Talk? && visit.outcome == Refused && LeavesPacket(limit, visit.place)
  }

  /** What every state of a run keeps. */
  ghost predicate Steady(limit: nat, s: Snapshot) {
    && PlaceIn(limit, s.received, s.place) && s.queued <= 1
    && (s.phase == Opening || s.phase == Greeting ==> s.queued == 0 && !Ready(s.place))
    && (s.phase == Talking && s.queued > 0 ==> Ready(s.place))
  }

  /** One step loses a wake-up only by a refusal, and only deleting the stream ends the loss. */
  lemma LostStep(limit: nat, step: Step, s: Snapshot, t: Snapshot, visit: Visit)
    requires Steady(limit, s) && Follows(limit, step, s, t, visit)
    ensures Steady(limit, t)
    ensures Lost(t) <==> (Lost(s) && !step.Ended?) || Loses(limit, visit)
  {
    hide PlaceIn, LeavesPacket, Reads, Exact, LeftBehind, Ahead, Sum;
  }

  /** The stream is not deleted after step `i`. */
  ghost predicate Lives(steps: seq<Step>, i: int) {
    forall j :: 0 <= i < j < |steps| ==> !steps[j].Ended?
  }

  /** A refusal left a packet behind, and the stream has not been deleted since. */
  ghost predicate Abandoned(limit: nat, steps: seq<Step>, visits: seq<Visit>) {
    |visits| == |steps| && exists i :: 0 <= i < |steps| && Loses(limit, visits[i]) && Lives(steps, i)
  }

  lemma AbandonedStep(limit: nat, steps: seq<Step>, visits: seq<Visit>, n: nat)
    requires n < |steps| == |visits|
    ensures Abandoned(limit, steps[..n + 1], visits[..n + 1])
            <==> (Abandoned(limit, steps[..n], visits[..n]) && !steps[n].Ended?) || Loses(limit, visits[n])
  {
    hide Loses;
    var before, after, vs, ws := steps[..n], steps[..n + 1], visits[..n], visits[..n + 1];
    assert after[n] == steps[n] && ws[n] == visits[n];
    assert forall k :: 0 <= k < n ==> after[k] == before[k] && ws[k] == vs[k];
    assert Lives(after, n);
    assert forall k :: 0 <= k < n ==> (Lives(after, k) <==> Lives(before, k) && !steps[n].Ended?);
    if Abandoned(limit, before, vs) && !steps[n].Ended? {
      var k :| 0 <= k < n && Loses(limit, vs[k]) && Lives(before, k);
      assert Loses(limit, ws[k]) && Lives(after, k);
    }
    if Loses(limit, visits[n]) {
      assert Loses(limit, ws[n]);
    }
  }

  lemma {:induction false} LostAt(limit: nat, steps: seq<Step>, trace: seq<Snapshot>, visits: seq<Visit>, n: nat)
    requires IsRun(limit, steps, trace, visits) && n <= |steps|
    ensures Steady(limit, trace[n])
    ensures Lost(trace[n]) <==> Abandoned(limit, steps[..n], visits[..n])
  {
    hide Follows, Steady, Loses, Abandoned;
    if n == 0 {
      NothingAbandoned(limit);
    } else {
      LostAt(limit, steps, trace, visits, n - 1);
      LostStep(limit, steps[n - 1], trace[n - 1], trace[n], visits[n - 1]);
      AbandonedStep(limit, steps, visits, n - 1);
    }
  }

  lemma NothingAbandoned(limit: nat)
    requires limit < TWO_TO_THE_32
    ensures !Abandoned(limit, [], []) && Steady(limit, START)
  {
  }

  /** A wake-up is lost if and only if a transfer frame was refused, left a packet, and the stream lives. */
  lemma LostIff(limit: nat, steps: seq<Step>, trace: seq<Snapshot>, visits: seq<Visit>)
    requires IsRun(limit, steps, trace, visits)
    ensures Lost(trace[|steps|]) <==> Abandoned(limit, steps, visits)
  {
    LostAt(limit, steps, trace, visits, |steps|);
    assert steps[..|steps|] == steps && visits[..|steps|] == visits;
  }

  // ---------------------------------------------------------------- where it happens in the input

  /** What the socket has brought since it was connected. */
  ghost function Input(steps: seq<Step>): seq<byte> {
    if steps == [] then []
    else
      var init, last := steps[..|steps| - 1], steps[|steps| - 1];
      Input(init) + if last.FromSocket? && Connected in init then Concat(last.pieces) else []
  }

  lemma InputStep(steps: seq<Step>, i: nat)
    requires i <= |steps|
    ensures Input(steps[..0]) == []
    ensures i < |steps| ==>
              && Input(steps[..i + 1]) == Input(steps[..i]) +
                 (if steps[i].FromSocket? && Connected in steps[..i] then Concat(steps[i].pieces) else [])
              && (Connected in steps[..i + 1] <==> Connected in steps[..i] || steps[i].Connected?)
  {
    if i < |steps| {
      assert steps[..i + 1] == steps[..i] + [steps[i]] && steps[..i + 1][..i] == steps[..i];
    }
  }

  /** What a state of a run has to do with what the socket has brought. */
  ghost predicate Brought(steps: seq<Step>, n: nat, s: Snapshot)
    requires n <= |steps|
  {
    && (s.phase == Opening ==> Connected !in steps[..n])
    && (Live(s) ==> Connected in steps[..n])
    && (s.phase != Gone ==> s.received <= Input(steps[..n]) && (!s.place.error ==> s.received == Input(steps[..n])))
  }

  lemma BroughtStep(limit: nat, steps: seq<Step>, n: nat, s: Snapshot, t: Snapshot, visit: Visit)
    requires n < |steps| && Brought(steps, n, s) && Steady(limit, s) && Follows(limit, steps[n], s, t, visit)
    requires s.phase == Opening ==> !s.place.error && s.received == []
    ensures Brought(steps, n + 1, t)
    ensures t.phase == Opening ==> !t.place.error && t.received == []
    ensures visit != NoVisit ==> Live(s) && t.received == Input(steps[..n + 1])
  {
    hide At, AtBadHeader, LeavesPacket, Reads, Exact, LeftBehind, Ahead, Sum, Input, Concat;
    InputStep(steps, n);
  }

  /**
   * On a live stream the reader's place is one in what the socket has brought, all of it unless
   * a bad header stopped the reader; and so is the place of every message that ended a handler.
   */
  lemma {:induction false} RunReadsInput(limit: nat, steps: seq<Step>, trace: seq<Snapshot>, visits: seq<Visit>, n: nat)
    requires IsRun(limit, steps, trace, visits) && n <= |steps|
    ensures Brought(steps, n, trace[n])
    ensures trace[n].phase == Opening ==> !trace[n].place.error && trace[n].received == []
    ensures forall k :: 0 <= k < n && visits[k] != NoVisit ==>
              Live(trace[k]) && trace[k + 1].received == Input(steps[..k + 1])
  {
    hide Follows, Brought, Input, Steady;
    if n == 0 {
      NothingBrought(steps);
    } else {
      RunReadsInput(limit, steps, trace, visits, n - 1);
      LostAt(limit, steps, trace, visits, n - 1);
      BroughtStep(limit, steps, n - 1, trace[n - 1], trace[n], visits[n - 1]);
    }
  }

  lemma NothingBrought(steps: seq<Step>)
    ensures Brought(steps, 0, START)
  {
    InputStep(steps, 0);
  }

  /** What the phase has to do with the steps so far. */
  ghost predicate PhaseFits(steps: seq<Step>, s: Snapshot) {
    && (s.phase == Opening <==> Connected !in steps && Ended !in steps)
    && (Ended in steps ==> s.phase == Gone)
    && (s.phase == Opening || s.phase == Greeting ==> s.place.done == [] && s.place.partial == [])
  }

  lemma PhaseStep(limit: nat, before: seq<Step>, step: Step, s: Snapshot, t: Snapshot, visit: Visit)
    requires PhaseFits(before, s) && Follows(limit, step, s, t, visit)
    ensures PhaseFits(before + [step], t)
  {
    hide PlaceIn, LeavesPacket, Reads, Exact, LeftBehind, Ahead, Sum, Concat;
    assert Connected in before + [step] <==> Connected in before || step.Connected?;
    assert Ended in before + [step] <==> Ended in before || step.Ended?;
  }

  lemma {:induction false} PhaseAt(limit: nat, steps: seq<Step>, trace: seq<Snapshot>, visits: seq<Visit>, n: nat)
    requires IsRun(limit, steps, trace, visits) && n <= |steps|
    ensures PhaseFits(steps[..n], trace[n])
  {
    hide Follows, PhaseFits;
    if n == 0 {
      StartFits(steps);
    } else {
      PhaseAt(limit, steps, trace, visits, n - 1);
      PhaseStep(limit, steps[..n - 1], steps[n - 1], trace[n - 1], trace[n], visits[n - 1]);
      assert steps[..n] == steps[..n - 1] + [steps[n - 1]];
    }
  }

  lemma StartFits(steps: seq<Step>)
    ensures PhaseFits(steps[..0], START)
  {
  }

  /** Hello is waited for only as long as no whole packet has come. */
  lemma GreetingHasNoPacket(limit: nat, steps: seq<Step>, trace: seq<Snapshot>, visits: seq<Visit>)
    requires IsRun(limit, steps, trace, visits)
    ensures trace[|steps|].phase == Greeting ==> Whole(limit, Input(steps)) == []
  {
    hide Follows, Input, Whole, FromBE32;
    var s, input := trace[|steps|], Input(steps);
    PhaseAt(limit, steps, trace, visits, |steps|);
    LostAt(limit, steps, trace, visits, |steps|);
    RunReadsInput(limit, steps, trace, visits, |steps|);
    assert steps[..|steps|] == steps;
    if s.phase == Greeting {
      assert Rest(input, []) == input;
      if s.place.error {
        assert input == s.received + input[|s.received|..];
        NothingAhead(limit, s.received, [], input[|s.received|..]);
      } else {
        AheadHere(limit, s.received, [], s.place.size, s.place.buffer);
      }
    }
  }

  ghost predicate HasWork(step: Step) {
    step.FromSocket? || step.FromQueue?
  }

  /** Before step `n`, hello was taken with this version. */
  ghost predicate Negotiated(steps: seq<Step>, visits: seq<Visit>, n: nat, transferV2: bool)
    requires n <= |steps| == |visits|
  {
    exists h :: 0 <= h < n && visits[h] == Hello && HasWork(steps[h]) && steps[h].work.helloAccepted
                && steps[h].work.transferV2 == transferV2
  }

  lemma VersionStep(limit: nat, step: Step, s: Snapshot, t: Snapshot, visit: Visit)
    requires Follows(limit, step, s, t, visit) && t.phase == Talking
    ensures if visit == Hello then HasWork(step) && step.work.helloAccepted && step.work.transferV2 == t.transferV2
            else s.phase == Talking && s.transferV2 == t.transferV2
  {
    hide PlaceIn, LeavesPacket, Reads, Exact, LeftBehind, Ahead, Sum, Concat;
  }

  /** The version that decides about refusals is the one of the step that took hello. */
  lemma {:induction false} VersionAt(limit: nat, steps: seq<Step>, trace: seq<Snapshot>, visits: seq<Visit>, n: nat)
    requires IsRun(limit, steps, trace, visits) && n <= |steps|
    ensures trace[n].phase == Talking ==> Negotiated(steps, visits, n, trace[n].transferV2)
  {
    hide Follows;
    if n > 0 && trace[n].phase == Talking {
      VersionAt(limit, steps, trace, visits, n - 1);
      VersionStep(limit, steps[n - 1], trace[n - 1], trace[n], visits[n - 1]);
    }
  }

  lemma RefusedStep(limit: nat, step: Step, s: Snapshot, t: Snapshot, visit: Visit)
    requires Follows(limit, step, s, t, visit) && Loses(limit, visit)
    ensures HasWork(step) && step.work.script(visit.stop).TransferFrame? && t.phase == Talking && !t.transferV2
    ensures forall k :: 0 <= k < visit.stop ==> GoesOn(step.work.script(k), false)
    ensures PlaceIn(limit, t.received, visit.place)
  {
    hide PlaceIn, Reads, Exact, LeftBehind, Ahead, Sum, Concat;
  }

  /**
   * Every refusal that loses a wake-up: a version below 1.7 was negotiated by the step that took
   * hello, all messages of the batch before it were parsed, it is a transfer frame, and it stands
   * at its place in what the socket has brought.
   */
  lemma RefusalExplained(limit: nat, steps: seq<Step>, trace: seq<Snapshot>, visits: seq<Visit>, i: nat)
    requires IsRun(limit, steps, trace, visits) && i < |steps| && Loses(limit, visits[i])
    ensures visits[i].Talk? && HasWork(steps[i]) && steps[i].work.script(visits[i].stop).TransferFrame?
    ensures forall k :: 0 <= k < visits[i].stop ==> GoesOn(steps[i].work.script(k), false)
    ensures Negotiated(steps, visits, i + 1, false)
    ensures PlaceIn(limit, Input(steps[..i + 1]), visits[i].place)
  {
    hide Follows, PlaceIn, LeavesPacket;
    assert Follows(limit, steps[i], trace[i], trace[i + 1], visits[i]);
    RefusedStep(limit, steps[i], trace[i], trace[i + 1], visits[i]);
    VersionAt(limit, steps, trace, visits, i + 1);
    RunReadsInput(limit, steps, trace, visits, i + 1);
  }

  ghost predicate AlwaysV2(steps: seq<Step>, visits: seq<Visit>)
    requires |steps| == |visits|
  {
    forall h :: 0 <= h < |steps| && visits[h] == Hello && HasWork(steps[h]) ==> steps[h].work.transferV2
  }

  ghost predicate NeverTransfers(steps: seq<Step>) {
    forall i :: 0 <= i < |steps| && HasWork(steps[i]) ==> TransferFree(steps[i].work.script)
  }

  ghost predicate TransferFree(script: nat -> Message) {
    forall k: nat :: !script(k).TransferFrame?
  }

  /** With version 1.7 negotiated, or without transfer frames, no wake-up is ever lost. */
  lemma NeverLost(limit: nat, steps: seq<Step>, trace: seq<Snapshot>, visits: seq<Visit>)
    requires IsRun(limit, steps, trace, visits)
    requires AlwaysV2(steps, visits) || NeverTransfers(steps)
    ensures !Lost(trace[|steps|])
  {
    hide Follows, Loses, IsRun;
    LostIff(limit, steps, trace, visits);
    if Abandoned(limit, steps, visits) {
      var i :| 0 <= i < |steps| && Loses(limit, visits[i]) && Lives(steps, i);
      RefusalExplained(limit, steps, trace, visits, i);
    }
  }

  // ---------------------------------------------------------------- it happens

  /** "Barrier" and version 1.6. */
  const HELLO: Payload := [0x42, 0x61, 0x72, 0x72, 0x69, 0x65, 0x72, 0, 1, 0, 6]

  /** The message code of a transfer frame, and four bytes of it. */
  const TRANSFER: Payload := [0x44, 0x54, 0x52, 0x32, 1, 2, 3, 4]

  /**
   * The socket brings the one packet that is still to be delivered of those sent: the filter
   * becomes ready for it.
   */
  method Arrives(c: ClientStream, done: seq<Payload>, next: Payload)
    requires c.Sound() && c.phase != Opening && !c.filter.IsReady() && c.filter.limit < TWO_TO_THE_32
    requires Sendable(c.filter.limit, done) && GoodSize(c.filter.limit, |next|) && |next| <= 4092
    requires c.filter.received == FrameAll(done) && c.filter.done == done && c.filter.partial == []
    requires !c.filter.inputFormatError
    modifies c.filter
    ensures c.Sound() && c.filter.IsReady() && c.filter.size == |next|
    ensures c.filter.done == done && c.filter.partial == []
    ensures Sendable(c.filter.limit, done + [next]) && c.filter.received == FrameAll(done + [next])
  {
    var f := c.filter;
    var wire: Piece := Frame(next);
    FrameAllAppend(done, next);
    assert Sendable(f.limit, done + [next]);
    hide At, AtBadHeader, Delivered, FrameAll, Frame, FromBE32, Concat, Sendable, Writable, PacketStreamFilter.Tracking;
    OnePiece(wire);
    var _, taken := f.FilterEvent(InputReady, [wire]);
    assert f.received == FrameAll(done) + Concat([wire][..taken]);
    NextIsReady(f, done, next);
  }

  lemma NextIsReady(f: PacketStreamFilter, done: seq<Payload>, next: Payload)
    requires f.Valid() && !f.closed && f.limit < TWO_TO_THE_32 && Sendable(f.limit, done + [next])
    requires f.received <= FrameAll(done + [next])
    requires f.inputFormatError || f.received == FrameAll(done + [next])
    requires f.done == done && f.partial == []
    ensures !f.inputFormatError && f.IsReady() && f.size == |next|
  {
    hide At, AtBadHeader, Delivered, FrameAll, Frame, FromBE32;
    NoBadHeader(f.limit, done + [next], f.received, f.done);
    UndeliveredIsReady(f.limit, done + [next], f.done, f.partial, f.size, f.buffer);
  }

  lemma DeliveredAll(sent: seq<Payload>, f: PacketStreamFilter)
    requires f.Valid() && !f.closed && f.limit < TWO_TO_THE_32 && Sendable(f.limit, sent)
    requires f.received == FrameAll(sent) && |f.done| == |sent|
    ensures f.done == sent && f.partial == [] && !f.IsReady() && !f.inputFormatError
  {
    hide FrameAll, Frame, FromBE32;
    NoBadHeader(f.limit, sent, f.received, f.done);
    PartialIsPrefix(f.limit, sent, f.received, f.done, f.partial);
    if f.size > 0 {
      InProgress(f.limit, sent, f.received, f.done, f.partial, f.size, f.buffer);
    }
  }

  lemma NothingFramed()
    ensures FrameAll([]) == []
  {
  }

  lemma GreetingNext(limit: nat, s: Snapshot, t: Snapshot, visit: Visit)
    requires s.phase == Opening && Follows(limit, Connected, s, t, visit)
    ensures t == s.(phase := Greeting)
  {
  }

  lemma OneRead(n: nat)
    ensures Sum([n]) == n
  {
    assert [n][1..] == [];
  }

  lemma OnePiece(wire: Piece)
    ensures forall n :: 0 <= n <= 1 ==> Concat<byte>([wire][..n]) == if n == 0 then [] else wire
  {
    assert [wire][..1] == [wire] && [wire][..0] == [];
    assert Concat<byte>([wire]) == wire + Concat<byte>([]);
  }

  lemma HelloTaken(limit: nat, work: Work, s: Snapshot, t: Snapshot, visit: Visit)
    requires Handled(limit, work, s, t, visit) && s.phase == Greeting && work.helloAccepted
    requires Ready(s.place) && Sum(work.helloReads) == s.place.size
    ensures t.phase == Talking && t.transferV2 == work.transferV2 && t.received == s.received
    ensures |t.place.done| == |s.place.done| + 1 && (!Ready(t.place) ==> t.queued == 0)
  {
    hide PlaceIn, Sum;
  }

  /** A refused first message with arguments leaves them. */
  lemma FirstRefused(limit: nat, work: Work, s: Snapshot, t: Snapshot, visit: Visit)
    requires Handled(limit, work, s, t, visit) && s.phase == Talking && !s.transferV2
    requires Ready(s.place) && s.place.size > 4 && work.script(0).TransferFrame?
    ensures Lost(t)
  {
    hide PlaceIn, Reads, Exact, LeftBehind, Ahead, Sum;
    var stop := visit.stop;
    assert stop > 0 ==> GoesOn(work.script(0), t.transferV2);
  }

  /** Hello with version 1.6, then one transfer frame; arrivals and handlers are those of `SocketReady`. */
  method GreetAndTransfer() returns (c: ClientStream)
    ensures fresh(c) && fresh(c.filter) && c.Valid() && c.Lost()
  {
    hide At, AtBadHeader, Delivered, FrameAll, Frame, FromBE32, Concat, PacketAt, Sum, Follows, Handled, PlaceIn;
    c := new ClientStream(1024);
    ghost var s := c.Now();
    ghost var visit := Happen(c, Connected);
    GreetingNext(c.filter.limit, s, c.Now(), visit);
    var work := Work([|HELLO|], true, false, _ => TransferFrame([4]));
    NothingFramed();
    Arrives(c, [], HELLO);
    s := c.Now();
    visit := c.Dispatch(work);
    OneRead(|HELLO|);
    HelloTaken(c.filter.limit, work, s, c.Now(), visit);
    assert [] + [HELLO] == [HELLO];
    DeliveredAll([HELLO], c.filter);
    Arrives(c, [HELLO], TRANSFER);
    s := c.Now();
    visit := c.Dispatch(work);
    FirstRefused(c.filter.limit, work, s, c.Now(), visit);
  }

  /**
   * Below version 1.7 it happens: after hello and one transfer frame, the arguments of the frame
   * stay buffered with no event queued, whatever comes later, until the stream is deleted.
   */
  method RefusedTransferLosesWakeUp(later: seq<Step>) returns (lost: bool)
    requires forall j :: 0 <= j < |later| ==> !later[j].Ended?
    ensures lost
  {
    hide PlaceIn, Follows;
    var c := GreetAndTransfer();
    var i := 0;
    while i < |later|
      invariant c.Valid() && c.Lost() && fresh(c) && fresh(c.filter)
    {
      c.HereIsIn();
      ghost var s := c.Now();
      ghost var visit := Happen(c, later[i]);
      LostStep(c.filter.limit, later[i], s, c.Now(), visit);
      i := i + 1;
    }
    lost := c.Lost();
  }
}
