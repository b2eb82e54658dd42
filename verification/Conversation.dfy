/**
 * The client's stream seen packet by packet.  When what a message means depends on its packet,
 * and each parser reads exactly its packet, the fate of the stream depends on the packets that
 * the socket has brought, and not on how they were cut into pieces.
 */
module Conversations {
  import opened Bytes
  import opened Framing
  import opened PacketStream
  import opened WakeUp

  datatype Kind = Plain | Transfer | Deadly

  /** What the packets mean, whether hello is accepted, and whether it negotiates version 1.7. */
  datatype World = World(kind: Payload -> Kind, accepts: bool, transferV2: bool)

  /** A packet after which reading goes on: understood, or a bare transfer code that is refused. */
  predicate Passes(w: World, p: Payload) {
    |p| >= 4 && (w.kind(p) == Plain || (w.kind(p) == Transfer && (w.transferV2 || |p| == 4)))
  }

  /** All packets after hello, before number `n`, are passed. */
  ghost predicate AllPass(w: World, packets: seq<Payload>, n: int) {
    n <= |packets| && forall k :: 1 <= k < n ==> Passes(w, packets[k])
  }

  /** Packet number `j` makes the client hang up. */
  ghost predicate HangsUp(w: World, packets: seq<Payload>, j: int) {
    1 <= j < |packets| && AllPass(w, packets, j) && (|packets[j]| < 4 || w.kind(packets[j]) == Deadly)
  }

  /** Packet number `j` is a transfer frame that is refused with something left to read. */
  ghost predicate Strands(w: World, packets: seq<Payload>, j: int) {
    && 1 <= j < |packets| && AllPass(w, packets, j)
    && |packets[j]| >= 4 && w.kind(packets[j]) == Transfer && !w.transferV2
    && (|packets[j]| > 4 || j + 1 < |packets|)
  }

  /** The message is the packet's, and its parser reads exactly the packet. */
  ghost predicate Means(w: World, m: Message, p: Payload) {
    && (m.Ordinary? <==> w.kind(p) == Plain)
    && (m.TransferFrame? <==> w.kind(p) == Transfer)
    && (!m.Fatal? && |p| >= 4 ==> Sum(m.args) == |p| - 4)
  }

  /** The work of a step that finds `n` packets read. */
  ghost predicate Fits(w: World, work: Work, packets: seq<Payload>, n: nat) {
    && work.helloAccepted == w.accepts && work.transferV2 == w.transferV2
    && (packets != [] && n == 0 ==> Sum(work.helloReads) == |packets[0]|)
    && forall k: nat :: n + k < |packets| ==> Means(w, work.script(k), packets[n + k])
  }

  ghost predicate Faithful(limit: nat, w: World, steps: seq<Step>, trace: seq<Snapshot>)
    requires |trace| == |steps| + 1
  {
    forall i :: 0 <= i < |steps| && HasWork(steps[i]) ==>
      Fits(w, steps[i].work, Whole(limit, Input(steps)), |trace[i].place.done|)
  }

  // ---------------------------------------------------------------- packets in longer and longer input

  lemma {:induction false} WholeGrows(limit: nat, bytes: seq<byte>, more: seq<byte>)
    ensures Whole(limit, bytes) <= Whole(limit, bytes + more)
    decreases |bytes|
  {
    hide FromBE32;
    var all := bytes + more;
    if PacketAt(limit, bytes) {
      assert all[..4] == bytes[..4];
      var end := 4 + FromBE32(bytes[..4]);
      assert all[4..end] == bytes[4..end] && all[end..] == bytes[end..] + more;
      WholeGrows(limit, bytes[end..], more);
    }
  }

  /** After the first `n` whole packets, the others are ahead. */
  lemma {:induction false} AheadOfFirst(limit: nat, input: seq<byte>, n: nat)
    requires limit < TWO_TO_THE_32 && n <= |Whole(limit, input)|
    ensures var packets := Whole(limit, input);
            && Writable(packets[..n]) && FrameAll(packets[..n]) <= input
            && Ahead(limit, input, packets[..n]) == packets[n..]
  {
    hide Whole, FromBE32;
    var packets := Whole(limit, input);
    if n == 0 {
      NothingYet(limit, input);
      assert packets[..0] == [] && packets[0..] == packets;
    } else {
      AheadOfFirst(limit, input, n - 1);
      AheadNext(limit, input, packets[..n - 1]);
      assert packets[..n - 1] + [packets[n - 1..][0]] == packets[..n];
      assert packets[n - 1..][1..] == packets[n..];
    }
  }

  lemma NothingYet(limit: nat, input: seq<byte>)
    ensures Writable([]) && FrameAll([]) == [] && Ahead(limit, input, []) == Whole(limit, input)
  {
    hide Whole;
    assert Rest(input, []) == input;
  }

  /** What is ahead in a beginning of the input is ahead in the input. */
  lemma AheadInInput(limit: nat, received: seq<byte>, input: seq<byte>, n: nat)
    requires limit < TWO_TO_THE_32 && received <= input && n <= |Whole(limit, input)|
    ensures Ahead(limit, received, Whole(limit, input)[..n]) <= Whole(limit, input)[n..]
  {
    hide Whole, FromBE32, FrameAll;
    var done := Whole(limit, input)[..n];
    AheadOfFirst(limit, input, n);
    if FrameAll(done) <= received {
      var more := input[|received|..];
      assert input == received + more;
      assert Rest(input, done) == Rest(received, done) + more;
      WholeGrows(limit, Rest(received, done), more);
    }
  }

  // ---------------------------------------------------------------- the stream against the packets

  /** What every state of a run says about the packets of the whole input. */
  ghost predicate Tells(w: World, packets: seq<Payload>, s: Snapshot) {
    match s.phase
    case Opening => s.place.done == [] && s.place.partial == []
    case Greeting => s.place.done == [] && s.place.partial == []
    case Talking =>
      w.accepts && s.transferV2 == w.transferV2 && packets != [] &&
      if Lost(s) then exists j :: Strands(w, packets, j)
      else
        && s.place.partial == [] && 1 <= |s.place.done| && s.place.done <= packets
        && AllPass(w, packets, |s.place.done|)
    case Gone => packets != [] && (!w.accepts || exists j :: HangsUp(w, packets, j))
  }

  /** A reader between packets that has read the first `n` of them: what it can read next. */
  lemma NextAhead(limit: nat, s: Snapshot, input: seq<byte>)
    requires limit < TWO_TO_THE_32 && PlaceIn(limit, s.received, s.place) && s.received <= input
    requires s.place.partial == [] && s.place.done <= Whole(limit, input)
    ensures var ahead := Ahead(limit, s.received, s.place.done);
            && ahead <= Whole(limit, input)[|s.place.done|..]
            && (Ready(s.place) <==> ahead != [])
            && (ahead != [] ==> s.place.size == |ahead[0]| && s.place.buffer[..s.place.size] == ahead[0])
            && (!Ready(s.place) && (s.place.error || s.received == input) ==> s.place.done == Whole(limit, input))
  {
    hide Whole, FromBE32, FrameAll;
    var done, packets := s.place.done, Whole(limit, input);
    assert packets[..|done|] == done;
    AheadInInput(limit, s.received, input, |done|);
    AheadOfFirst(limit, input, |done|);
    if s.place.error {
      var more := input[|s.received|..];
      assert input == s.received + more;
      NothingAhead(limit, s.received, done, more);
      NothingAhead(limit, s.received, done, []);
      assert s.received + [] == s.received;
    } else {
      AheadHere(limit, s.received, done, s.place.size, s.place.buffer);
    }
  }

  /** Taking hello. */
  lemma HelloTells(limit: nat, w: World, work: Work, s: Snapshot, t: Snapshot, visit: Visit, input: seq<byte>)
    requires limit < TWO_TO_THE_32 && PlaceIn(limit, s.received, s.place) && s.received <= input
    requires s.phase == Greeting && Ready(s.place) && Tells(w, Whole(limit, input), s)
    requires Handled(limit, work, s, t, visit) && Fits(w, work, Whole(limit, input), 0)
    ensures Tells(w, Whole(limit, input), t)
  {
    hide Whole, PlaceIn, Talked, Ahead, Sum, Means;
    NextAhead(limit, s, input);
    var packets := Whole(limit, input);
    assert [] + s.place.buffer[..s.place.size] == packets[0];
    assert [] + [packets[0]] == packets[..1];
  }

  /** The script reads the packets ahead exactly. */
  lemma FittingIsExact(w: World, work: Work, packets: seq<Payload>, n: nat, ahead: seq<Payload>)
    requires Fits(w, work, packets, n) && n <= |packets| && ahead <= packets[n..]
    ensures Exact(work.script, ahead, w.transferV2)
    ensures forall k :: 0 <= k < |ahead| ==> n + k < |packets| && ahead[k] == packets[n + k]
    ensures forall k :: 0 <= k < |ahead| ==> Means(w, work.script(k), ahead[k])
  {
    hide Sum;
    forall k | 0 <= k < |ahead| ensures ahead[k] == packets[n + k] && Means(w, work.script(k), ahead[k]) {
      assert ahead[k] == packets[n..][k];
    }
  }

  /** What is read is passed. */
  lemma ReadIsPassed(w: World, work: Work, packets: seq<Payload>, n: nat, ahead: seq<Payload>, stop: nat)
    requires 1 <= n <= |packets| && AllPass(w, packets, n) && stop <= |ahead| && ahead <= packets[n..]
    requires Fits(w, work, packets, n)
    requires forall k :: 0 <= k < stop ==> |ahead[k]| >= 4 && GoesOn(work.script(k), w.transferV2)
    ensures n + stop <= |packets| && AllPass(w, packets, n + stop)
  {
    hide Sum;
    FittingIsExact(w, work, packets, n, ahead);
    forall i | n <= i < n + stop ensures Passes(w, packets[i]) {
      var k := i - n;
      assert |ahead[k]| >= 4 && Means(w, work.script(k), ahead[k]);
    }
  }

  /** Reading messages. */
  lemma TalkTells(limit: nat, w: World, work: Work, s: Snapshot, t: Snapshot, visit: Visit, input: seq<byte>)
    requires limit < TWO_TO_THE_32 && PlaceIn(limit, s.received, s.place) && s.received <= input
    requires s.phase == Talking && w.accepts && s.transferV2 == w.transferV2
    requires s.place.partial == [] && 1 <= |s.place.done| && s.place.done <= Whole(limit, input)
    requires AllPass(w, Whole(limit, input), |s.place.done|)
    requires Handled(limit, work, s, t, visit) && Fits(w, work, Whole(limit, input), |s.place.done|)
    ensures Tells(w, Whole(limit, input), t)
  {
    hide Whole, PlaceIn, Ahead, Sum, Exact, Fits, Means, AllPass, Passes, LeavesPacket;
    var packets, done, stop, outcome := Whole(limit, input), s.place.done, visit.stop, visit.outcome;
    var n, ahead := |done|, Ahead(limit, s.received, done);
    NextAhead(limit, s, input);
    FittingIsExact(w, work, packets, n, ahead);
    ReadIsPassed(w, work, packets, n, ahead, stop);
    assert packets[..n] == done;
    assert done + ahead[..stop] == packets[..n + stop] by { Joined(packets, n, ahead, stop); }
    if outcome == Short || outcome == Hangup {
      StopsAt(w, work, packets, n, ahead, stop);
      assert HangsUp(w, packets, n + stop);
    } else if outcome == Refused {
      StopsAt(w, work, packets, n, ahead, stop);
      if Ready(t.place) {
        assert Strands(w, packets, n + stop);
      } else {
        Joined(packets, n, ahead, stop + 1);
        OneMorePassed(w, packets, n + stop);
      }
    } else {
      assert ahead[..stop] == ahead;
    }
  }

  lemma Joined(packets: seq<Payload>, n: nat, ahead: seq<Payload>, stop: nat)
    requires n <= |packets| && ahead <= packets[n..] && stop <= |ahead|
    ensures n + stop <= |packets| && packets[..n] + ahead[..stop] == packets[..n + stop]
  {
    assert ahead[..stop] == packets[n..n + stop];
  }

  /** The packet at which reading ended. */
  lemma StopsAt(w: World, work: Work, packets: seq<Payload>, n: nat, ahead: seq<Payload>, stop: nat)
    requires n <= |packets| && ahead <= packets[n..] && stop < |ahead| && Fits(w, work, packets, n)
    ensures n + stop < |packets| && ahead[stop] == packets[n + stop]
    ensures work.script(stop).Fatal? <==> w.kind(packets[n + stop]) == Deadly
    ensures work.script(stop).TransferFrame? <==> w.kind(packets[n + stop]) == Transfer
    ensures stop + 1 < |ahead| ==> n + stop + 1 < |packets|
  {
    hide Sum;
    FittingIsExact(w, work, packets, n, ahead);
    assert Means(w, work.script(stop), ahead[stop]);
  }

  lemma OneMorePassed(w: World, packets: seq<Payload>, j: nat)
    requires j < |packets| && AllPass(w, packets, j) && |packets[j]| == 4 && w.kind(packets[j]) == Transfer
    ensures AllPass(w, packets, j + 1)
  {
  }

  /** Every step keeps the account of the packets. */
  lemma StepTells(limit: nat, w: World, step: Step, s: Snapshot, t: Snapshot, visit: Visit, input: seq<byte>)
    requires limit < TWO_TO_THE_32 && Steady(limit, s) && Follows(limit, step, s, t, visit) && !step.Ended?
    requires Tells(w, Whole(limit, input), s)
    requires HasWork(step) ==> Fits(w, step.work, Whole(limit, input), |s.place.done|)
    requires visit != NoVisit ==> t.received <= input
    ensures Tells(w, Whole(limit, input), t)
  {
    hide Whole, PlaceIn, Handled, Fits, AllPass, Strands, HangsUp;
    match step
    case FromSocket(pieces, work) =>
      if Live(s) {
        var u :| Through(limit, pieces, work, s, u, t, visit);
        if !Ready(s.place) && Ready(u.place) {
          HandledReceived(limit, work, u, t, visit);
          if s.phase == Greeting {
            HelloTells(limit, w, work, u, t, visit, input);
          } else {
            TalkTells(limit, w, work, u, t, visit, input);
          }
        }
      }
    case FromQueue(work) =>
      if Live(s) && s.queued > 0 {
        HandledReceived(limit, work, s.(queued := 0), t, visit);
        TalkTells(limit, w, work, s.(queued := 0), t, visit, input);
      }
    case _ =>
  }

  lemma HandledReceived(limit: nat, work: Work, s: Snapshot, t: Snapshot, visit: Visit)
    requires Handled(limit, work, s, t, visit)
    ensures t.received == s.received && visit != NoVisit
  {
  }

  lemma {:induction false} InputGrows(steps: seq<Step>, n: nat)
    requires n <= |steps|
    ensures Input(steps[..n]) <= Input(steps)
    decreases |steps| - n
  {
    hide Input;
    if n == |steps| {
      assert steps[..n] == steps;
    } else {
      InputStep(steps, n);
      InputGrows(steps, n + 1);
    }
  }

  /** Every state of a run without deletion is accounted for by the packets of the whole input. */
  lemma {:induction false} RunTells(limit: nat, w: World, steps: seq<Step>, trace: seq<Snapshot>, visits: seq<Visit>,
                                    n: nat)
    requires IsRun(limit, steps, trace, visits) && Faithful(limit, w, steps, trace) && n <= |steps|
    requires forall i :: 0 <= i < |steps| ==> !steps[i].Ended?
    ensures Tells(w, Whole(limit, Input(steps)), trace[n])
  {
    if n > 0 {
      hide Follows, Tells, Whole, Input, Fits, Steady;
      RunTells(limit, w, steps, trace, visits, n - 1);
      LostAt(limit, steps, trace, visits, n - 1);
      RunReadsInput(limit, steps, trace, visits, n);
      InputGrows(steps, n);
      StepTells(limit, w, steps[n - 1], trace[n - 1], trace[n], visits[n - 1], Input(steps));
    }
  }

  /** Every transfer frame has arguments. */
  ghost predicate Bulky(w: World, packets: seq<Payload>) {
    forall k :: 0 <= k < |packets| && w.kind(packets[k]) == Transfer ==> |packets[k]| > 4
  }

  lemma OneReason(w: World, packets: seq<Payload>)
    requires Bulky(w, packets)
    ensures packets == [] ==> AllPass(w, packets, |packets|)
    ensures AllPass(w, packets, |packets|) ==> !exists j :: HangsUp(w, packets, j) || Strands(w, packets, j)
    ensures forall i, j :: HangsUp(w, packets, i) ==> !Strands(w, packets, j)
  {
  }

  /**
   * The fate of a stream by its packets, whatever their cutting: once hello is there and no event
   * is queued, the client has hung up exactly if hello is not accepted or a short or deadly
   * packet comes before any refused transfer frame; a wake-up is lost exactly if a transfer frame
   * is refused first; and in every other case all whole packets have been read.
   */
  lemma FateOfPackets(limit: nat, w: World, steps: seq<Step>, trace: seq<Snapshot>, visits: seq<Visit>)
    requires IsRun(limit, steps, trace, visits) && Faithful(limit, w, steps, trace)
    requires Connected in steps && forall i :: 0 <= i < |steps| ==> !steps[i].Ended?
    requires trace[|steps|].queued == 0 && Bulky(w, Whole(limit, Input(steps)))
    ensures var s, packets := trace[|steps|], Whole(limit, Input(steps));
            && (s.phase == Greeting <==> packets == [])
            && (s.phase == Gone <==> packets != [] && (!w.accepts || exists j :: HangsUp(w, packets, j)))
            && (Lost(s) <==> w.accepts && exists j :: Strands(w, packets, j))
            && (s.phase == Talking && !Lost(s) <==>
                  packets != [] && w.accepts && s.place.done == packets && AllPass(w, packets, |packets|))
  {
    hide Follows, Whole, Input, Faithful, HangsUp, Strands, AllPass, Bulky, PlaceIn;
    var s, packets := trace[|steps|], Whole(limit, Input(steps));
    RunTells(limit, w, steps, trace, visits, |steps|);
    LostAt(limit, steps, trace, visits, |steps|);
    RunReadsInput(limit, steps, trace, visits, |steps|);
    assert steps[..|steps|] == steps;
    OneReason(w, packets);
    if s.phase == Greeting || (s.phase == Talking && !Lost(s)) {
      NextAhead(limit, s, Input(steps));
    }
  }
}
