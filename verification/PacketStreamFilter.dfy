/**
 * PacketStreamFilter: cuts a byte stream that arrives in arbitrary pieces into packets.  The
 * underlying socket is represented by the pieces its `read` returns; the filter's own events
 * are collected in `announced`.
 */
module PacketStream {
  import opened Bytes
  import opened Framing

  datatype StreamEvent = InputReady | InputShutdown | InputFormatError | OtherEvent(kind: nat)

  /** What one successful read of the underlying stream into the 4096 byte buffer returns. */
  type Piece = c: seq<byte> | 0 < |c| <= 4096 witness [0]

  class PacketStreamFilter {
    const limit: nat
    var size: nat
    var buffer: seq<byte>
    var inputShutdown: bool
    var inputFormatError: bool
    var announced: seq<StreamEvent>
    var outgoing: seq<byte>

    ghost var received: seq<byte>
    ghost var done: seq<Payload>
    ghost var partial: Payload
    ghost var closed: bool
    ghost var written: seq<Payload>

    /** The fields describe a position in the received bytes. */
    ghost predicate Tracking()
      reads this
    {
      if closed then size == 0 && buffer == [] && Delivered(limit, received, done, partial)
      else if inputFormatError then size == 0 && buffer == [] && partial == [] && AtBadHeader(limit, received, done)
      else At(limit, received, done, partial, size, buffer)
    }

    /** Between calls a header is taken as soon as its four bytes are there. */
    ghost predicate Valid()
      reads this
    {
      && 1 <= limit
      && Tracking()
      && (size == 0 ==> |buffer| < 4)
      && (inputShutdown && size == 0 && !closed ==> InputShutdown in announced)
      && (InputShutdown in announced ==> inputShutdown)
      && (InputFormatError in announced <==> inputFormatError)
      && Writable(written) && outgoing == FrameAll(written)
    }

    /** The peer's shutdown has been announced exactly if no packet is in progress. */
    ghost predicate Reported()
      reads this
    {
      inputShutdown && !closed ==> (InputShutdown in announced <==> size == 0)
    }

    lemma TrackingIsDelivered()
      requires Tracking()
      ensures Delivered(limit, received, done, partial)
    {
    }

    constructor (limit: nat)
      requires 1 <= limit < TWO_TO_THE_32
      ensures Valid() && this.limit == limit
      ensures received == [] && done == [] && partial == [] && !closed && announced == []
      ensures !inputShutdown && !inputFormatError && written == [] && size == 0
    {
      this.limit := limit;
      size, buffer, inputShutdown, inputFormatError := 0, [], false, false;
      announced, outgoing := [], [];
      received, done, partial, closed, written := [], [], [], false, [];
    }

    predicate IsReady()
      reads this
    {
      size != 0 && |buffer| >= size
    }

    method Write(payload: Payload)
      requires Valid() && |payload| < TWO_TO_THE_32
      modifies this`outgoing, this`written
      ensures Valid() && written == old(written) + [payload]
    {
      hide Framing.At, Framing.AtBadHeader, Framing.Delivered, Framing.FrameAll, ToBE32;
      outgoing := outgoing + ToBE32(|payload|);
      outgoing := outgoing + payload;
      FrameAllAppend(written, payload);
      written := written + [payload];
    }

    method ReadPacketSize() returns (ok: bool)
      requires 1 <= limit && Tracking() && !inputFormatError && !closed
      modifies this`size, this`buffer, this`inputFormatError, this`announced
      ensures Tracking() && (size == 0 ==> |buffer| < 4)
      ensures ok == !inputFormatError
      ensures announced == if ok then old(announced) else old(announced) + [InputFormatError]
      ensures old(size) != 0 ==> ok && size == old(size) && buffer == old(buffer)
      ensures !ok ==> size == 0
      ensures |buffer| <= |old(buffer)|
      ensures old(size) == 0 ==> (IsReady() <==> PacketAt(limit, old(buffer)))
    {
      ok := true;
      if size == 0 && |buffer| >= 4 {
        size := FromBE32(buffer[..4]);
        buffer := buffer[4..];
        if size == 0 || size > limit {
          inputFormatError := true;
          size, buffer := 0, [];
          announced := announced + [InputFormatError];
          ok := false;
        }
      }
    }

    /** Reads at most `n` bytes, and never past the end of the packet in progress. */
    method Read(n: nat) returns (out: seq<byte>)
      requires Valid()
      modifies this`size, this`buffer, this`inputFormatError, this`announced, this`done, this`partial
      ensures Valid()
      ensures old(IsReady()) && n > 0 ==>
                && |out| == (if n > old(size) then old(size) else n)
                && out == old(buffer)[..|out|]
                && done == DoneAfter(old(done), old(partial), old(size), out)
                && partial == PartialAfter(old(partial), old(size), out)
                && |buffer| + |out| <= |old(buffer)|
                && (IsReady() <==> |out| < old(size) || PacketAt(limit, old(buffer)[|out|..]))
                && (|out| < old(size) ==> size == old(size) - |out| && buffer == old(buffer)[|out|..])
                && announced == old(announced) + (if inputFormatError then [InputFormatError] else [])
                                + if inputShutdown && size == 0 then [InputShutdown] else []
      ensures !old(IsReady()) || n == 0 ==>
                && out == []
                && size == old(size) && buffer == old(buffer) && inputFormatError == old(inputFormatError)
                && announced == old(announced) && done == old(done) && partial == old(partial)
    {
      hide At, AtBadHeader, Delivered, FrameAll, Frame, Rest, Concat, FromBE32, ToBE32, Writable, Sendable, PacketAt;
      out := [];
      if n == 0 { return; }
      if !IsReady() { return; }
      var n := if n > size then size else n;
      out := buffer[..n];
      HandOver(limit, received, done, partial, size, buffer, out);
      done, partial := DoneAfter(done, partial, size, out), PartialAfter(partial, size, out);
      buffer := buffer[n..];
      size := size - n;
      var _ := ReadPacketSize();
      if inputShutdown && size == 0 {
        announced := announced + [InputShutdown];
      }
    }

    /**
     * Takes in what the underlying stream has, piece by piece, stopping at a format error.
     * `changed` is the edge on which an input-ready event is sent.
     */
    method ReadMore(pieces: seq<Piece>) returns (changed: bool, taken: nat)
      requires Valid() && (closed ==> pieces == [])
      modifies this`size, this`buffer, this`inputFormatError, this`announced, this`received
      ensures Valid()
      ensures taken <= |pieces| && received == old(received) + Concat(pieces[..taken])
      ensures taken < |pieces| ==> inputFormatError
      ensures old(inputFormatError) ==> taken == 0 && !changed && !IsReady() && inputFormatError
      ensures changed <==> !old(IsReady()) && IsReady()
      ensures old(IsReady()) ==> IsReady()
      ensures old(size) != 0 ==> size == old(size)
      ensures announced == old(announced)
                           + if inputFormatError && !old(inputFormatError) then [InputFormatError] else []
    {
      hide At, AtBadHeader, Delivered, FrameAll, Frame, Rest, Concat, FromBE32, ToBE32, Writable, Sendable;
      taken := 0;
      ConcatNone<byte>();
      assert pieces[..0] == [];
      if inputFormatError {
        return false, 0;
      }
      var wasReady := IsReady();
      while taken < |pieces|
        invariant 0 <= taken <= |pieces| && Valid() && !inputFormatError
        invariant closed == old(closed)
        invariant received == old(received) + Concat(pieces[..taken])
        invariant wasReady ==> IsReady()
        invariant announced == old(announced)
        invariant old(size) != 0 ==> size == old(size)
      {
        var piece: seq<byte> := pieces[taken];
        MoreArrives(limit, received, done, partial, size, buffer, piece);
        buffer := buffer + piece;
        received := received + piece;
        ConcatAppend(pieces[..taken], piece);
        assert pieces[..taken + 1] == pieces[..taken] + [piece];
        taken := taken + 1;
        var ok := ReadPacketSize();
        if !ok { break; }
      }
      changed := wasReady != IsReady();
    }

    /** Handles an event of the underlying stream; true if it is passed on as the filter's own. */
    method FilterEvent(event: StreamEvent, pieces: seq<Piece>) returns (passed: bool, taken: nat)
      requires Valid() && (closed ==> pieces == []) && event != InputFormatError
      modifies this`size, this`buffer, this`inputFormatError, this`announced, this`received, this`inputShutdown
      ensures Valid()
      ensures taken <= |pieces| && received == old(received) + Concat(pieces[..taken])
      ensures event == InputReady ==>
                && (taken == |pieces| || inputFormatError)
                && (passed <==> !old(IsReady()) && IsReady())
                && (old(IsReady()) ==> IsReady())
      ensures old(inputFormatError) ==> taken == 0 && !IsReady() && inputFormatError
      ensures event != InputReady ==>
                && taken == 0 && size == old(size) && buffer == old(buffer)
                && inputFormatError == old(inputFormatError)
      ensures event != InputShutdown ==> inputShutdown == old(inputShutdown)
      ensures event == InputShutdown ==> inputShutdown && (passed <==> size == 0)
      ensures event.OtherEvent? ==> passed
      ensures announced == old(announced)
                           + (if inputFormatError && !old(inputFormatError) then [InputFormatError] else [])
                           + if passed then [event] else []
    {
      hide At, AtBadHeader, Delivered, FrameAll, Frame, Rest, Concat, FromBE32, ToBE32, Writable, Sendable;
      taken := 0;
      ConcatNone<byte>();
      assert pieces[..0] == [];
      if event == InputReady {
        if inputFormatError {
          return false, 0;
        }
        var changed;
        changed, taken := ReadMore(pieces);
        if !changed {
          return false, taken;
        }
      } else if event == InputShutdown {
        inputShutdown := true;
        if size != 0 {
          return false, 0;
        }
      }
      passed := true;
      announced := announced + [event];
    }

    /** close and shutdownInput drop what is buffered; the underlying stream then has nothing more. */
    method DropInput()
      requires Valid()
      modifies this`size, this`buffer, this`closed
      ensures Valid() && closed && !IsReady()
    {
      size, buffer, closed := 0, [], true;
    }
  }

  // ---------------------------------------------------------------- whole sessions

  /** What can happen to a filter, in any order. */
  datatype Op =
    | Arrive(pieces: seq<Piece>)
    | Take(n: nat)
    | PeerShutdown
    | Pass(kind: nat)
    | Drop

  /** The reads grouped by packet: each group of reads makes up one delivered packet. */
  ghost predicate Grouped(groups: seq<seq<seq<byte>>>, packets: seq<Payload>) {
    && |groups| == |packets|
    && forall i :: 0 <= i < |groups| ==> Concat(groups[i]) == packets[i]
  }

  /** All the bytes that the underlying stream had to offer. */
  ghost function Arrived(ops: seq<Op>): seq<byte> {
    if ops == [] then [] else Offered(Arrived(ops[..|ops| - 1]), ops[|ops| - 1])
  }

  ghost function Offered(before: seq<byte>, op: Op): seq<byte> {
    if op.Arrive? then before + Concat(op.pieces) else before
  }

  /** Once the peer has shut down its output, nothing more arrives. */
  ghost predicate NothingAfterShutdown(ops: seq<Op>) {
    forall i, j :: 0 <= i < j < |ops| && ops[i].PeerShutdown? ==> !ops[j].Arrive?
  }

  lemma OneMore(ops: seq<Op>, i: nat)
    requires i <= |ops|
    ensures Arrived(ops[..0]) == []
    ensures i < |ops| ==>
              && Arrived(ops[..i + 1]) == Offered(Arrived(ops[..i]), ops[i])
              && (Drop in ops[..i + 1] <==> Drop in ops[..i] || ops[i].Drop?)
              && (PeerShutdown in ops[..i + 1] <==> PeerShutdown in ops[..i] || ops[i].PeerShutdown?)
  {
    if i < |ops| {
      assert ops[..i + 1] == ops[..i] + [ops[i]] && ops[..i + 1][..i] == ops[..i];
    }
  }

  /** One happening that is not a read: nothing is delivered, and `before` is what was on offer. */
  method Feed(f: PacketStreamFilter, op: Op, dropped: bool, ghost before: seq<byte>)
    requires !op.Take? && f.Valid() && dropped == f.closed
    requires f.received <= before && (!f.inputFormatError && !dropped ==> f.received == before)
    modifies f
    ensures f.Valid() && f.done == old(f.done) && f.partial == old(f.partial)
    ensures f.closed == (dropped || op.Drop?)
    ensures op.Pass? ==> f.announced == old(f.announced) + [OtherEvent(op.kind)]
    ensures f.inputShutdown == (old(f.inputShutdown) || op.PeerShutdown?)
    ensures f.received <= Offered(before, op)
    ensures !f.inputFormatError && !f.closed ==> f.received == Offered(before, op)
    ensures old(f.Reported()) && !(op.Arrive? && old(f.inputShutdown)) ==> f.Reported()
  {
    hide At, AtBadHeader, Delivered, FrameAll, Concat;
    match op {
      case Arrive(pieces) =>
        var offered := if dropped then [] else pieces;
        var _, taken := f.FilterEvent(InputReady, offered);
        ConcatNone<byte>();
        ConcatPrefix(offered, taken);
        assert offered[..|offered|] == offered && offered[..0] == [];
      case PeerShutdown =>
        var _, _ := f.FilterEvent(InputShutdown, []);
        ConcatNone<byte>();
      case Pass(kind) =>
        var _, _ := f.FilterEvent(OtherEvent(kind), []);
        ConcatNone<byte>();
      case Drop =>
        f.DropInput();
    }
  }

  /** One read, entered in the grouping of the reads by packet. */
  method Serve(f: PacketStreamFilter, n: nat, ghost groups: seq<seq<seq<byte>>>, ghost current: seq<seq<byte>>)
    returns (out: seq<byte>, ghost groups': seq<seq<seq<byte>>>, ghost current': seq<seq<byte>>)
    requires f.Valid() && Grouped(groups, f.done) && Concat(current) == f.partial
    modifies f
    ensures f.Valid() && Grouped(groups', f.done) && Concat(current') == f.partial
    ensures Concat(groups') + current' == Concat(groups) + current + if out == [] then [] else [out]
    ensures f.closed == old(f.closed) && f.inputShutdown == old(f.inputShutdown) && f.received == old(f.received)
    ensures old(f.inputFormatError) ==> f.inputFormatError
    ensures old(f.Reported()) ==> f.Reported()
    ensures |out| == if !old(f.IsReady()) then 0 else if n > old(f.size) then old(f.size) else n
    ensures |f.buffer| + |out| <= |old(f.buffer)|
  {
    hide At, AtBadHeader, Delivered, FrameAll, Concat;
    out := f.Read(n);
    groups', current' := groups, current;
    if out != [] {
      ConcatNone<byte>();
      ConcatAppend(current, out);
      current' := current + [out];
      if |f.done| > |groups| {
        ConcatAppend(groups, current');
        groups', current' := groups + [current'], [];
      }
    }
  }

  /** Plays operations on a new filter, entering the reads in groups by packet. */
  method Play(f: PacketStreamFilter, ops: seq<Op>)
    returns (got: seq<seq<byte>>, ghost groups: seq<seq<seq<byte>>>, ghost current: seq<seq<byte>>)
    requires f.Valid() && f.received == [] && f.done == [] && f.partial == [] && !f.closed && !f.inputShutdown
    modifies f
    ensures f.Valid() && f.closed == (Drop in ops) && f.inputShutdown == (PeerShutdown in ops)
    ensures NothingAfterShutdown(ops) ==> f.Reported()
    ensures got == Concat(groups) + current && Grouped(groups, f.done) && Concat(current) == f.partial
    ensures forall k :: 0 <= k < |got| ==> got[k] != []
    ensures f.received <= Arrived(ops) && (!f.inputFormatError && Drop !in ops ==> f.received == Arrived(ops))
  {
    hide Framing.At, Framing.AtBadHeader, Framing.Delivered, Framing.FrameAll, Concat, Arrived;
    OneMore(ops, 0);
    got, groups, current := [], [], [];
    ConcatNone<byte>();
    ConcatNone<seq<byte>>();
    var dropped := false;
    var i := 0;
    while i < |ops|
      invariant 0 <= i <= |ops| && f.Valid()
      invariant dropped == f.closed == (Drop in ops[..i])
      invariant f.inputShutdown == (PeerShutdown in ops[..i])
      invariant NothingAfterShutdown(ops) ==> f.Reported()
      invariant got == Concat(groups) + current && forall k :: 0 <= k < |got| ==> got[k] != []
      invariant f.received <= Arrived(ops[..i])
      invariant !f.inputFormatError && !dropped ==> f.received == Arrived(ops[..i])
      invariant Grouped(groups, f.done) && Concat(current) == f.partial
    {
      OneMore(ops, i);
      if ops[i].Take? {
        var out;
        out, groups, current := Serve(f, ops[i].n, groups, current);
        got := got + if out == [] then [] else [out];
      } else {
        Feed(f, ops[i], dropped, Arrived(ops[..i]));
        dropped := dropped || ops[i].Drop?;
      }
      i := i + 1;
    }
    assert ops[..i] == ops;
  }

  /**
   * Every session of the filter, for every segmentation of the arriving bytes and every series
   * of read sizes.  `got` lists what the successful reads returned.
   */
  method Session(limit: nat, ops: seq<Op>)
    returns (got: seq<seq<byte>>, error: bool, ready: bool, events: seq<StreamEvent>,
             ghost received: seq<byte>, ghost groups: seq<seq<seq<byte>>>, ghost current: seq<seq<byte>>,
             ghost done: seq<Payload>, ghost size: nat, ghost buffer: seq<byte>)
    requires 1 <= limit < TWO_TO_THE_32
    ensures got == Concat(groups) + current
    ensures Grouped(groups, done) && Delivered(limit, received, done, Concat(current))
    ensures error && Drop !in ops ==> AtBadHeader(limit, received, done) && Concat(current) == [] && !ready
    ensures !error && Drop !in ops ==>
              && At(limit, received, done, Concat(current), size, buffer)
              && (size == 0 ==> |buffer| < 4 && (PeerShutdown in ops ==> InputShutdown in events))
              && (ready <==> size != 0 && |buffer| >= size)
    ensures InputShutdown in events ==> PeerShutdown in ops
    ensures PeerShutdown in ops && NothingAfterShutdown(ops) && Drop !in ops ==>
              (InputShutdown in events <==> error || |received| < |FrameAll(done)| + 4)
    ensures received <= Arrived(ops) && (!error && Drop !in ops ==> received == Arrived(ops))
  {
    hide Framing.At, Framing.AtBadHeader, Framing.Delivered, Framing.FrameAll, Concat, Arrived;
    var f := new PacketStreamFilter(limit);
    got, groups, current := Play(f, ops);
    f.TrackingIsDelivered();
    if !f.inputFormatError && !f.closed {
      BetweenPackets(limit, f.received, f.done, f.partial, f.size, f.buffer);
    }
    error, ready, events := f.inputFormatError, f.IsReady(), f.announced;
    received, done, size, buffer := f.received, f.done, f.size, f.buffer;
  }

  /**
   * Draining delivers everything: after any operations with all bytes arrived, reading `n` bytes
   * at a time until nothing is ready comes to an end, with exactly the payloads sent.
   */
  method Drain(limit: nat, sent: seq<Payload>, ops: seq<Op>, n: nat)
    returns (got: seq<seq<byte>>, ghost groups: seq<seq<seq<byte>>>)
    requires 1 <= limit < TWO_TO_THE_32 && n > 0
    requires Sendable(limit, sent) && Drop !in ops
    requires Arrived(ops) == FrameAll(sent)
    ensures got == Concat(groups) && Grouped(groups, sent)
    ensures forall i :: 0 <= i < |got| ==> got[i] != []
  {
    hide Framing.At, Framing.AtBadHeader, Framing.Delivered, Framing.FrameAll, Concat, Arrived;
    var f := new PacketStreamFilter(limit);
    ghost var current;
    got, groups, current := Play(f, ops);
    NoBadHeader(limit, sent, f.received, f.done);
    while f.IsReady()
      invariant f.Valid() && !f.closed && f.received == FrameAll(sent)
      invariant got == Concat(groups) + current && Grouped(groups, f.done) && Concat(current) == f.partial
      invariant forall k :: 0 <= k < |got| ==> got[k] != []
      decreases |f.buffer|
    {
      var out;
      out, groups, current := Serve(f, n, groups, current);
      got := got + [out];
    }
    NoBadHeader(limit, sent, f.received, f.done);
    DrainedIsEverything(limit, sent, f.done, f.partial, f.size, f.buffer);
    NothingInProgress(got, Concat(groups), current);
  }

  lemma NothingInProgress(got: seq<seq<byte>>, finished: seq<seq<byte>>, current: seq<seq<byte>>)
    requires got == finished + current && forall k :: 0 <= k < |got| ==> got[k] != []
    ensures Concat(current) == [] ==> got == finished
  {
    if current != [] {
      assert got[|finished|] == current[0];
    }
  }

  /**
   * Framing does not depend on segmentation.  When the bytes that arrive are (a beginning of)
   * what `write` made of the payloads `sent`, the reads are the payloads in order, each read
   * within one payload; once all bytes are there and no packet is waiting they are all of them.
   */
  method Transfer(limit: nat, sent: seq<Payload>, ops: seq<Op>)
    returns (got: seq<seq<byte>>, ready: bool, events: seq<StreamEvent>,
             ghost groups: seq<seq<seq<byte>>>, ghost current: seq<seq<byte>>)
    requires 1 <= limit < TWO_TO_THE_32
    requires Sendable(limit, sent) && Drop !in ops
    requires Arrived(ops) <= FrameAll(sent)
    ensures got == Concat(groups) + current
    ensures |groups| <= |sent| && Grouped(groups, sent[..|groups|])
    ensures FrameAll(sent[..|groups|]) <= Arrived(ops)
    ensures Concat(current) != [] ==> |groups| < |sent| && Concat(current) < sent[|groups|]
    ensures Arrived(ops) == FrameAll(sent) && !ready ==> |groups| == |sent| && Concat(current) == []
    ensures Arrived(ops) == FrameAll(sent) && !ready && PeerShutdown in ops ==> InputShutdown in events
    ensures PeerShutdown in ops && NothingAfterShutdown(ops) ==>
              (InputShutdown in events <==> |Arrived(ops)| < |FrameAll(sent[..|groups|])| + 4)
  {
    var error;
    ghost var received, done, size, buffer;
    got, error, ready, events, received, groups, current, done, size, buffer := Session(limit, ops);
    hide Delivered, FrameAll, Concat, Arrived;
    PartialIsPrefix(limit, sent, received, done, Concat(current));
    NoBadHeader(limit, sent, received, done);
    assert sent[..|groups|] == done;
    if received == FrameAll(sent) && !ready {
      DrainedIsEverything(limit, sent, done, Concat(current), size, buffer);
      assert Rest(received, done) == [];
    }
  }

  lemma {:induction false} ReadsBringNothing(ops: seq<Op>, takes: seq<Op>)
    requires forall i :: 0 <= i < |takes| ==> takes[i].Take?
    ensures Arrived(ops + takes) == Arrived(ops)
  {
    if takes == [] {
      assert ops + takes == ops;
    } else {
      var init := takes[..|takes| - 1];
      ReadsBringNothing(ops, init);
      assert (ops + takes)[..|ops + takes| - 1] == ops + init;
    }
  }

  lemma ShortOfAFrame(wire: Piece)
    requires wire == [0, 0, 0, 2, 7]
    ensures FrameAll([[7, 8]]) == wire + [8] && FrameAll([]) == []
    ensures Arrived([Arrive([wire]), PeerShutdown]) == wire
  {
    var p: Payload := [7, 8];
    assert FrameAll([p]) == Frame(p) + FrameAll([]) == Frame(p) == [0, 0, 0, 2] + p;
    var ops := [Arrive([wire]), PeerShutdown];
    assert Concat<byte>([wire]) == wire + Concat<byte>([]);
    assert ops[..1] == [Arrive([wire])] && ops[..1][..0] == [];
    assert Arrived(ops[..1]) == Arrived([]) + Concat<byte>([wire]);
  }

  /** A shutdown that cuts a packet off after its header is never announced, whatever is then read. */
  method TruncatedPacketHidesShutdown(takes: seq<Op>) returns (announced: bool)
    requires forall i :: 0 <= i < |takes| ==> takes[i].Take?
    ensures !announced
  {
    hide FrameAll, Arrived, Concat;
    var wire: Piece := [0, 0, 0, 2, 7];
    var sent: seq<Payload> := [[7, 8]];
    var start := [Arrive([wire]), PeerShutdown];
    var ops := start + takes;
    ShortOfAFrame(wire);
    ReadsBringNothing(start, takes);
    assert wire <= wire + [8];
    assert ops[1] == PeerShutdown && sent[..1] == sent && sent[..0] == [];
    var _, _, events, groups, _ := Transfer(1024, sent, ops);
    announced := InputShutdown in events;
  }

  /**
   * With payloads that `write` accepts but the protocol may not, the filter reports an error
   * exactly when it gets to the first one that is not allowed, having delivered everything
   * before it and nothing after.
   */
  method AnyTransfer(limit: nat, sent: seq<Payload>, ops: seq<Op>)
    returns (got: seq<seq<byte>>, error: bool, ready: bool,
             ghost groups: seq<seq<seq<byte>>>, ghost current: seq<seq<byte>>)
    requires 1 <= limit < TWO_TO_THE_32
    requires Writable(sent) && Drop !in ops
    requires Arrived(ops) <= FrameAll(sent)
    ensures got == Concat(groups) + current
    ensures |groups| <= |sent| && Grouped(groups, sent[..|groups|]) && Sendable(limit, sent[..|groups|])
    ensures error ==> |groups| < |sent| && !GoodSize(limit, |sent[|groups|]|) && Concat(current) == []
    ensures error ==> |sent[|groups|]| == 0 || |sent[|groups|]| > limit
    ensures forall i :: 0 <= i < |groups| ==> 1 <= |sent[i]| <= limit
    ensures Arrived(ops) == FrameAll(sent) && !ready ==>
              (error <==> exists i :: 0 <= i < |sent| && (|sent[i]| == 0 || |sent[i]| > limit))
    ensures Arrived(ops) == FrameAll(sent) && !ready ==> (error <==> !Sendable(limit, sent))
  {
    ghost var received, done, size, buffer;
    var events;
    got, error, ready, events, received, groups, current, done, size, buffer := Session(limit, ops);
    hide FrameAll, Concat, Arrived;
    PartialIsPrefix(limit, sent, received, done, Concat(current));
    assert sent[..|groups|] == done;
    if error {
      BadHeaderIsBadPayload(limit, sent, received, done);
    } else if received == FrameAll(sent) && !ready {
      DrainedIsEverything(limit, sent, done, Concat(current), size, buffer);
    }
  }
}
