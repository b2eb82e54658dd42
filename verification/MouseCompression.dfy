/**
 * Mouse-motion compression in ServerProxy: motion messages are held back while more input is
 * waiting and only their net effect is forwarded.  Positions are unclamped.
 */
module MouseCompression {

  datatype Position = Position(x: int, y: int)

  /** A message from the server, by what it means for the cursor. */
  datatype Message =
    | Move(x: int, y: int)
    | RelativeMove(dx: int, dy: int)
    | Input(id: nat)             // key down, up, repeat, button down, up, wheel
    | Leave
    | Enter(x: int, y: int)
    | InfoAck
    | Quiet(id: nat)             // keep-alive, no-op, screen saver, clipboard, options, files
    | TransferFrame
    | Hangup                     // close, error report or unknown code

  /** A call on the client's screen. */
  datatype Action =
    | DoMove(x: int, y: int)
    | DoRelativeMove(dx: int, dy: int)
    | DoInput(id: nat)
    | DoLeave
    | DoEnter(x: int, y: int)

  // ---------------------------------------------------------------- what a screen sees

  function Moved(action: Action, p: Position): Position {
    match action
    case DoMove(x, y) => Position(x, y)
    case DoRelativeMove(dx, dy) => Position(p.x + dx, p.y + dy)
    case DoEnter(x, y) => Position(x, y)
    case DoInput(_) => p
    case DoLeave => p
  }

  /** Where the cursor is after the calls in `log`. */
  function After(log: seq<Action>, p: Position): Position {
    if log == [] then p else Moved(log[|log| - 1], After(log[..|log| - 1], p))
  }

  /** Everything but motion, with the cursor position at which it happened. */
  function Seen(log: seq<Action>, p: Position): seq<(Action, Position)> {
    if log == [] then []
    else Seen(log[..|log| - 1], p) + Sight(log[|log| - 1], After(log, p))
  }

  function Sight(action: Action, p: Position): seq<(Action, Position)> {
    if action.DoMove? || action.DoRelativeMove? then [] else [(action, p)]
  }

  lemma AfterAppend(log: seq<Action>, action: Action, p: Position)
    ensures After(log + [action], p) == Moved(action, After(log, p))
    ensures Seen(log + [action], p) == Seen(log, p) + Sight(action, Moved(action, After(log, p)))
  {
    assert (log + [action])[..|log|] == log;
  }

  // ---------------------------------------------------------------- forwarding at once

  /** Motion is ignored from a change of the screen's shape until the server acknowledges it. */
  predicate Ignoring(batch: seq<Message>, ignore: bool) {
    ignore && InfoAck !in batch
  }

  function Forwarded(m: Message, ignoring: bool): seq<Action> {
    match m
    case Move(x, y) => if ignoring then [] else [DoMove(x, y)]
    case RelativeMove(dx, dy) => if ignoring then [] else [DoRelativeMove(dx, dy)]
    case Input(id) => [DoInput(id)]
    case Leave => [DoLeave]
    case Enter(x, y) => [DoEnter(x, y)]
    case InfoAck => []
    case Quiet(_) => []
    case TransferFrame => []
    case Hangup => []
  }

  /** The calls that forwarding every motion at once would make. */
  function Direct(batch: seq<Message>, ignore: bool): seq<Action> {
    if batch == [] then []
    else
      var init := batch[..|batch| - 1];
      Direct(init, ignore) + Forwarded(batch[|batch| - 1], Ignoring(init, ignore))
  }

  lemma DirectAppend(batch: seq<Message>, m: Message, ignore: bool, log0: seq<Action>, p: Position)
    ensures var forwarded := Forwarded(m, Ignoring(batch, ignore));
            var log1, log2 := log0 + Direct(batch, ignore), log0 + Direct(batch + [m], ignore);
            if forwarded == [] then After(log2, p) == After(log1, p) && Seen(log2, p) == Seen(log1, p)
            else
              && After(log2, p) == Moved(forwarded[0], After(log1, p))
              && Seen(log2, p) == Seen(log1, p) + Sight(forwarded[0], Moved(forwarded[0], After(log1, p)))
  {
    var forwarded := Forwarded(m, Ignoring(batch, ignore));
    assert (batch + [m])[..|batch|] == batch;
    assert log0 + Direct(batch + [m], ignore) == log0 + Direct(batch, ignore) + forwarded;
    if forwarded != [] {
      AfterAppend(log0 + Direct(batch, ignore), forwarded[0], p);
    } else {
      assert log0 + Direct(batch, ignore) + forwarded == log0 + Direct(batch, ignore);
    }
  }

  // ---------------------------------------------------------------- positions by the messages

  /** Motion in message number `k` is not ignored. */
  ghost predicate Counted(batch: seq<Message>, ignore: bool, k: nat)
    requires k <= |batch|
  {
    !ignore || exists i :: 0 <= i < k && batch[i] == InfoAck
  }

  /** The last of the first `n` messages that says where the cursor is; -1 if there is none. */
  ghost function LastPlace(batch: seq<Message>, ignore: bool, n: nat): (k: int)
    requires n <= |batch|
    ensures -1 <= k < n && (k >= 0 ==> batch[k].Enter? || batch[k].Move?)
  {
    if n == 0 then -1
    else if batch[n - 1].Enter? || (batch[n - 1].Move? && Counted(batch, ignore, n - 1)) then n - 1
    else LastPlace(batch, ignore, n - 1)
  }

  /** The sum of the relative motions from message number `from` to before number `n`. */
  ghost function Moves(batch: seq<Message>, ignore: bool, from: nat, n: nat): Position
    requires from <= n <= |batch|
  {
    if n == from then Position(0, 0)
    else
      var sum, m := Moves(batch, ignore, from, n - 1), batch[n - 1];
      if m.RelativeMove? && Counted(batch, ignore, n - 1) then Position(sum.x + m.dx, sum.y + m.dy) else sum
  }

  /** Where the cursor is before message number `n`: at the last place given, moved since. */
  ghost function Standing(batch: seq<Message>, ignore: bool, n: nat, p: Position): Position
    requires n <= |batch|
  {
    var k := LastPlace(batch, ignore, n);
    var start := if k < 0 then p else Position(batch[k].x, batch[k].y);
    var sum := Moves(batch, ignore, k + 1, n);
    Position(start.x + sum.x, start.y + sum.y)
  }

  /** What the screen is to see: keys, buttons, the wheel, leaving and entering, each where the cursor is. */
  ghost function Sights(batch: seq<Message>, ignore: bool, n: nat, p: Position): seq<(Action, Position)>
    requires n <= |batch|
  {
    if n == 0 then []
    else
      Sights(batch, ignore, n - 1, p) +
      match batch[n - 1]
      case Input(id) => [(DoInput(id), Standing(batch, ignore, n - 1, p))]
      case Leave => [(DoLeave, Standing(batch, ignore, n - 1, p))]
      case Enter(x, y) => [(DoEnter(x, y), Position(x, y))]
      case _ => []
  }

  lemma CountedIs(batch: seq<Message>, ignore: bool, n: nat)
    requires n <= |batch|
    ensures Counted(batch, ignore, n) <==> !Ignoring(batch[..n], ignore)
  {
    if exists i :: 0 <= i < n && batch[i] == InfoAck {
      var i :| 0 <= i < n && batch[i] == InfoAck;
      assert batch[..n][i] == InfoAck;
    }
  }

  lemma StandingStep(batch: seq<Message>, ignore: bool, n: nat, p: Position)
    requires n < |batch|
    ensures var before, m := Standing(batch, ignore, n, p), batch[n];
            Standing(batch, ignore, n + 1, p) ==
            if m.Enter? || (m.Move? && Counted(batch, ignore, n)) then Position(m.x, m.y)
            else if m.RelativeMove? && Counted(batch, ignore, n) then Position(before.x + m.dx, before.y + m.dy)
            else before
  {
    hide Counted;
  }

  /** One more message forwarded at once. */
  lemma ForwardedMeans(batch: seq<Message>, ignore: bool, n: nat, p: Position)
    requires n < |batch|
    ensures var forwarded := Forwarded(batch[n], Ignoring(batch[..n], ignore));
            var before, after := Standing(batch, ignore, n, p), Standing(batch, ignore, n + 1, p);
            && |forwarded| <= 1
            && after == (if forwarded == [] then before else Moved(forwarded[0], before))
            && Sights(batch, ignore, n + 1, p)
               == Sights(batch, ignore, n, p) + if forwarded == [] then [] else Sight(forwarded[0], after)
  {
    hide Standing, Counted;
    StandingStep(batch, ignore, n, p);
    CountedIs(batch, ignore, n);
  }

  /** Forwarding every motion at once shows the screen what the messages say, where they say. */
  lemma {:induction false} DirectMeans(batch: seq<Message>, ignore: bool, n: nat, log0: seq<Action>, p: Position)
    requires n <= |batch|
    ensures var log := log0 + Direct(batch[..n], ignore);
            && After(log, p) == Standing(batch, ignore, n, After(log0, p))
            && Seen(log, p) == Seen(log0, p) + Sights(batch, ignore, n, After(log0, p))
  {
    hide After, Seen, Direct, Standing, Sights, Forwarded, Moved, Sight, Ignoring;
    if n == 0 {
      NothingMeans(batch, ignore, log0, p);
    } else {
      DirectMeans(batch, ignore, n - 1, log0, p);
      DirectAppend(batch[..n - 1], batch[n - 1], ignore, log0, p);
      ForwardedMeans(batch, ignore, n - 1, After(log0, p));
      assert batch[..n] == batch[..n - 1] + [batch[n - 1]];
      var forwarded := Forwarded(batch[n - 1], Ignoring(batch[..n - 1], ignore));
      var more := if forwarded == [] then [] else Sight(forwarded[0], Standing(batch, ignore, n, After(log0, p)));
      ThreeParts(Seen(log0, p), Sights(batch, ignore, n - 1, After(log0, p)), more);
    }
  }

  lemma NothingMeans(batch: seq<Message>, ignore: bool, log0: seq<Action>, p: Position)
    ensures var log := log0 + Direct(batch[..0], ignore);
            && After(log, p) == Standing(batch, ignore, 0, After(log0, p))
            && Seen(log, p) == Seen(log0, p) + Sights(batch, ignore, 0, After(log0, p))
  {
    assert batch[..0] == [] && log0 + [] == log0 && Seen(log0, p) + [] == Seen(log0, p);
  }

  lemma ThreeParts<T>(a: seq<T>, b: seq<T>, c: seq<T>)
    ensures a + b + c == a + (b + c) && a + [] == a
  {
  }

  // ---------------------------------------------------------------- what is held back

  predicate Counts(batch: seq<Message>, ignore: bool)
    requires batch != []
  {
    !Ignoring(batch[..|batch| - 1], ignore)
  }

  /** There is an absolute motion since the last message that brings the mouse up to date. */
  predicate HoldsMove(batch: seq<Message>, ignore: bool) {
    batch != [] &&
    var init := batch[..|batch| - 1];
    match batch[|batch| - 1]
    case Move(_, _) => Counts(batch, ignore) || HoldsMove(init, ignore)
    case Input(_) => false
    case Leave => false
    case Enter(_, _) => false
    case _ => HoldsMove(init, ignore)
  }

  /** There is a relative motion since then, and no absolute motion after it. */
  predicate HoldsRelative(batch: seq<Message>, ignore: bool) {
    batch != [] &&
    var init := batch[..|batch| - 1];
    match batch[|batch| - 1]
    case RelativeMove(_, _) => Counts(batch, ignore) || HoldsRelative(init, ignore)
    case Move(_, _) => !Counts(batch, ignore) && HoldsRelative(init, ignore)
    case Input(_) => false
    case Leave => false
    case Enter(_, _) => false
    case _ => HoldsRelative(init, ignore)
  }

  /** The sum of those relative motions. */
  function HeldOffset(batch: seq<Message>, ignore: bool): Position {
    if batch == [] then Position(0, 0)
    else
      var init := batch[..|batch| - 1];
      var held := HeldOffset(init, ignore);
      match batch[|batch| - 1]
      case RelativeMove(dx, dy) =>
        if Counts(batch, ignore) then Position(held.x + dx, held.y + dy) else held
      case Move(_, _) => if Counts(batch, ignore) then Position(0, 0) else held
      case Input(_) => Position(0, 0)
      case Leave => Position(0, 0)
      case Enter(_, _) => Position(0, 0)
      case _ => held
  }

  /**
   * The batch whose motion is delivered out of order: its last message is a motion of one kind,
   * not ignored, while only motion of the other kind is held back, and the relative motion is
   * not zero.
   */
  predicate Misordered(batch: seq<Message>, ignore: bool) {
    batch != [] && Counts(batch, ignore) &&
    var init := batch[..|batch| - 1];
    match batch[|batch| - 1]
    case Move(_, _) => !HoldsMove(init, ignore) && HeldOffset(init, ignore) != Position(0, 0)
    case RelativeMove(dx, dy) => HoldsMove(init, ignore) && !HoldsRelative(init, ignore) && (dx != 0 || dy != 0)
    case _ => false
  }

  // ---------------------------------------------------------------- the proxy

  /** How a batch ends: read to its end, disconnected, or given up without disconnecting. */
  datatype Outcome = Drained | Disconnected | Refused

  class ServerProxy {
    const transferV2: bool
    var compressMouse: bool
    var compressMouseRelative: bool
    var xMouse: int
    var yMouse: int
    var dxMouse: int
    var dyMouse: int
    var ignoreMouse: bool
    var log: seq<Action>

    constructor (transferV2: bool)
      ensures Flushed() && !ignoreMouse && log == [] && this.transferV2 == transferV2
    {
      this.transferV2 := transferV2;
      compressMouse, compressMouseRelative := false, false;
      xMouse, yMouse, dxMouse, dyMouse := 0, 0, 0, 0;
      ignoreMouse, log := false, [];
    }

    /** No motion is held back. */
    predicate Flushed()
      reads this
    {
      !compressMouse && !compressMouseRelative && dxMouse == 0 && dyMouse == 0
    }

    /** Where the cursor goes when what is held back is forwarded. */
    function Pending(p: Position): Position
      reads this
    {
      var q := if compressMouse then Position(xMouse, yMouse) else p;
      if compressMouseRelative then Position(q.x + dxMouse, q.y + dyMouse) else q
    }

    /** The held-back motion is exactly that of the messages read so far. */
    ghost predicate Holding(batch: seq<Message>, ignore: bool)
      reads this
    {
      && compressMouse == HoldsMove(batch, ignore)
      && compressMouseRelative == HoldsRelative(batch, ignore)
      && Position(dxMouse, dyMouse) == HeldOffset(batch, ignore)
      && (!compressMouseRelative ==> dxMouse == 0 && dyMouse == 0)
      && ignoreMouse == Ignoring(batch, ignore)
      && (ignoreMouse ==> Flushed())
    }

    /** The log differs from forwarding at once only by the motion held back. */
    ghost predicate InStep(log0: seq<Action>, direct: seq<Action>, p: Position)
      reads this
    {
      && Seen(log, p) == Seen(log0 + direct, p)
      && Pending(After(log, p)) == After(log0 + direct, p)
    }

    ghost predicate Tracks(batch: seq<Message>, ignore: bool, log0: seq<Action>, p: Position)
      reads this
    {
      Holding(batch, ignore) && InStep(log0, Direct(batch, ignore), p)
    }

    /** The last message has been read and what is held back is about to be forwarded. */
    ghost predicate Ends(batch: seq<Message>, ignore: bool, log0: seq<Action>, p: Position)
      reads this
    {
      && Seen(log, p) == Seen(log0 + Direct(batch, ignore), p)
      && (Pending(After(log, p)) == After(log0 + Direct(batch, ignore), p) <==> !Misordered(batch, ignore))
      && (!compressMouseRelative ==> dxMouse == 0 && dyMouse == 0)
      && ignoreMouse == Ignoring(batch, ignore)
    }

    method Call(action: Action, ghost p: Position)
      modifies this`log
      ensures log == old(log) + [action]
      ensures After(log, p) == Moved(action, After(old(log), p))
      ensures Seen(log, p) == Seen(old(log), p) + Sight(action, Moved(action, After(old(log), p)))
    {
      log := log + [action];
      AfterAppend(old(log), action, p);
    }

    method FlushCompressedMouse(ghost p: Position)
      modifies this
      ensures !compressMouse && !compressMouseRelative && ignoreMouse == old(ignoreMouse)
      ensures old(!compressMouseRelative ==> dxMouse == 0 && dyMouse == 0) ==> Flushed()
      ensures After(log, p) == old(Pending(After(log, p))) && Seen(log, p) == old(Seen(log, p))
    {
      hide After, Seen;
      if compressMouse {
        compressMouse := false;
        Call(DoMove(xMouse, yMouse), p);
      }
      if compressMouseRelative {
        compressMouseRelative := false;
        Call(DoRelativeMove(dxMouse, dyMouse), p);
        dxMouse := 0;
        dyMouse := 0;
      }
    }

    /** An absolute motion; `more` is whether the stream has another message ready. */
    method MouseMove(x: int, y: int, more: bool, ghost p: Position)
      modifies this
      ensures ignoreMouse == old(ignoreMouse) && Seen(log, p) == old(Seen(log, p))
      ensures if compressMouse then
                old(compressMouse || (more && !ignoreMouse)) && Holds(true, false, x, y, 0, 0) && log == old(log)
              else
                && old(!compressMouse && (!more || ignoreMouse))
                && Holds(false, old(compressMouseRelative), old(xMouse), old(yMouse), old(dxMouse), old(dyMouse))
                && if ignoreMouse then log == old(log) else After(log, p) == Position(x, y)
    {
      hide After, Seen;
      var ignore := ignoreMouse;
      if !ignore && !compressMouse && more {
        compressMouse := true;
      }
      if compressMouse {
        compressMouseRelative := false;
        ignore := true;
        xMouse := x;
        yMouse := y;
        dxMouse := 0;
        dyMouse := 0;
      }
      if !ignore {
        Call(DoMove(x, y), p);
      }
    }

    method MouseRelativeMove(dx: int, dy: int, more: bool, ghost p: Position)
      modifies this
      ensures ignoreMouse == old(ignoreMouse) && Seen(log, p) == old(Seen(log, p))
      ensures if compressMouseRelative then
                && old(compressMouseRelative || (more && !ignoreMouse)) && log == old(log)
                && Holds(old(compressMouse), true, old(xMouse), old(yMouse), old(dxMouse) + dx, old(dyMouse) + dy)
              else
                && old(!compressMouseRelative && (!more || ignoreMouse))
                && Holds(old(compressMouse), false, old(xMouse), old(yMouse), old(dxMouse), old(dyMouse))
                && After(log, p) == if ignoreMouse then old(After(log, p))
                                    else Moved(DoRelativeMove(dx, dy), old(After(log, p)))
    {
      hide After, Seen;
      var ignore := ignoreMouse;
      if !ignore && !compressMouseRelative && more {
        compressMouseRelative := true;
      }
      if compressMouseRelative {
        ignore := true;
        dxMouse := dxMouse + dx;
        dyMouse := dyMouse + dy;
      }
      if !ignore {
        Call(DoRelativeMove(dx, dy), p);
      }
    }

    predicate Holds(absolute: bool, relative: bool, x: int, y: int, dx: int, dy: int)
      reads this
    {
      && compressMouse == absolute && compressMouseRelative == relative
      && xMouse == x && yMouse == y && dxMouse == dx && dyMouse == dy
    }

    method EnterScreen(x: int, y: int, ghost p: Position)
      modifies this
      ensures Flushed() && ignoreMouse == old(ignoreMouse) && After(log, p) == Position(x, y)
      ensures Seen(log, p) == old(Seen(log, p)) + [(DoEnter(x, y), Position(x, y))]
    {
      hide After, Seen;
      compressMouse := false;
      compressMouseRelative := false;
      dxMouse := 0;
      dyMouse := 0;
      Call(DoEnter(x, y), p);
    }

    /** Brings the mouse up to date and forwards a key, a button, the wheel or leaving. */
    method FlushAndCall(action: Action, ghost p: Position)
      requires action.DoInput? || action.DoLeave?
      modifies this
      ensures !compressMouse && !compressMouseRelative && ignoreMouse == old(ignoreMouse)
      ensures old(!compressMouseRelative ==> dxMouse == 0 && dyMouse == 0) ==> Flushed()
      ensures After(log, p) == old(Pending(After(log, p)))
      ensures Seen(log, p) == old(Seen(log, p)) + [(action, old(Pending(After(log, p))))]
    {
      hide After, Seen;
      FlushCompressedMouse(p);
      Call(action, p);
    }

    /** One message that is not the end of the connection. */
    method Handle(m: Message, more: bool, ghost before: seq<Message>, ghost ignore: bool,
                  ghost log0: seq<Action>, ghost p: Position)
      requires m != Hangup && (m == TransferFrame ==> transferV2)
      modifies this
      ensures old(Tracks(before, ignore, log0, p)) ==>
                && Seen(log, p) == Seen(log0 + Direct(before + [m], ignore), p)
                && (more || !(m.Move? || m.RelativeMove?) ==> Tracks(before + [m], ignore, log0, p))
                && (!more ==> Ends(before + [m], ignore, log0, p))
    {
      hide After, Seen, Direct;
      assert (before + [m])[..|before|] == before;
      DirectAppend(before, m, ignore, log0, p);
      match m {
        case Move(x, y) =>
          MouseMove(x, y, more, p);
        case RelativeMove(dx, dy) =>
          MouseRelativeMove(dx, dy, more, p);
        case Input(id) =>
          FlushAndCall(DoInput(id), p);
        case Leave =>
          FlushAndCall(DoLeave, p);
        case Enter(x, y) =>
          EnterScreen(x, y, p);
        case InfoAck =>
          ignoreMouse := false;
        case _ =>
      }
    }

    /**
     * Handles the messages that are ready.  From a state without held-back motion, every key,
     * button, wheel, leave and enter is seen at the position it would have with every motion
     * forwarded at once, and so is the end of the batch, unless the batch is misordered.
     */
    method HandleData(batch: seq<Message>, ghost p: Position) returns (outcome: Outcome, handled: nat)
      modifies this
      ensures handled <= |batch|
      ensures outcome == if handled == |batch| then Drained
                         else if batch[handled] == Hangup then Disconnected else Refused
      ensures handled < |batch| ==> batch[handled] == Hangup || (batch[handled] == TransferFrame && !transferV2)
      ensures forall k :: 0 <= k < handled ==> batch[k] != Hangup && (batch[k] == TransferFrame ==> transferV2)
      ensures old(Flushed()) ==>
                && Seen(log, p) == Seen(old(log) + Direct(batch[..handled], old(ignoreMouse)), p)
                && Seen(log, p) == old(Seen(log, p)) + Sights(batch, old(ignoreMouse), handled, old(After(log, p)))
      ensures old(Flushed()) && outcome == Drained ==>
                && Flushed() && ignoreMouse == Ignoring(batch, old(ignoreMouse))
                && (After(log, p) == After(old(log) + Direct(batch, old(ignoreMouse)), p)
                    <==> !Misordered(batch, old(ignoreMouse)))
                && (After(log, p) == Standing(batch, old(ignoreMouse), |batch|, old(After(log, p)))
                    <==> !Misordered(batch, old(ignoreMouse)))
      ensures old(Flushed()) && outcome != Drained ==> Holding(batch[..handled], old(ignoreMouse))
    {
      hide After, Seen, Direct, Holding, Misordered, Standing, Sights;
      ghost var log0, ignore := log, ignoreMouse;
      outcome, handled := HandleBatch(batch, p);
      DirectMeans(batch, ignore, handled, log0, p);
      assert handled == |batch| ==> batch[..handled] == batch;
    }

    /** The loop over the messages. */
    method HandleBatch(batch: seq<Message>, ghost p: Position) returns (outcome: Outcome, handled: nat)
      modifies this
      ensures handled <= |batch|
      ensures outcome == if handled == |batch| then Drained
                         else if batch[handled] == Hangup then Disconnected else Refused
      ensures handled < |batch| ==> batch[handled] == Hangup || (batch[handled] == TransferFrame && !transferV2)
      ensures forall k :: 0 <= k < handled ==> batch[k] != Hangup && (batch[k] == TransferFrame ==> transferV2)
      ensures old(Flushed()) ==>
                Seen(log, p) == Seen(old(log) + Direct(batch[..handled], old(ignoreMouse)), p)
      ensures old(Flushed()) && outcome == Drained ==>
                && Flushed() && ignoreMouse == Ignoring(batch, old(ignoreMouse))
                && (After(log, p) == After(old(log) + Direct(batch, old(ignoreMouse)), p)
                    <==> !Misordered(batch, old(ignoreMouse)))
      ensures old(Flushed()) && outcome != Drained ==> Holding(batch[..handled], old(ignoreMouse))
    {
      hide After, Seen, Direct, Holding, Misordered;
      handled := 0;
      ghost var ignore := ignoreMouse;
      if Flushed() {
        StartsTracking(p);
      }
      assert batch[..0] == [];
      while handled < |batch|
        invariant 0 <= handled <= |batch|
        invariant forall k :: 0 <= k < handled ==> batch[k] != Hangup && (batch[k] == TransferFrame ==> transferV2)
        invariant old(Flushed()) ==>
                    && Seen(log, p) == Seen(old(log) + Direct(batch[..handled], ignore), p)
                    && (handled < |batch| || batch == [] ==> Tracks(batch[..handled], ignore, old(log), p))
                    && (handled == |batch| && batch != [] ==> Ends(batch, ignore, old(log), p))
      {
        var m := batch[handled];
        assert batch[..handled] + [m] == batch[..handled + 1];
        if m == Hangup {
          return Disconnected, handled;
        }
        if m == TransferFrame && !transferV2 {
          return Refused, handled;
        }
        Handle(m, handled + 1 < |batch|, batch[..handled], ignore, old(log), p);
        handled := handled + 1;
        assert handled == |batch| ==> batch[..handled] == batch;
      }
      assert batch[..handled] == batch;
      if batch == [] && old(Flushed()) {
        TracksEmptyEnds(ignore, old(log), p);
      }
      FlushCompressedMouse(p);
      outcome := Drained;
    }

    lemma StartsTracking(p: Position)
      requires Flushed()
      ensures Tracks([], ignoreMouse, log, p)
    {
      assert log + [] == log;
    }

    lemma TracksEmptyEnds(ignore: bool, log0: seq<Action>, p: Position)
      requires Tracks([], ignore, log0, p)
      ensures Ends([], ignore, log0, p)
    {
    }

    /** A change of the screen's shape: motion is ignored until the server acknowledges it. */
    method OnInfoChanged()
      modifies this`ignoreMouse
      ensures ignoreMouse && Flushed() == old(Flushed())
    {
      ignoreMouse := true;
    }
  }

  // ---------------------------------------------------------------- whole connections

  /** What happens to a proxy between its creation and the end of the connection. */
  datatype Event = Batch(messages: seq<Message>) | ShapeChanged

  ghost predicate IgnoringAfter(events: seq<Event>) {
    events != [] &&
    var init := events[..|events| - 1];
    match events[|events| - 1]
    case ShapeChanged => true
    case Batch(messages) => Ignoring(messages, IgnoringAfter(init))
  }

  /** The calls that forwarding every motion at once would make, over all events. */
  ghost function DirectAll(events: seq<Event>): seq<Action> {
    if events == [] then []
    else
      var init := events[..|events| - 1];
      match events[|events| - 1]
      case ShapeChanged => DirectAll(init)
      case Batch(messages) => DirectAll(init) + Direct(messages, IgnoringAfter(init))
  }

  /** No batch ends the connection or stops at a transfer frame that is not understood. */
  ghost predicate Undisturbed(events: seq<Event>, transferV2: bool) {
    forall i :: 0 <= i < |events| && events[i].Batch? ==> Calm(events[i].messages, transferV2)
  }

  ghost predicate Calm(messages: seq<Message>, transferV2: bool) {
    forall k :: 0 <= k < |messages| ==> messages[k] != Hangup && (messages[k] == TransferFrame ==> transferV2)
  }

  ghost predicate InOrder(events: seq<Event>) {
    forall i :: 0 <= i < |events| && events[i].Batch? ==> !Misordered(events[i].messages, IgnoringAfter(events[..i]))
  }

  ghost predicate SameSight(a: seq<Action>, b: seq<Action>, p: Position) {
    After(a, p) == After(b, p) && Seen(a, p) == Seen(b, p)
  }

  lemma {:induction false} SameContinuation(a: seq<Action>, b: seq<Action>, more: seq<Action>, p: Position)
    requires SameSight(a, b, p)
    ensures SameSight(a + more, b + more, p)
  {
    if more == [] {
      assert a + more == a && b + more == b;
    } else {
      var init, last := more[..|more| - 1], more[|more| - 1];
      SameContinuation(a, b, init, p);
      assert a + more == (a + init) + [last] && b + more == (b + init) + [last];
      AfterAppend(a + init, last, p);
      AfterAppend(b + init, last, p);
    }
  }

  /** A message at which reading stops. */
  ghost predicate Stops(m: Message, transferV2: bool) {
    m == Hangup || (m == TransferFrame && !transferV2)
  }

  /** What the screen sees of `a` and `b` is the same; where the cursor ends may differ. */
  ghost predicate SameScenes(a: seq<Action>, b: seq<Action>, p: Position) {
    Seen(a, p) == Seen(b, p)
  }

  /**
   * Compression preserves meaning over a whole connection, up to the first message that hangs up
   * or is refused, number `handled` of batch `done`, if there is one.  As long as no batch is
   * misordered, what the screen sees and where the cursor ends after the whole batches are those
   * of forwarding every motion at once, nothing is held back between batches, and what the screen
   * sees of the last batch is the same up to that message.
   */
  method Connection(transferV2: bool, events: seq<Event>, p: Position)
    returns (log: seq<Action>, done: nat, handled: nat, flushed: bool, ignoring: bool)
    ensures done <= |events| && Undisturbed(events[..done], transferV2)
    ensures done == |events| ==>
              && flushed && ignoring == IgnoringAfter(events)
              && (InOrder(events) ==> SameSight(log, DirectAll(events), p))
    ensures done < |events| ==>
              && events[done].Batch? && handled < |events[done].messages|
              && Stops(events[done].messages[handled], transferV2)
              && Calm(events[done].messages[..handled], transferV2)
              && (InOrder(events[..done]) ==>
                    SameScenes(log, DirectAll(events[..done])
                                    + Direct(events[done].messages[..handled], IgnoringAfter(events[..done])), p))
  {
    hide After, Seen, Direct, Misordered, IgnoringAfter, DirectAll, Undisturbed, InOrder;
    var proxy := new ServerProxy(transferV2);
    done, handled := 0, 0;
    NoEvents(events, transferV2, p);
    while done < |events|
      invariant 0 <= done <= |events| && fresh(proxy) && proxy.transferV2 == transferV2
      invariant proxy.Flushed() && proxy.ignoreMouse == IgnoringAfter(events[..done])
      invariant Undisturbed(events[..done], transferV2)
      invariant InOrder(events[..done]) ==> SameSight(proxy.log, DirectAll(events[..done]), p)
    {
      OneMoreEvent(events, done, transferV2);
      match events[done] {
        case ShapeChanged =>
          proxy.OnInfoChanged();
        case Batch(messages) =>
          var drained;
          drained, handled := OneBatch(proxy, messages, p, InOrder(events[..done]), DirectAll(events[..done]));
          if !drained {
            log, flushed, ignoring := proxy.log, proxy.Flushed(), proxy.ignoreMouse;
            return;
          }
      }
      done := done + 1;
    }
    assert events[..done] == events;
    log, flushed, ignoring := proxy.log, proxy.Flushed(), proxy.ignoreMouse;
  }

  /** One batch, after a log that is seen like `direct` if all was in order. */
  method OneBatch(proxy: ServerProxy, messages: seq<Message>, p: Position,
                  ghost ordered: bool, ghost direct: seq<Action>)
    returns (drained: bool, handled: nat)
    requires proxy.Flushed() && (ordered ==> SameSight(proxy.log, direct, p))
    modifies proxy
    ensures handled <= |messages| && Calm(messages[..handled], proxy.transferV2)
    ensures drained ==>
              && Calm(messages, proxy.transferV2) && proxy.Flushed()
              && proxy.ignoreMouse == Ignoring(messages, old(proxy.ignoreMouse))
              && (ordered && !Misordered(messages, old(proxy.ignoreMouse)) ==>
                    SameSight(proxy.log, direct + Direct(messages, old(proxy.ignoreMouse)), p))
    ensures !drained ==>
              && handled < |messages| && Stops(messages[handled], proxy.transferV2)
              && (ordered ==> SameScenes(proxy.log, direct + Direct(messages[..handled], old(proxy.ignoreMouse)), p))
  {
    hide After, Seen, Direct, Misordered;
    ghost var log0, ignore := proxy.log, proxy.ignoreMouse;
    var outcome;
    outcome, handled := proxy.HandleData(messages, p);
    if ordered {
      SameContinuation(log0, direct, Direct(messages[..handled], ignore), p);
    }
    drained := outcome == Drained;
    assert drained ==> messages[..handled] == messages;
  }

  lemma NoEvents(events: seq<Event>, transferV2: bool, p: Position)
    ensures !IgnoringAfter(events[..0]) && Undisturbed(events[..0], transferV2)
    ensures SameSight([], DirectAll(events[..0]), p)
  {
  }

  lemma OneMoreEvent(events: seq<Event>, i: nat, transferV2: bool)
    requires i < |events|
    ensures var before, after, event := events[..i], events[..i + 1], events[i];
            && IgnoringAfter(after) == (event.ShapeChanged? || Ignoring(event.messages, IgnoringAfter(before)))
            && DirectAll(after) == (if event.ShapeChanged? then DirectAll(before)
                                    else DirectAll(before) + Direct(event.messages, IgnoringAfter(before)))
            && (Undisturbed(before, transferV2) && (event.Batch? ==> Calm(event.messages, transferV2)) ==>
                  Undisturbed(after, transferV2))
            && (InOrder(after) ==>
                  && InOrder(before)
                  && (event.Batch? ==> !Misordered(event.messages, IgnoringAfter(before))))
  {
    hide Direct, Misordered, Calm;
    var after, before := events[..i + 1], events[..i];
    assert after[..i] == before && after[i] == events[i];
    assert forall k :: 0 <= k < i ==> after[k] == before[k] && after[..k] == before[..k];
  }

  /** What forwarding at once comes to over a connection, batch by batch, by the messages. */
  lemma DirectAllMeans(events: seq<Event>, i: nat, p: Position)
    requires i < |events|
    ensures var before, after := DirectAll(events[..i]), DirectAll(events[..i + 1]);
            match events[i]
            case ShapeChanged => after == before
            case Batch(messages) =>
              var ignoring, n := IgnoringAfter(events[..i]), |messages|;
              && After(after, p) == Standing(messages, ignoring, n, After(before, p))
              && Seen(after, p) == Seen(before, p) + Sights(messages, ignoring, n, After(before, p))
  {
    hide After, Seen, Standing, Sights, Direct, DirectAll, IgnoringAfter;
    OneMoreEvent(events, i, true);
    if events[i].Batch? {
      var messages := events[i].messages;
      DirectMeans(messages, IgnoringAfter(events[..i]), |messages|, DirectAll(events[..i]), p);
      assert messages[..|messages|] == messages;
    }
  }

  lemma OfTwo(first: Message, second: Message)
    requires !first.InfoAck?
    ensures var one := [first];
            && [first, second][..1] == one
            && HoldsMove(one, false) == first.Move?
            && HoldsRelative(one, false) == first.RelativeMove?
            && HeldOffset(one, false) == (if first.RelativeMove? then Position(first.dx, first.dy) else Position(0, 0))
            && Direct([first, second], false) == Forwarded(first, false) + Forwarded(second, false)
  {
    assert [first][..0] == [];
    assert Direct([first], false) == Direct([], false) + Forwarded(first, false);
  }

  /** A final absolute motion overtakes the relative motion held back. */
  method AbsoluteOvertakesRelative() returns (got: Position, wanted: Position)
    ensures wanted == Position(5, 6) && got != wanted
  {
    hide After, Direct, Seen, HoldsMove, HoldsRelative, HeldOffset;
    var batch := [RelativeMove(1, 0), Move(5, 6)];
    var proxy := new ServerProxy(true);
    var p := Position(0, 0);
    OfTwo(batch[0], batch[1]);
    var _, _ := proxy.HandleData(batch, p);
    assert [] + Direct(batch, false) == [DoRelativeMove(1, 0), DoMove(5, 6)];
    got, wanted := After(proxy.log, p), After([DoRelativeMove(1, 0), DoMove(5, 6)], p);
    AfterTwo(DoRelativeMove(1, 0), DoMove(5, 6), p);
  }

  lemma AfterTwo(a: Action, b: Action, p: Position)
    ensures After([a, b], p) == Moved(b, Moved(a, p))
  {
    AfterAppend([], a, p);
    AfterAppend([a], b, p);
    assert [] + [a] == [a] && [a] + [b] == [a, b];
  }

  /** A final relative motion overtakes the absolute motion held back, and is lost. */
  method RelativeOvertakesAbsolute() returns (got: Position, wanted: Position)
    ensures wanted == Position(6, 6) && got != wanted
  {
    hide After, Direct, Seen, HoldsMove, HoldsRelative, HeldOffset;
    var batch := [Move(5, 6), RelativeMove(1, 0)];
    var proxy := new ServerProxy(true);
    var p := Position(0, 0);
    OfTwo(batch[0], batch[1]);
    var _, _ := proxy.HandleData(batch, p);
    var direct := [DoMove(5, 6), DoRelativeMove(1, 0)];
    assert [] + Direct(batch, false) == direct;
    AfterTwo(DoMove(5, 6), DoRelativeMove(1, 0), p);
    got, wanted := After(proxy.log, p), After(direct, p);
  }

  /** A refused transfer frame leaves motion held back after the batch. */
  method RefusedTransferHoldsMotion() returns (outcome: Outcome, flushed: bool)
    ensures outcome == Refused && !flushed
  {
    var batch := [Move(5, 6), TransferFrame, Quiet(0)];
    var proxy := new ServerProxy(false);
    var handled;
    outcome, handled := proxy.HandleData(batch, Position(0, 0));
    assert batch[1] == TransferFrame;
    assert handled != 0 by { assert batch[0] == Move(5, 6); }
    assert batch[..1] == [Move(5, 6)] && [Move(5, 6)][..0] == [];
    assert HoldsMove(batch[..1], false);
    flushed := proxy.Flushed();
  }
}
