/** Stopwatch, with the clock reading of each call as an argument. */
module Stopwatches {

  datatype Call = Reset | Stop | Start | SetTrigger | GetTime

  /** A call and the clock when it was made. */
  datatype Entry = Entry(call: Call, at: real)

  /** A stopwatch is made running at `at`, or triggered: it then starts when first read. */
  datatype Birth = Birth(triggered: bool, at: real)

  // ---------------------------------------------------------------- running time by history

  ghost predicate Armed(b: Birth, log: seq<Entry>) {
    if log == [] then b.triggered
    else
      match log[|log| - 1].call
      case SetTrigger => true
      case Start => false
      case GetTime => false
      case Reset => Armed(b, log[..|log| - 1])
      case Stop => Armed(b, log[..|log| - 1])
  }

  ghost predicate Running(b: Birth, log: seq<Entry>) {
    if log == [] then !b.triggered
    else
      match log[|log| - 1].call
      case SetTrigger => false
      case Stop => false
      case Start => true
      case GetTime => Running(b, log[..|log| - 1]) || Armed(b, log[..|log| - 1])
      case Reset => Running(b, log[..|log| - 1])
  }

  /** The time up to `now` during which the stopwatch ran, since it was last reset. */
  ghost function RunningTime(b: Birth, log: seq<Entry>, now: real): real {
    if log == [] then if b.triggered then 0.0 else now - b.at
    else
      var last := log[|log| - 1];
      var before := if last.call == Reset then 0.0 else RunningTime(b, log[..|log| - 1], last.at);
      before + if Running(b, log) then now - last.at else 0.0
  }

  /** What each call means for the running time from then on. */
  lemma CallMeans(b: Birth, log: seq<Entry>, at: real, now: real)
    ensures RunningTime(b, [], now) == if b.triggered then 0.0 else now - b.at
    ensures RunningTime(b, log + [Entry(Stop, at)], now) == RunningTime(b, log, at)
    ensures RunningTime(b, log + [Entry(SetTrigger, at)], now) == RunningTime(b, log, at)
    ensures RunningTime(b, log + [Entry(Start, at)], now) == RunningTime(b, log, at) + (now - at)
    ensures Running(b, log) ==>
              && RunningTime(b, log + [Entry(Reset, at)], now) == now - at
              && RunningTime(b, log + [Entry(GetTime, at)], now) == RunningTime(b, log, at) + (now - at)
    ensures !Running(b, log) ==>
              && RunningTime(b, log + [Entry(Reset, at)], now) == 0.0
              && RunningTime(b, log + [Entry(GetTime, at)], now)
                 == RunningTime(b, log, at) + if Armed(b, log) then now - at else 0.0
  {
    hide RunningTime;
    StatusMeans(b, log, at);
    TimeMeans(b, log, Entry(Stop, at), now);
    TimeMeans(b, log, Entry(SetTrigger, at), now);
    TimeMeans(b, log, Entry(Start, at), now);
    TimeMeans(b, log, Entry(Reset, at), now);
    TimeMeans(b, log, Entry(GetTime, at), now);
    hide Running, Armed;
    assert RunningTime(b, [], now) == if b.triggered then 0.0 else now - b.at by { BirthMeans(b, now); }
  }

  lemma BirthMeans(b: Birth, now: real)
    ensures RunningTime(b, [], now) == if b.triggered then 0.0 else now - b.at
    ensures Running(b, []) == !b.triggered && Armed(b, []) == b.triggered
  {
  }

  lemma TimeMeans(b: Birth, log: seq<Entry>, e: Entry, now: real)
    ensures RunningTime(b, log + [e], now)
            == (if e.call == Reset then 0.0 else RunningTime(b, log, e.at))
               + if Running(b, log + [e]) then now - e.at else 0.0
  {
    hide Running;
    assert (log + [e])[..|log|] == log;
  }

  /** What each call means for whether the stopwatch runs, or starts with the next reading. */
  lemma StatusMeans(b: Birth, log: seq<Entry>, at: real)
    ensures !Running(b, log + [Entry(Stop, at)]) && Armed(b, log + [Entry(Stop, at)]) == Armed(b, log)
    ensures !Running(b, log + [Entry(SetTrigger, at)]) && Armed(b, log + [Entry(SetTrigger, at)])
    ensures Running(b, log + [Entry(Start, at)]) && !Armed(b, log + [Entry(Start, at)])
    ensures Running(b, log + [Entry(Reset, at)]) == Running(b, log)
    ensures Armed(b, log + [Entry(Reset, at)]) == Armed(b, log)
    ensures Running(b, log + [Entry(GetTime, at)]) == (Running(b, log) || Armed(b, log))
    ensures !Armed(b, log + [Entry(GetTime, at)])
  {
    StatusOf(b, log, Entry(Stop, at));
    StatusOf(b, log, Entry(SetTrigger, at));
    StatusOf(b, log, Entry(Start, at));
    StatusOf(b, log, Entry(Reset, at));
    StatusOf(b, log, Entry(GetTime, at));
  }

  lemma StatusOf(b: Birth, log: seq<Entry>, e: Entry)
    ensures Armed(b, log + [e]) == (e.call == SetTrigger || ((e.call == Reset || e.call == Stop) && Armed(b, log)))
    ensures Running(b, log + [e]) ==
            (e.call == Start || (e.call == Reset && Running(b, log))
             || (e.call == GetTime && (Running(b, log) || Armed(b, log))))
  {
    assert (log + [e])[..|log|] == log;
  }

  /** Five seconds, a pause of two, three seconds: eight seconds. */
  method PauseIsNotCounted() returns (reading: real)
    ensures reading == 8.0
  {
    var watch := new Stopwatch(false, 0.0);
    watch.DoStop(5.0);
    watch.DoStart(7.0);
    reading := watch.DoGetTime(10.0);
    CallMeans(Birth(false, 0.0), [], 5.0, 7.0);
    CallMeans(Birth(false, 0.0), [Entry(Stop, 5.0)], 7.0, 10.0);
    assert [] + [Entry(Stop, 5.0)] == [Entry(Stop, 5.0)];
  }

  /** A triggered stopwatch starts with its first reading. */
  method TriggerStartsIt() returns (first: real, second: real)
    ensures first == 0.0 && second == 4.0
  {
    var watch := new Stopwatch(true, 0.0);
    first := watch.DoGetTime(3.0);
    second := watch.DoGetTime(7.0);
    CallMeans(Birth(true, 0.0), [], 3.0, 7.0);
    assert [] + [Entry(GetTime, 3.0)] == [Entry(GetTime, 3.0)];
  }

  class Stopwatch {
    var mark: real
    var triggered: bool
    var stopped: bool

    ghost const birth: Birth
    ghost var log: seq<Entry>

    ghost predicate Valid()
      reads this
    {
      && stopped == !Running(birth, log)
      && triggered == Armed(birth, log)
      && (triggered ==> stopped)
      && forall now: real :: RunningTime(birth, log, now) == if stopped then mark else now - mark
    }

    /** What the calls mean, for every later time. */
    lemma Means(log0: seq<Entry>, at: real)
      ensures forall now :: RunningTime(birth, log0 + [Entry(Stop, at)], now) == RunningTime(birth, log0, at)
      ensures forall now :: RunningTime(birth, log0 + [Entry(SetTrigger, at)], now) == RunningTime(birth, log0, at)
      ensures forall now ::
                RunningTime(birth, log0 + [Entry(Start, at)], now) == RunningTime(birth, log0, at) + (now - at)
      ensures forall now ::
                RunningTime(birth, log0 + [Entry(Reset, at)], now) == if Running(birth, log0) then now - at else 0.0
      ensures forall now ::
                RunningTime(birth, log0 + [Entry(GetTime, at)], now)
                == RunningTime(birth, log0, at)
                   + if Running(birth, log0) || Armed(birth, log0) then now - at else 0.0
      ensures !Running(birth, log0 + [Entry(Stop, at)]) && !Running(birth, log0 + [Entry(SetTrigger, at)])
      ensures Running(birth, log0 + [Entry(Start, at)])
      ensures Running(birth, log0 + [Entry(Reset, at)]) == Running(birth, log0)
      ensures Running(birth, log0 + [Entry(GetTime, at)]) == (Running(birth, log0) || Armed(birth, log0))
      ensures Armed(birth, log0 + [Entry(Stop, at)]) == Armed(birth, log0) == Armed(birth, log0 + [Entry(Reset, at)])
      ensures Armed(birth, log0 + [Entry(SetTrigger, at)]) && !Armed(birth, log0 + [Entry(Start, at)])
      ensures !Armed(birth, log0 + [Entry(GetTime, at)])
    {
      hide RunningTime, Running, Armed;
      StatusMeans(birth, log0, at);
      forall now { CallMeans(birth, log0, at, now); }
    }

    constructor (triggered: bool, now: real)
      ensures Valid() && log == [] && birth == Birth(triggered, now)
      ensures stopped == this.triggered == triggered && (!triggered ==> mark == now)
    {
      mark, this.triggered, stopped := 0.0, triggered, triggered;
      birth, log := Birth(triggered, now), [];
      if !triggered {
        mark := now;
      }
    }

    /** Returns the running time and starts counting afresh. */
    method DoReset(now: real) returns (dt: real)
      requires Valid()
      modifies this
      ensures Valid() && log == old(log) + [Entry(Reset, now)]
      ensures dt == RunningTime(birth, old(log), now)
      ensures stopped == old(stopped) && triggered == old(triggered)
      ensures mark == if stopped then 0.0 else now
    {
      hide RunningTime, Running, Armed;
      if stopped {
        dt := mark;
        mark := 0.0;
      } else {
        dt := now - mark;
        mark := now;
      }
      log := log + [Entry(Reset, now)];
      Means(old(log), now);
    }

    method DoStop(now: real)
      requires Valid()
      modifies this
      ensures Valid() && log == old(log) + [Entry(Stop, now)] && stopped
    {
      hide RunningTime, Running, Armed;
      if !stopped {
        mark := now - mark;
        stopped := true;
      }
      log := log + [Entry(Stop, now)];
      Means(old(log), now);
    }

    method DoStart(now: real)
      requires Valid()
      modifies this
      ensures Valid() && log == old(log) + [Entry(Start, now)] && !stopped && !triggered
    {
      hide RunningTime, Running, Armed;
      triggered := false;
      if stopped {
        mark := now - mark;
        stopped := false;
      }
      log := log + [Entry(Start, now)];
      Means(old(log), now);
    }

    method DoSetTrigger(now: real)
      requires Valid()
      modifies this
      ensures Valid() && log == old(log) + [Entry(SetTrigger, now)] && stopped && triggered
    {
      hide RunningTime, Running, Armed;
      if !stopped {
        mark := now - mark;
        stopped := true;
      }
      triggered := true;
      log := log + [Entry(SetTrigger, now)];
      Means(old(log), now);
    }

    /** The running time; reading a triggered stopwatch starts it. */
    method DoGetTime(now: real) returns (dt: real)
      requires Valid()
      modifies this
      ensures Valid() && log == old(log) + [Entry(GetTime, now)]
      ensures dt == RunningTime(birth, old(log), now)
      ensures !old(stopped) ==> dt == now - mark && mark == old(mark) && !stopped && !triggered
    {
      hide RunningTime, Running, Armed;
      if triggered {
        dt := mark;
        triggered := false;
        mark := now - mark;
        stopped := false;
      } else if stopped {
        dt := mark;
      } else {
        dt := now - mark;
      }
      log := log + [Entry(GetTime, now)];
      Means(old(log), now);
    }
  }

  /** Every sequence of calls: each reading is the running time since the last reset. */
  method Measure(triggered: bool, at: real, calls: seq<Entry>) returns (readings: seq<real>)
    ensures |readings| == |calls|
    ensures forall k :: 0 <= k < |calls| && (calls[k].call == GetTime || calls[k].call == Reset) ==>
              readings[k] == RunningTime(Birth(triggered, at), calls[..k], calls[k].at)
  {
    var watch := new Stopwatch(triggered, at);
    readings := [];
    var i := 0;
    while i < |calls|
      invariant 0 <= i <= |calls| && |readings| == i && fresh(watch)
      invariant watch.Valid() && watch.log == calls[..i]
      invariant forall k :: 0 <= k < i && (calls[k].call == GetTime || calls[k].call == Reset) ==>
                  readings[k] == RunningTime(Birth(triggered, at), calls[..k], calls[k].at)
    {
      var now, dt := calls[i].at, 0.0;
      assert calls[..i] + [calls[i]] == calls[..i + 1];
      match calls[i].call {
        case Reset => dt := watch.DoReset(now);
        case Stop => watch.DoStop(now);
        case Start => watch.DoStart(now);
        case SetTrigger => watch.DoSetTrigger(now);
        case GetTime => dt := watch.DoGetTime(now);
      }
      readings := readings + [dt];
      i := i + 1;
    }
  }
}
