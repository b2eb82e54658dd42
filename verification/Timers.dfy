/**
 * The timers of EventQueue.  Each call is given the clock readings that it makes; the clock
 * never goes back, and may advance between the two readings of `hasTimerExpired`.
 */
module Timers {
  import opened Wrappers
  import opened PriorityQueues
  import opened Stopwatches

  /** Which timer fired, and how many periods it reports. */
  datatype Firing = Firing(id: nat, count: int)

  /**
   * The history.  A check is given the clock when the elapsed time is read and when the
   * stopwatch is reset.
   */
  datatype Entry =
    | Created(id: nat, at: real, duration: real, oneShot: bool)
    | Deleted(id: nat)
    | Checked(t1: real, t2: real, fired: Option<Firing>)

  /**
   * A timer that is to fire `duration` after `since`.  `missed` is the clock advance between the
   * two readings of the checks since then, which the countdown does not see.
   */
  datatype Alarm = Alarm(since: real, duration: real, oneShot: bool, missed: real)

  /** What is due for a timer, by the history alone: since its creation or its last firing. */
  ghost function Due(log: seq<Entry>, id: nat): Option<Alarm> {
    if log == [] then None
    else
      var before := Due(log[..|log| - 1], id);
      match log[|log| - 1]
      case Created(i, at, duration, oneShot) => if i == id then Some(Alarm(at, duration, oneShot, 0.0)) else before
      case Deleted(i) => if i == id then None else before
      case Checked(t1, t2, fired) =>
        if before.None? then None
        else if fired.Some? && fired.value.id == id then
          if before.value.oneShot then None else Some(Alarm(t2, before.value.duration, false, 0.0))
        else Some(before.value.(missed := before.value.missed + (t2 - t1)))
  }

  /** When a timer is seen to run out: its duration later than `since`, and later by what was missed. */
  ghost function Expiry(alarm: Alarm): real {
    alarm.since + alarm.duration + alarm.missed
  }

  /** The number of whole durations that have passed, as far as the countdown has seen. */
  ghost predicate Elapsed(alarm: Alarm, now: real, count: int) {
    var passed := now - alarm.since - alarm.missed;
    count as real * alarm.duration <= passed < (count + 1) as real * alarm.duration
  }

  /**
   * Exactly when a check fires and what: none if and only if no timer has run out, and else one
   * that runs out first, with the number of times it did.
   */
  ghost predicate Right(log: seq<Entry>, t1: real, fired: Option<Firing>) {
    match fired
    case None => forall id :: Due(log, id).Some? ==> t1 < Expiry(Due(log, id).value)
    case Some(f) =>
      && Due(log, f.id).Some?
      && Due(log, f.id).value.duration > 0.0
      && Expiry(Due(log, f.id).value) <= t1
      && (forall id :: Due(log, id).Some? ==> Expiry(Due(log, f.id).value) <= Expiry(Due(log, id).value))
      && Elapsed(Due(log, f.id).value, t1, f.count)
  }

  ghost predicate RightLog(log: seq<Entry>) {
    forall k :: 0 <= k < |log| && log[k].Checked? ==> Right(log[..k], log[k].t1, log[k].fired)
  }

  lemma RightLogAppend(log: seq<Entry>, e: Entry)
    requires RightLog(log)
    requires e.Checked? ==> Right(log, e.t1, e.fired)
    ensures RightLog(log + [e])
  {
    var longer := log + [e];
    forall k | 0 <= k < |longer| && longer[k].Checked? ensures Right(longer[..k], longer[k].t1, longer[k].fired) {
      if k < |log| {
        assert longer[..k] == log[..k] && longer[k] == log[k];
      } else {
        assert longer[..k] == log;
      }
    }
  }

  lemma DueAppend(log: seq<Entry>, e: Entry, id: nat)
    ensures var before, due := Due(log, id), Due(log + [e], id);
            match e
            case Created(i, at, duration, oneShot) =>
              due == if i == id then Some(Alarm(at, duration, oneShot, 0.0)) else before
            case Deleted(i) => due == if i == id then None else before
            case Checked(t1, t2, fired) =>
              due == if before.None? then None
                     else if fired.Some? && fired.value.id == id then
                       if before.value.oneShot then None else Some(Alarm(t2, before.value.duration, false, 0.0))
                     else Some(before.value.(missed := before.value.missed + (t2 - t1)))
  {
    assert (log + [e])[..|log|] == log;
  }

  // ---------------------------------------------------------------- safety

  ghost predicate ClockGoesOn(log: seq<Entry>) {
    && (forall k :: 0 <= k < |log| && log[k].Checked? ==> log[k].t1 <= log[k].t2)
    && (forall k :: 0 <= k < |log| && log[k].Created? ==> log[k].duration > 0.0)
  }

  /** A firing is safe if it is due: its full duration has passed, as many times as it reports. */
  ghost predicate Safe(log: seq<Entry>, at: real, f: Firing) {
    && Due(log, f.id).Some?
    && var alarm := Due(log, f.id).value;
    && alarm.since + alarm.duration <= at
    && 1 <= f.count && f.count as real * alarm.duration <= at - alarm.since
  }

  ghost predicate SafeLog(log: seq<Entry>) {
    forall k :: 0 <= k < |log| && log[k].Checked? && log[k].fired.Some? ==>
      Safe(log[..k], log[k].t2, log[k].fired.value)
  }

  lemma {:induction false} NothingGained(log: seq<Entry>, id: nat)
    requires ClockGoesOn(log)
    ensures Due(log, id).Some? ==> Due(log, id).value.missed >= 0.0 && Due(log, id).value.duration > 0.0
  {
    if log != [] {
      NothingGained(log[..|log| - 1], id);
    }
  }

  lemma FloorOfQuotient(x: real, y: real)
    requires y > 0.0
    ensures (x / y).Floor as real * y <= x < ((x / y).Floor + 1) as real * y
  {
    var q := x / y;
    var n, m := q.Floor as real, (q.Floor + 1) as real;
    assert q * y == x;
    assert n <= q < m;
    Between(n, q, m, y, x);
  }

  lemma Between(n: real, q: real, m: real, y: real, x: real)
    requires y > 0.0 && n <= q < m && x == q * y
    ensures n * y <= x < m * y
  {
    Scale(n, q, y);
    Scale(q, m, y);
  }

  lemma Scale(a: real, b: real, y: real)
    requires y > 0.0 && a <= b
    ensures a * y <= b * y && (a < b ==> a * y < b * y)
  {
    assert (b - a) * y >= 0.0;
    assert a < b ==> (b - a) * y > 0.0;
  }

  /** A check that does right fires safely. */
  lemma RightIsSafe(log: seq<Entry>, t1: real, t2: real, f: Firing)
    requires ClockGoesOn(log) && t1 <= t2 && Right(log, t1, Some(f))
    ensures Safe(log, t2, f)
  {
    hide Due;
    NothingGained(log, f.id);
    var alarm := Due(log, f.id).value;
    if f.count <= 0 {
      Scale((f.count + 1) as real, 1.0, alarm.duration);
    }
  }

  /**
   * A history in which every check does right is safe: no timer fires before its duration has
   * passed since it was created or last fired, a one-shot fires once at most, a deleted timer
   * never.
   */
  lemma RightLogIsSafe(log: seq<Entry>)
    requires ClockGoesOn(log) && RightLog(log)
    ensures SafeLog(log)
  {
    hide Due, Right, Safe;
    forall k | 0 <= k < |log| && log[k].Checked? && log[k].fired.Some?
      ensures Safe(log[..k], log[k].t2, log[k].fired.value)
    {
      assert Right(log[..k], log[k].t1, log[k].fired);
      assert ClockGoesOn(log[..k]);
      RightIsSafe(log[..k], log[k].t1, log[k].t2, log[k].fired.value);
    }
  }

  // ---------------------------------------------------------------- safety by the entries alone

  ghost predicate Fires(e: Entry, id: nat) {
    e.Checked? && e.fired.Some? && e.fired.value.id == id
  }

  /** Between two entries the timer is neither created anew nor deleted. */
  ghost predicate Undisturbed(log: seq<Entry>, id: nat, from: int, to: int) {
    forall i :: 0 <= i < |log| && from < i < to ==> !((log[i].Created? || log[i].Deleted?) && log[i].id == id)
  }

  ghost predicate Silent(log: seq<Entry>, id: nat, from: int, to: int) {
    forall i :: 0 <= i < |log| && from < i < to ==> !Fires(log[i], id)
  }

  lemma DueNext(log: seq<Entry>, n: nat, id: nat)
    requires n < |log|
    ensures var before, after := Due(log[..n], id), Due(log[..n + 1], id);
            && (log[n].Created? && log[n].id == id ==>
                  after == Some(Alarm(log[n].at, log[n].duration, log[n].oneShot, 0.0)))
            && (log[n].Deleted? && log[n].id == id ==> after == None)
            && (Fires(log[n], id) ==>
                  after == if before.None? || before.value.oneShot then None
                           else Some(Alarm(log[n].t2, before.value.duration, false, 0.0)))
            && (!Fires(log[n], id) && !((log[n].Created? || log[n].Deleted?) && log[n].id == id) ==>
                  (before.None? <==> after.None?)
                  && (before.Some? ==> after.value == before.value.(missed := after.value.missed)))
  {
    assert log[..n + 1] == log[..n] + [log[n]];
    DueAppend(log[..n], log[n], id);
  }

  /** A timer that was created and has not fired is due by its creation. */
  lemma {:induction false} DueSinceCreation(log: seq<Entry>, id: nat, j: nat, n: nat)
    requires j < n <= |log| && log[j].Created? && log[j].id == id && Undisturbed(log, id, j, n) && Silent(log, id, j, n)
    ensures Due(log[..n], id).Some?
    ensures var alarm := Due(log[..n], id).value;
            alarm.since == log[j].at && alarm.duration == log[j].duration && alarm.oneShot == log[j].oneShot
  {
    hide Due;
    DueNext(log, n - 1, id);
    if n > j + 1 {
      DueSinceCreation(log, id, j, n - 1);
    }
  }

  /** What is due after a timer fired: nothing for a one-shot, and else by that firing. */
  lemma {:induction false} DueSinceFiring(log: seq<Entry>, id: nat, f: nat, n: nat)
    requires f < n <= |log| && Fires(log[f], id) && Undisturbed(log, id, f, n) && Silent(log, id, f, n)
    ensures var before, after := Due(log[..f], id), Due(log[..n], id);
            if before.None? || before.value.oneShot then after.None?
            else after.Some? && after.value == Alarm(log[f].t2, before.value.duration, false, after.value.missed)
  {
    hide Due;
    DueNext(log, n - 1, id);
    if n > f + 1 {
      DueSinceFiring(log, id, f, n - 1);
    }
  }

  lemma {:induction false} DueSinceDeletion(log: seq<Entry>, id: nat, d: nat, n: nat)
    requires d < n <= |log| && log[d].Deleted? && log[d].id == id
    requires forall i :: d < i < n ==> !(log[i].Created? && log[i].id == id)
    ensures Due(log[..n], id).None?
  {
    hide Due;
    DueNext(log, n - 1, id);
    if n > d + 1 {
      DueSinceDeletion(log, id, d, n - 1);
    }
  }

  /** The first firing comes no earlier than the full duration after the creation. */
  lemma FirstFiring(log: seq<Entry>, id: nat, j: nat, k: nat)
    requires SafeLog(log) && j < k < |log| && log[j].Created? && log[j].id == id && Fires(log[k], id)
    requires Undisturbed(log, id, j, k) && Silent(log, id, j, k)
    ensures log[j].at + log[j].duration <= log[k].t2
  {
    hide Due;
    DueSinceCreation(log, id, j, k);
    assert Safe(log[..k], log[k].t2, log[k].fired.value);
  }

  /** A later firing comes no earlier than the full duration after the one before; a one-shot has none. */
  lemma NextFiring(log: seq<Entry>, id: nat, j: nat, f: nat, k: nat)
    requires SafeLog(log) && j < f < k < |log| && log[j].Created? && log[j].id == id
    requires Fires(log[f], id) && Fires(log[k], id)
    requires Undisturbed(log, id, j, k) && Silent(log, id, j, f) && Silent(log, id, f, k)
    ensures !log[j].oneShot && log[f].t2 + log[j].duration <= log[k].t2
  {
    hide Due;
    DueSinceCreation(log, id, j, f);
    DueSinceFiring(log, id, f, k);
    assert Safe(log[..k], log[k].t2, log[k].fired.value);
  }

  /** A deleted timer does not fire unless it is created anew. */
  lemma DeletedIsSilent(log: seq<Entry>, id: nat, d: nat, k: nat)
    requires SafeLog(log) && d < k < |log| && log[d].Deleted? && log[d].id == id
    requires forall i :: d < i < k ==> !(log[i].Created? && log[i].id == id)
    ensures !Fires(log[k], id)
  {
    hide Due;
    DueSinceDeletion(log, id, d, k);
  }

  // ---------------------------------------------------------------- the timers and the history

  /** The stored remaining time, counted from the stopwatch's mark, runs out at the expiry. */
  ghost predicate Matches(log: seq<Entry>, t: Timer, mark: real) {
    && t.timeout > 0.0
    && Due(log, t.id).Some?
    && Due(log, t.id).value.duration == t.timeout && Due(log, t.id).value.oneShot == t.oneShot
    && mark + t.time == Expiry(Due(log, t.id).value)
  }

  ghost predicate HasId(timers: set<Timer>, id: nat) {
    exists t :: t in timers && t.id == id
  }

  /** Exactly the timers that are due are there, each with its time. */
  ghost predicate Synced(log: seq<Entry>, timers: set<Timer>, mark: real) {
    && (forall t :: t in timers ==> Matches(log, t, mark))
    && (forall id :: Due(log, id).Some? ==> HasId(timers, id))
    && (forall t, u :: t in timers && u in timers && t.id == u.id ==> t == u)
  }

  lemma CreateSync(log: seq<Entry>, timers: set<Timer>, mark: real, t: Timer, now: real)
    requires Synced(log, timers, mark)
    requires t.timeout > 0.0 && t.time == t.timeout + (now - mark) && !HasId(timers, t.id)
    ensures Synced(log + [Created(t.id, now, t.timeout, t.oneShot)], timers + {t}, mark)
  {
    var log' := log + [Created(t.id, now, t.timeout, t.oneShot)];
    forall id { DueAppend(log, Created(t.id, now, t.timeout, t.oneShot), id); }
    forall u | u in timers ensures Matches(log', u, mark) {
      assert u.id != t.id && Matches(log, u, mark);
    }
    forall id | Due(log', id).Some? ensures HasId(timers + {t}, id) {
      if id != t.id {
        var u :| u in timers && u.id == id;
        assert u in timers + {t};
      } else {
        assert t in timers + {t};
      }
    }
  }

  ghost function Without(timers: set<Timer>, id: nat): set<Timer> {
    set t | t in timers && t.id != id
  }

  lemma DeleteSync(log: seq<Entry>, timers: set<Timer>, mark: real, id: nat)
    requires Synced(log, timers, mark)
    ensures Synced(log + [Deleted(id)], Without(timers, id), mark)
  {
    var log', left := log + [Deleted(id)], Without(timers, id);
    forall i { DueAppend(log, Deleted(id), i); }
    forall u | u in left ensures Matches(log', u, mark) {
      assert Matches(log, u, mark);
    }
    forall i | Due(log', i).Some? ensures HasId(left, i) {
      var u :| u in timers && u.id == i;
      assert u in left;
    }
  }

  lemma LessHasSameIds(timers: set<Timer>, dt: real, ids: set<nat>)
    requires forall t :: t in timers ==> t.id in ids
    ensures forall t :: t in Less(timers, dt) ==> t.id in ids
  {
  }

  /** What a check leaves: the timers counted down, and the one that fired with its full time or gone. */
  ghost function AfterCheck(less: set<Timer>, fired: Option<Timer>): set<Timer> {
    match fired
    case None => less
    case Some(t) => less - {t} + if t.oneShot then {} else {t.(time := t.timeout)}
  }

  ghost function FiringOf(fired: Option<Timer>): Option<Firing>
    requires fired.Some? ==> fired.value.timeout > 0.0
  {
    match fired
    case None => None
    case Some(t) => Some(Firing(t.id, Periods(t)))
  }

  /** Counting down is the same as moving the mark to the first reading. */
  lemma CountdownSync(log: seq<Entry>, timers: set<Timer>, mark: real, t1: real)
    requires Synced(log, timers, mark)
    ensures Synced(log, Less(timers, t1 - mark), t1)
  {
    hide Due;
    var less := Less(timers, t1 - mark);
    forall u | u in less ensures Matches(log, u, t1) {
      var t :| t in timers && u == t.(time := t.time - (t1 - mark));
      assert Matches(log, t, mark);
    }
    forall id | Due(log, id).Some? ensures HasId(less, id) {
      var t :| t in timers && t.id == id;
      assert t.(time := t.time - (t1 - mark)) in less;
    }
  }

  lemma OthersMiss(log: seq<Entry>, u: Timer, t1: real, t2: real, fired: Option<Firing>)
    requires Matches(log, u, t1) && (fired.Some? ==> fired.value.id != u.id)
    ensures Matches(log + [Checked(t1, t2, fired)], u, t2)
  {
    hide Due;
    DueAppend(log, Checked(t1, t2, fired), u.id);
  }

  lemma FiredRestarts(log: seq<Entry>, t: Timer, t1: real, t2: real, fired: Firing)
    requires Matches(log, t, t1) && fired.id == t.id
    ensures if t.oneShot then Due(log + [Checked(t1, t2, Some(fired))], t.id).None?
            else Matches(log + [Checked(t1, t2, Some(fired))], t.(time := t.timeout), t2)
  {
    hide Due;
    DueAppend(log, Checked(t1, t2, Some(fired)), t.id);
  }

  /** Resetting the stopwatch costs every timer but the one that fires what is missed. */
  lemma CheckSync(log: seq<Entry>, less: set<Timer>, t1: real, t2: real, fired: Option<Timer>)
    requires Synced(log, less, t1)
    requires fired.Some? ==> fired.value in less && fired.value.timeout > 0.0
    ensures Synced(log + [Checked(t1, t2, FiringOf(fired))], AfterCheck(less, fired), t2)
  {
    hide Due, Matches, Periods;
    var e := Checked(t1, t2, FiringOf(fired));
    var log', after := log + [e], AfterCheck(less, fired);
    if fired.Some? {
      FiredRestarts(log, fired.value, t1, t2, FiringOf(fired).value);
    }
    forall u | u in after ensures Matches(log', u, t2) {
      if u in less && (fired.Some? ==> u != fired.value) {
        OthersMiss(log, u, t1, t2, FiringOf(fired));
      }
    }
    forall id | Due(log', id).Some? ensures HasId(after, id) {
      DueAppend(log, e, id);
      var u :| u in less && u.id == id;
      if fired.Some? && id == fired.value.id {
        assert fired.value.(time := fired.value.timeout) in after;
      } else {
        assert u in after;
      }
    }
  }

  /** The number of whole periods that have passed. */
  function Periods(t: Timer): int
    requires t.timeout > 0.0
  {
    ((t.timeout - t.time) / t.timeout).Floor
  }

  /** Firing the front of the heap exactly if it has run out is right. */
  lemma FrontIsRight(log: seq<Entry>, less: set<Timer>, t1: real, t: Timer)
    requires Synced(log, less, t1)
    requires t in less && forall u :: u in less ==> t.time <= u.time
    ensures t.timeout > 0.0
    ensures Right(log, t1, if t.time > 0.0 then None else Some(Firing(t.id, Periods(t))))
  {
    hide Due;
    assert Matches(log, t, t1);
    var alarm := Due(log, t.id).value;
    assert t.timeout - t.time == t1 - alarm.since - alarm.missed;
    FloorOfQuotient(t.timeout - t.time, t.timeout);
    forall id | Due(log, id).Some?
      ensures t.time <= Expiry(Due(log, id).value) - t1
    {
      var u :| u in less && u.id == id;
      assert Matches(log, u, t1);
    }
  }

  class TimerQueue {
    const watch: Stopwatch
    const heap: PriorityQueue
    var timers: set<nat>

    ghost var log: seq<Entry>

    ghost predicate Valid()
      reads this, watch, heap
    {
      && watch.Valid() && !watch.stopped && !watch.triggered
      && heap.Valid()
      && RightLog(log)
      && (forall t :: t in heap.Contents() ==> t.id in timers)
      && Synced(log, heap.Contents(), watch.mark)
    }

    constructor (now: real)
      ensures Valid() && fresh(watch) && fresh(heap) && log == [] && timers == {}
    {
      watch := new Stopwatch(false, now);
      heap := new PriorityQueue();
      timers, log := {}, [];
    }

    /** newTimer and newOneShotTimer; the allocator gives a handle that is not in use. */
    method NewTimer(id: nat, duration: real, oneShot: bool, now: real)
      requires Valid() && duration > 0.0 && id !in timers
      modifies this, watch, heap
      ensures Valid() && timers == old(timers) + {id}
      ensures log == old(log) + [Created(id, now, duration, oneShot)]
    {
      hide Elements, Heap, Distinct, Due, RightLog, Synced;
      timers := timers + {id};
      var onTheClock := watch.DoGetTime(now);
      var t := Timer(id, duration, oneShot, duration + onTheClock);
      CreateSync(log, heap.Contents(), watch.mark, t, now);
      RightLogAppend(log, Created(id, now, duration, oneShot));
      heap.Push(t);
      log := log + [Created(id, now, duration, oneShot)];
    }

    method DeleteTimer(id: nat)
      requires Valid()
      modifies this, heap
      ensures Valid() && timers == old(timers) - {id}
      ensures log == old(log) + [Deleted(id)]
    {
      hide Heap, Due, RightLog, Synced;
      DeleteSync(log, heap.Contents(), watch.mark, id);
      RightLogAppend(log, Deleted(id));
      ghost var left := Without(heap.Contents(), id);
      var i := 0;
      while i < |heap.c|
        invariant 0 <= i <= |heap.c| && heap.c == old(heap.c)
        invariant forall k :: 0 <= k < i ==> heap.c[k].id != id
      {
        if heap.c[i].id == id {
          heap.Erase(i);
          assert heap.Contents() == left;
          break;
        }
        i := i + 1;
      }
      assert heap.Contents() == left;
      timers := timers - {id};
      log := log + [Deleted(id)];
    }

    /**
     * Fires a timer that runs out first, if it has.  `t1` and `t2` are the clock when the elapsed
     * time is read and when the stopwatch is reset.
     */
    method HasTimerExpired(t1: real, t2: real) returns (fired: Option<Firing>)
      requires Valid()
      modifies this, watch, heap
      ensures Valid() && timers == old(timers)
      ensures log == old(log) + [Checked(t1, t2, fired)] && Right(old(log), t1, fired)
    {
      hide Elements, Heap, Distinct, Less, Due, RightLog, Right, Synced, Matches, Periods, RunningTime, Running, Armed;
      ghost var before, mark := heap.Contents(), watch.mark;
      if heap.c == [] {
        NothingDue(log, heap, watch.mark, t1, t2);
        RightLogAppend(log, Checked(t1, t2, None));
        log := log + [Checked(t1, t2, None)];
        return None;
      }
      var time := watch.DoGetTime(t1);
      var _ := watch.DoReset(t2);
      heap.Subtract(time);
      LessHasSameIds(before, time, timers);
      var t := heap.Top();
      CountdownSync(log, before, mark, t1);
      FrontIsRight(log, heap.Contents(), t1, t);
      if t.time > 0.0 {
        fired := None;
        CheckSync(log, heap.Contents(), t1, t2, None);
      } else {
        fired := Some(Firing(t.id, Periods(t)));
        CheckSync(log, heap.Contents(), t1, t2, Some(t));
        Reinsert(t);
      }
      RightLogAppend(log, Checked(t1, t2, fired));
      log := log + [Checked(t1, t2, fired)];
    }

    /** Takes the front timer out and, unless it is a one-shot, puts it back with its full time. */
    method Reinsert(t: Timer)
      requires heap.Valid() && heap.c != [] && t == heap.c[0]
      modifies heap
      ensures heap.Valid() && heap.Contents() == AfterCheck(old(heap.Contents()), Some(t))
    {
      hide Heap;
      heap.Pop();
      if !t.oneShot {
        heap.Push(t.(time := t.timeout));
      }
    }
  }

  lemma NothingDue(log: seq<Entry>, heap: PriorityQueue, mark: real, t1: real, t2: real)
    requires heap.c == [] && Synced(log, heap.Contents(), mark)
    ensures Right(log, t1, None) && Synced(log + [Checked(t1, t2, None)], heap.Contents(), mark)
  {
    forall i { DueAppend(log, Checked(t1, t2, None), i); }
  }

  // ---------------------------------------------------------------- whole runs

  /** What the program does with its timers; a check is given the clock before and after. */
  datatype Op =
    | New(id: nat, duration: real, oneShot: bool, now: real)
    | Delete(id: nat)
    | Check(t1: real, t2: real)

  /** Handles are not given out twice while in use, durations are positive, the clock goes on. */
  ghost predicate Sound(ops: seq<Op>) {
    && (forall k :: 0 <= k < |ops| && ops[k].New? ==> ops[k].duration > 0.0 && ops[k].id !in InUse(ops[..k]))
    && (forall k :: 0 <= k < |ops| && ops[k].Check? ==> ops[k].t1 <= ops[k].t2)
  }

  ghost function InUse(ops: seq<Op>): set<nat> {
    if ops == [] then {}
    else
      var before := InUse(ops[..|ops| - 1]);
      match ops[|ops| - 1]
      case New(id, _, _, _) => before + {id}
      case Delete(id) => before - {id}
      case Check(_, _) => before
  }

  lemma InUseStep(ops: seq<Op>, i: nat)
    requires i <= |ops|
    ensures InUse(ops[..0]) == {}
    ensures i < |ops| ==>
              InUse(ops[..i + 1]) == match ops[i]
                                     case New(id, _, _, _) => InUse(ops[..i]) + {id}
                                     case Delete(id) => InUse(ops[..i]) - {id}
                                     case Check(_, _) => InUse(ops[..i])
  {
    if i < |ops| {
      assert ops[..i + 1][..i] == ops[..i];
    }
  }

  /** The entry of the history that records an operation; only what a check fires is left open. */
  ghost predicate Records(e: Entry, op: Op) {
    match op
    case New(id, duration, oneShot, now) => e == Created(id, now, duration, oneShot)
    case Delete(id) => e == Deleted(id)
    case Check(t1, t2) => e.Checked? && e.t1 == t1 && e.t2 == t2
  }

  lemma SoundClock(ops: seq<Op>, log: seq<Entry>)
    requires Sound(ops) && |log| == |ops| && forall k :: 0 <= k < |ops| ==> Records(log[k], ops[k])
    ensures ClockGoesOn(log)
  {
    forall k | 0 <= k < |log|
      ensures log[k].Checked? ==> log[k].t1 <= log[k].t2
      ensures log[k].Created? ==> log[k].duration > 0.0
    {
      assert Records(log[k], ops[k]);
    }
  }

  /**
   * Every run: each check fires if and only if a timer has run out, and then one that runs out
   * first; and so no timer fires before its duration has passed since it was created or last
   * fired, a one-shot fires at most once, and a deleted timer never does.
   */
  method Run(start: real, ops: seq<Op>) returns (log: seq<Entry>)
    requires Sound(ops)
    ensures |log| == |ops| && forall k :: 0 <= k < |ops| ==> Records(log[k], ops[k])
    ensures RightLog(log) && SafeLog(log)
  {
    hide Elements, Heap, Distinct, Due, RightLog, Right, SafeLog, Synced, Matches, Periods, RunningTime, Running, Armed;
    hide InUse;
    var q := new TimerQueue(start);
    log := [];
    var i := 0;
    InUseStep(ops, 0);
    while i < |ops|
      invariant 0 <= i <= |ops| && fresh(q) && fresh(q.watch) && fresh(q.heap)
      invariant q.Valid() && q.log == log && q.timers == InUse(ops[..i])
      invariant |log| == i && forall k :: 0 <= k < i ==> Records(log[k], ops[k])
    {
      InUseStep(ops, i);
      match ops[i] {
        case New(id, duration, oneShot, now) =>
          q.NewTimer(id, duration, oneShot, now);
          log := log + [Created(id, now, duration, oneShot)];
        case Delete(id) =>
          q.DeleteTimer(id);
          log := log + [Deleted(id)];
        case Check(t1, t2) =>
          var fired := q.HasTimerExpired(t1, t2);
          log := log + [Checked(t1, t2, fired)];
      }
      i := i + 1;
    }
    SoundClock(ops, log);
    RightLogIsSafe(log);
  }

  /** A timer of one second does not fire 1.2 seconds on: a check missed four tenths of them. */
  method MissedTimeDelays() returns (log: seq<Entry>)
    ensures |log| == 3 && log[0] == Created(0, 0.0, 1.0, true)
    ensures log[1].Checked? && log[1].t1 == 0.5 && log[1].t2 == 0.9
    ensures log[2] == Checked(1.2, 1.2, None)
  {
    hide RightLog, SafeLog, Due;
    var ops := [New(0, 1.0, true, 0.0), Check(0.5, 0.9), Check(1.2, 1.2)];
    assert ops[..0] == [];
    assert InUse([]) == {};
    log := Run(0.0, ops);
    assert Records(log[0], ops[0]) && Records(log[1], ops[1]) && Records(log[2], ops[2]);
    OnlyMissed(log);
  }

  /** A timer of one second fires two and a half seconds on, for two periods. */
  method FiresWhenDue() returns (log: seq<Entry>)
    ensures log == [Created(0, 0.0, 1.0, true), Checked(2.5, 2.5, Some(Firing(0, 2)))]
  {
    hide RightLog, SafeLog, Due;
    var ops := [New(0, 1.0, true, 0.0), Check(2.5, 2.5)];
    assert ops[..0] == [];
    assert InUse([]) == {};
    log := Run(0.0, ops);
    assert Records(log[0], ops[0]) && Records(log[1], ops[1]);
    OnlyDue(log);
  }

  lemma OnlyDue(log: seq<Entry>)
    requires |log| == 2 && RightLog(log) && log[0] == Created(0, 0.0, 1.0, true)
    requires log[1].Checked? && log[1].t1 == 2.5
    ensures log[1].fired == Some(Firing(0, 2))
  {
    hide Due;
    NothingBefore(log);
    assert log[..0] + [log[0]] == log[..1];
    forall id { DueAppend(log[..0], log[0], id); }
    assert Right(log[..1], 2.5, log[1].fired);
    assert Due(log[..1], 0) == Some(Alarm(0.0, 1.0, true, 0.0));
    assert log[1].fired.Some?;
    var f := log[1].fired.value;
    assert f.id == 0;
    Twice(f.count);
  }

  lemma Twice(count: int)
    ensures count as real * 1.0 <= 2.5 < (count + 1) as real * 1.0 ==> count == 2
  {
  }

  lemma OnlyMissed(log: seq<Entry>)
    requires |log| == 3 && RightLog(log) && log[0] == Created(0, 0.0, 1.0, true)
    requires log[1].Checked? && log[1].t1 == 0.5 && log[1].t2 == 0.9
    requires log[2].Checked? && log[2].t1 == 1.2 && log[2].t2 == 1.2
    ensures log[2].fired.None?
  {
    hide Due;
    NothingBefore(log);
    assert log[..0] + [log[0]] == log[..1] && log[..1] + [log[1]] == log[..2];
    forall id { DueAppend(log[..0], log[0], id); }
    assert Right(log[..1], 0.5, log[1].fired);
    forall id { DueAppend(log[..1], log[1], id); }
    assert Right(log[..2], 1.2, log[2].fired);
  }

  lemma NothingBefore(log: seq<Entry>)
    ensures forall id :: Due(log[..0], id).None?
  {
  }
}
