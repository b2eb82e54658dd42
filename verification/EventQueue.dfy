/**
 * EventQueue and SimpleEventQueueBuffer: events are kept in a table under recycled ids and
 * only the ids travel through the buffer.  The whole refines a plain first-in-first-out queue.
 */
module EventQueues {
  import opened Bytes
  import opened Wrappers

  datatype EventType = Unknown | System | Timer | Quit | Ordinary(kind: nat)

  datatype Event = Event(etype: EventType, target: nat, data: nat, immediate: bool)

  const NO_EVENT := Event(Unknown, 0, 0, false)

  ghost predicate NoDuplicates<T>(s: seq<T>) {
    forall i, j :: 0 <= i < j < |s| ==> s[i] != s[j]
  }

  class SimpleEventQueueBuffer {
    var queue: seq<nat>
    var queueReady: bool

    ghost predicate Valid()
      reads this
    {
      queueReady == (queue != [])
    }

    constructor ()
      ensures Valid() && queue == []
    {
      queue, queueReady := [], false;
    }

    predicate IsEmpty()
      reads this
    {
      !queueReady
    }

    method GetEvent() returns (id: Option<nat>)
      requires Valid()
      modifies this
      ensures Valid()
      ensures old(queue) == [] ==> id == None && queue == []
      ensures old(queue) != [] ==> id == Some(old(queue)[|old(queue)| - 1]) && queue == old(queue)[..|old(queue)| - 1]
    {
      if !queueReady {
        return None;
      }
      id := Some(queue[|queue| - 1]);
      queue := queue[..|queue| - 1];
      queueReady := queue != [];
    }

    /** `refuse` is the answer of a platform's buffer; this one on its own never refuses. */
    method AddEvent(id: nat, refuse: bool) returns (ok: bool)
      requires Valid()
      modifies this
      ensures Valid() && ok == !refuse
      ensures queue == if refuse then old(queue) else [id] + old(queue)
    {
      if refuse {
        return false;
      }
      queue := [id] + queue;
      if !queueReady {
        queueReady := true;
      }
      ok := true;
    }
  }

  // ---------------------------------------------------------------- the id discipline

  /** Ids in use and ids to be reused are disjoint and are together exactly the first numbers. */
  ghost predicate IdsPartition(events: map<nat, Event>, oldIDs: seq<nat>) {
    && NoDuplicates(oldIDs)
    && (forall id :: id in oldIDs ==> id !in events)
    && (forall id: nat :: (id in events || id in oldIDs) <==> id < |events| + |oldIDs|)
  }

  function ChooseId(events: map<nat, Event>, oldIDs: seq<nat>): nat {
    if oldIDs != [] then oldIDs[|oldIDs| - 1] else |events| % TWO_TO_THE_32
  }

  /** A new id is free exactly as long as a recycled one is at hand or the 32-bit ids last. */
  lemma ChosenIdIsFree(events: map<nat, Event>, oldIDs: seq<nat>)
    requires IdsPartition(events, oldIDs)
    ensures ChooseId(events, oldIDs) !in events <==> oldIDs != [] || |events| < TWO_TO_THE_32
  {
    if oldIDs != [] {
      assert oldIDs[|oldIDs| - 1] in oldIDs;
    } else {
      assert |events| !in events;
    }
  }

  lemma SaveKeepsPartition(events: map<nat, Event>, oldIDs: seq<nat>, event: Event)
    requires IdsPartition(events, oldIDs) && (oldIDs != [] || |events| < TWO_TO_THE_32)
    ensures var id := ChooseId(events, oldIDs);
            && id !in events
            && IdsPartition(events[id := event], if oldIDs == [] then [] else oldIDs[..|oldIDs| - 1])
  {
    ChosenIdIsFree(events, oldIDs);
    var id := ChooseId(events, oldIDs);
    assert oldIDs == [] ==> id == |events|;
    SaveAtKeepsPartition(events, oldIDs, id, event);
  }

  lemma SaveAtKeepsPartition(events: map<nat, Event>, oldIDs: seq<nat>, id: nat, event: Event)
    requires IdsPartition(events, oldIDs)
    requires if oldIDs == [] then id == |events| else id == oldIDs[|oldIDs| - 1]
    ensures IdsPartition(events[id := event], if oldIDs == [] then [] else oldIDs[..|oldIDs| - 1])
  {
    var events' := events[id := event];
    assert id !in events;
    assert events'.Keys == events.Keys + {id};
    assert |events'| == |events| + 1;
    if oldIDs == [] {
      SaveNew(events, events', id);
    } else {
      SaveRecycled(events, events', oldIDs, id);
    }
  }

  lemma SaveNew(events: map<nat, Event>, events': map<nat, Event>, id: nat)
    requires IdsPartition(events, []) && id == |events|
    requires events'.Keys == events.Keys + {id} && |events'| == |events| + 1
    ensures IdsPartition(events', [])
  {
    forall i: nat ensures i in events' <==> i < |events'| {
      assert i in events' <==> i in events || i == id;
      assert i in events <==> i < |events|;
    }
  }

  lemma LastOrRest(ids: seq<nat>, id: nat)
    requires ids != []
    ensures id in ids <==> id in ids[..|ids| - 1] || id == ids[|ids| - 1]
  {
    assert ids == ids[..|ids| - 1] + [ids[|ids| - 1]];
  }

  lemma SaveRecycled(events: map<nat, Event>, events': map<nat, Event>, oldIDs: seq<nat>, id: nat)
    requires IdsPartition(events, oldIDs) && oldIDs != [] && id == oldIDs[|oldIDs| - 1]
    requires events'.Keys == events.Keys + {id} && |events'| == |events| + 1
    ensures IdsPartition(events', oldIDs[..|oldIDs| - 1])
  {
    var rest := oldIDs[..|oldIDs| - 1];
    assert NoDuplicates(rest) && id !in rest;
    forall i: nat
      ensures (i in events' || i in rest) <==> i < |events'| + |rest|
      ensures i in rest ==> i !in events'
    {
      LastOrRest(oldIDs, i);
      assert i in events' <==> i in events || i == id;
    }
  }

  lemma RemoveKeepsPartition(events: map<nat, Event>, oldIDs: seq<nat>, id: nat)
    requires IdsPartition(events, oldIDs) && id in events
    ensures IdsPartition(events - {id}, oldIDs + [id])
  {
    var events' := events - {id};
    assert events'.Keys == events.Keys - {id};
    assert |events'| == |events| - 1;
  }

  // ---------------------------------------------------------------- the abstract queue

  /** The events waiting in the buffer, oldest first: the buffer is filled in front. */
  ghost function Waiting(events: map<nat, Event>, queue: seq<nat>): (r: seq<Event>)
    requires forall id :: id in queue ==> id in events
    ensures |r| == |queue|
  {
    seq(|queue|, i requires 0 <= i < |queue| => events[queue[|queue| - 1 - i]])
  }

  lemma WaitingPush(events: map<nat, Event>, queue: seq<nat>, id: nat, event: Event)
    requires forall i :: i in queue ==> i in events
    requires id !in events
    ensures forall i :: i in [id] + queue ==> i in events[id := event]
    ensures Waiting(events[id := event], [id] + queue) == Waiting(events, queue) + [event]
    ensures Waiting(events[id := event], queue) == Waiting(events, queue)
    ensures Waiting(events[id := event] - {id}, queue) == Waiting(events, queue)
  {
  }

  lemma WaitingPop(events: map<nat, Event>, queue: seq<nat>)
    requires forall i :: i in queue ==> i in events
    requires queue != [] && NoDuplicates(queue)
    ensures var id, rest := queue[|queue| - 1], queue[..|queue| - 1];
            && (forall i :: i in rest ==> i in events - {id})
            && Waiting(events, queue) == [events[id]] + Waiting(events - {id}, rest)
  {
  }

  lemma PopKeepsIndex(events: map<nat, Event>, queue: seq<nat>)
    requires queue != [] && NoDuplicates(queue) && forall id :: id in queue <==> id in events
    ensures var last, init := queue[|queue| - 1], queue[..|queue| - 1];
            NoDuplicates(init) && forall id :: id in init <==> id in events - {last}
  {
    var last, init := queue[|queue| - 1], queue[..|queue| - 1];
    forall id ensures id in init <==> id in events - {last} {
      LastOrRest(queue, id);
    }
  }

  class EventQueue {
    var buffer: SimpleEventQueueBuffer
    var events: map<nat, Event>
    var oldIDs: seq<nat>
    var isReady: bool
    var pending: seq<Event>
    var dispatched: seq<Event>      // events delivered at once, without queueing

    /** The buffer holds each live id once. */
    ghost predicate Indexed()
      reads this, buffer
    {
      && buffer.Valid()
      && IdsPartition(events, oldIDs)
      && NoDuplicates(buffer.queue)
      && (forall id :: id in buffer.queue <==> id in events)
    }

    ghost predicate Valid()
      reads this, buffer
    {
      Indexed() && (isReady ==> pending == [])
    }

    /** What is in the buffer, oldest first. */
    ghost function Contents(): seq<Event>
      requires Indexed()
      reads this, buffer
    {
      Waiting(events, buffer.queue)
    }

    constructor ()
      ensures Valid() && fresh(buffer) && Contents() == [] && pending == [] && !isReady && dispatched == []
      ensures events == map[]
    {
      buffer := new SimpleEventQueueBuffer();
      events, oldIDs, isReady, pending, dispatched := map[], [], false, [], [];
    }

    method SaveEvent(event: Event) returns (id: nat)
      requires IdsPartition(events, oldIDs)
      modifies this`events, this`oldIDs
      ensures events == old(events)[id := event]
      ensures id !in old(events) <==> old(oldIDs != [] || |events| < TWO_TO_THE_32)
      ensures id !in old(events) ==> IdsPartition(events, oldIDs)
    {
      ChosenIdIsFree(events, oldIDs);
      if oldIDs != [] || |events| < TWO_TO_THE_32 {
        SaveKeepsPartition(events, oldIDs, event);
      }
      if oldIDs != [] {
        id := oldIDs[|oldIDs| - 1];
        oldIDs := oldIDs[..|oldIDs| - 1];
      } else {
        id := |events| % TWO_TO_THE_32;
      }
      events := events[id := event];
    }

    method RemoveEvent(id: nat) returns (event: Event)
      requires IdsPartition(events, oldIDs)
      modifies this`events, this`oldIDs
      ensures IdsPartition(events, oldIDs)
      ensures if id in old(events) then event == old(events)[id] && events == old(events) - {id}
              else event == NO_EVENT && events == old(events)
    {
      if id !in events {
        return NO_EVENT;
      }
      RemoveKeepsPartition(events, oldIDs, id);
      event := events[id];
      events := events - {id};
      oldIDs := oldIDs + [id];
    }

    method AddEventToBuffer(event: Event, refuse: bool)
      requires Indexed() && (oldIDs != [] || |events| < TWO_TO_THE_32)
      modifies this`events, this`oldIDs, buffer
      ensures Indexed()
      ensures Contents() == old(Contents()) + if refuse then [] else [event]
    {
      hide IdsPartition, Waiting;
      ghost var queue0 := buffer.queue;
      var id := SaveEvent(event);
      WaitingPush(old(events), queue0, id, event);
      assert id !in queue0;
      var accepted := buffer.AddEvent(id, refuse);
      if !accepted {
        var _ := RemoveEvent(id);
        assert events == old(events);
      }
    }

    /** The oldest event in the buffer, if there is one. */
    method GetEvent() returns (event: Option<Event>)
      requires Valid()
      modifies this`events, this`oldIDs, buffer
      ensures Valid()
      ensures old(Contents()) == [] ==> event == None && Contents() == []
      ensures old(Contents()) != [] ==> event == Some(old(Contents())[0]) && Contents() == old(Contents())[1..]
    {
      hide IdsPartition, Waiting, NoDuplicates;
      if buffer.IsEmpty() {
        return None;
      }
      ghost var queue0 := buffer.queue;
      WaitingPop(events, queue0);
      assert queue0[|queue0| - 1] in queue0;
      var id := buffer.GetEvent();
      var found := RemoveEvent(id.value);
      PopKeepsIndex(old(events), queue0);
      event := Some(found);
    }

    method AddEvent(event: Event, refuse: bool)
      requires Valid() && (oldIDs != [] || |events| < TWO_TO_THE_32)
      modifies this`events, this`oldIDs, this`pending, this`dispatched, buffer
      ensures Valid()
      ensures Contents() == old(Contents()) + if Queued(event) && isReady && !refuse then [event] else []
      ensures pending == old(pending) + if Queued(event) && !isReady then [event] else []
      ensures dispatched == old(dispatched) + if !Bogus(event) && event.immediate then [event] else []
      ensures event.etype.Unknown? || event.etype.System? || event.etype.Timer? ==>
                Contents() == old(Contents()) && pending == old(pending) && dispatched == old(dispatched)
      ensures event.etype.Quit? || event.etype.Ordinary? ==>
                && dispatched == old(dispatched) + (if event.immediate then [event] else [])
                && pending == old(pending) + (if !event.immediate && !isReady then [event] else [])
                && Contents() == old(Contents()) + if !event.immediate && isReady && !refuse then [event] else []
    {
      if Bogus(event) {
        return;
      }
      if event.immediate {
        dispatched := dispatched + [event];
      } else if !isReady {
        pending := pending + [event];
      } else {
        AddEventToBuffer(event, refuse);
      }
    }

    /** There are as many entries in the table as events in the buffer. */
    lemma Live()
      requires Indexed()
      ensures |events| == |Contents()|
    {
      OnePerId(events.Keys, buffer.queue);
    }

    /** The start of the event loop: what was added before it is now queued. */
    method BeginLoop(refuses: nat -> bool)
      requires Valid() && |Contents()| + |pending| <= TWO_TO_THE_32
      modifies this`isReady, this`pending, this`events, this`oldIDs, buffer
      ensures Valid() && isReady && pending == []
      ensures Contents() == old(Contents()) + Accepted(old(pending), refuses)
    {
      hide IdsPartition, Waiting, Accepted;
      ghost var waiting := pending;
      isReady := true;
      var done := 0;
      AcceptedStep(waiting, 0, refuses);
      while pending != []
        invariant 0 <= done <= |waiting| && pending == waiting[done..]
        invariant Indexed() && buffer == old(buffer) && isReady
        invariant |Contents()| + |pending| <= TWO_TO_THE_32
        invariant Contents() == old(Contents()) + Accepted(waiting[..done], refuses)
        decreases |pending|
      {
        Live();
        AcceptedStep(waiting, done, refuses);
        AddEventToBuffer(pending[0], refuses(done));
        done := done + 1;
        pending := pending[1..];
      }
      assert waiting[..done] == waiting;
    }

    /** Adopting a new buffer discards what was queued. */
    method SetBuffer()
      requires Valid()
      modifies this`buffer, this`events, this`oldIDs
      ensures Valid() && fresh(buffer) && Contents() == [] && events == map[]
    {
      events := map[];
      oldIDs := [];
      buffer := new SimpleEventQueueBuffer();
    }
  }

  /** Types that are not accepted from outside. */
  predicate Bogus(event: Event) {
    event.etype == Unknown || event.etype == System || event.etype == Timer
  }

  predicate Queued(event: Event) {
    !Bogus(event) && !event.immediate
  }

  /** The events that a buffer takes, given by number which ones it refuses. */
  ghost function Accepted(events: seq<Event>, refuses: nat -> bool): (r: seq<Event>)
    ensures |r| <= |events|
  {
    if events == [] then []
    else
      var n := |events| - 1;
      Accepted(events[..n], refuses) + if refuses(n) then [] else [events[n]]
  }

  lemma AcceptedStep(events: seq<Event>, n: nat, refuses: nat -> bool)
    requires n <= |events|
    ensures Accepted(events[..0], refuses) == []
    ensures n < |events| ==>
              Accepted(events[..n + 1], refuses)
              == Accepted(events[..n], refuses) + if refuses(n) then [] else [events[n]]
  {
    if n < |events| {
      assert events[..n + 1][..n] == events[..n];
    }
  }

  lemma {:induction false} OnePerId(ids: set<nat>, queue: seq<nat>)
    requires NoDuplicates(queue) && forall id :: id in queue <==> id in ids
    ensures |ids| == |queue|
  {
    if queue == [] {
      assert ids == {};
    } else {
      var init, last := queue[..|queue| - 1], queue[|queue| - 1];
      forall id ensures id in init <==> id in ids - {last} {
        LastOrRest(queue, id);
      }
      OnePerId(ids - {last}, init);
      assert last in queue;
    }
  }

  // ---------------------------------------------------------------- whole runs

  /** The answers of the buffer, true for a refusal, come with the operation. */
  datatype Op = Add(event: Event, refuse: bool) | Get | Begin(refuses: nat -> bool) | Adopt

  /**
   * The plain queue: events added before the loop begins wait behind a gate.  What is queued when
   * a buffer is replaced is discarded.
   */
  datatype Fifo = Fifo(open: bool, queue: seq<Event>, gate: seq<Event>, delivered: seq<Event>, atOnce: seq<Event>,
                       discarded: seq<Event>)

  const EMPTY := Fifo(false, [], [], [], [], [])

  ghost function Next(f: Fifo, op: Op): Fifo {
    match op
    case Add(event, refuse) =>
      if Bogus(event) then f
      else if event.immediate then f.(atOnce := f.atOnce + [event])
      else if !f.open then f.(gate := f.gate + [event])
      else if refuse then f
      else f.(queue := f.queue + [event])
    case Get =>
      if f.queue == [] then f else f.(queue := f.queue[1..], delivered := f.delivered + [f.queue[0]])
    case Begin(refuses) => f.(open := true, queue := f.queue + Accepted(f.gate, refuses), gate := [])
    case Adopt => f.(queue := [], discarded := f.discarded + f.queue)
  }

  ghost function Runs(ops: seq<Op>): Fifo {
    if ops == [] then EMPTY else Next(Runs(ops[..|ops| - 1]), ops[|ops| - 1])
  }

  lemma RunsStep(ops: seq<Op>, i: nat)
    requires i <= |ops|
    ensures Runs(ops[..0]) == EMPTY
    ensures i < |ops| ==> Runs(ops[..i + 1]) == Next(Runs(ops[..i]), ops[i])
  {
    if i < |ops| {
      assert ops[..i + 1][..i] == ops[..i];
    }
  }

  // ---------------------------------------------------------------- what is accepted

  /** The loop has begun. */
  ghost predicate Begun(ops: seq<Op>) {
    exists i :: 0 <= i < |ops| && ops[i].Begin?
  }

  /** The events that are to be queued, in the order they were added; `unless` leaves out the refused ones. */
  ghost function Added(ops: seq<Op>, unless: bool): seq<Event> {
    if ops == [] then [] else Added(ops[..|ops| - 1], unless) + New(ops[|ops| - 1], unless)
  }

  ghost function New(op: Op, unless: bool): seq<Event> {
    if op.Add? && Deliverable(op.event.etype) && !op.event.immediate && !(unless && op.refuse) then [op.event] else []
  }

  /** Types that are accepted from outside. */
  predicate Deliverable(etype: EventType) {
    match etype
    case Unknown => false
    case System => false
    case Timer => false
    case Quit => true
    case Ordinary(_) => true
  }

  /** The events that are to be delivered at once. */
  ghost function Immediate(ops: seq<Op>): seq<Event> {
    if ops == [] then []
    else
      var op := ops[|ops| - 1];
      Immediate(ops[..|ops| - 1]) +
      if op.Add? && Deliverable(op.event.etype) && op.event.immediate then [op.event] else []
  }

  /**
   * The added events less the refused ones, by the operations alone: what was added before the
   * loop began is refused or not when it begins, what is added later at once.
   */
  ghost function Survivors(ops: seq<Op>): seq<Event> {
    if !Begun(ops) then Added(ops, false)
    else
      var b := FirstBegin(ops);
      Accepted(Added(ops[..b], false), ops[b].refuses) + Added(ops[b + 1..], true)
  }

  ghost function FirstBegin(ops: seq<Op>): (b: nat)
    requires Begun(ops)
    ensures b < |ops| && ops[b].Begin? && forall i :: 0 <= i < b ==> !ops[i].Begin?
  {
    if ops[0].Begin? then 0 else
      assert exists i :: 0 <= i < |ops[1..]| && ops[1..][i].Begin? by {
        var i :| 0 <= i < |ops| && ops[i].Begin?;
        assert ops[1..][i - 1] == ops[i];
      }
      1 + FirstBegin(ops[1..])
  }

  lemma AddedStep(ops: seq<Op>, op: Op, unless: bool)
    ensures Added(ops + [op], unless) == Added(ops, unless) + New(op, unless)
  {
    assert (ops + [op])[..|ops|] == ops;
  }

  lemma BeginIsThere(ops: seq<Op>)
    requires Begun(ops)
    ensures var b := FirstBegin(ops); b < |ops| && ops[b].Begin? && forall i :: 0 <= i < b ==> !ops[i].Begin?
  {
  }

  lemma FirstBeginIs(ops: seq<Op>, b: nat)
    requires b < |ops| && ops[b].Begin? && forall i :: 0 <= i < b ==> !ops[i].Begin?
    ensures Begun(ops) && FirstBegin(ops) == b
  {
  }

  lemma BegunStep(ops: seq<Op>, op: Op)
    ensures Begun(ops + [op]) <==> Begun(ops) || op.Begin?
  {
    var longer := ops + [op];
    assert forall i :: 0 <= i < |ops| ==> longer[i] == ops[i];
    assert longer[|ops|] == op;
    if Begun(ops) {
      var i :| 0 <= i < |ops| && ops[i].Begin?;
      assert longer[i].Begin?;
    }
  }

  lemma SurvivorsAfterBegin(ops: seq<Op>, op: Op)
    requires Begun(ops)
    ensures Survivors(ops + [op]) == Survivors(ops) + New(op, true)
  {
    hide Added, New, Accepted, FirstBegin;
    BeginIsThere(ops);
    var longer, b := ops + [op], FirstBegin(ops);
    assert forall i :: 0 <= i <= b ==> longer[i] == ops[i];
    FirstBeginIs(longer, b);
    assert longer[..b] == ops[..b] && longer[b + 1..] == ops[b + 1..] + [op];
    AddedStep(ops[b + 1..], op, true);
    Regroup(Accepted(Added(ops[..b], false), ops[b].refuses), Added(ops[b + 1..], true), New(op, true), []);
  }

  lemma SurvivorsAtBegin(ops: seq<Op>, op: Op)
    requires !Begun(ops) && op.Begin?
    ensures Survivors(ops + [op]) == Accepted(Survivors(ops), op.refuses)
  {
    hide New, Accepted;
    var longer := ops + [op];
    FirstBeginIs(longer, |ops|);
    assert longer[..|ops|] == ops && longer[|ops| + 1..] == [];
    assert Added([], true) == [];
  }

  /** How the surviving events grow, one operation at a time. */
  lemma SurvivorsStep(ops: seq<Op>, op: Op)
    ensures Begun(ops + [op]) <==> Begun(ops) || op.Begin?
    ensures Survivors(ops + [op]) ==
            if Begun(ops) then Survivors(ops) + New(op, true)
            else if op.Begin? then Accepted(Survivors(ops), op.refuses)
            else Survivors(ops) + New(op, false)
  {
    hide Added, New, Accepted;
    BegunStep(ops, op);
    if Begun(ops) {
      SurvivorsAfterBegin(ops, op);
    } else if op.Begin? {
      SurvivorsAtBegin(ops, op);
    } else {
      AddedStep(ops, op, false);
    }
  }

  // ---------------------------------------------------------------- order and conservation

  /** One sequence is another with some elements left out. */
  ghost predicate Subsequence<T>(a: seq<T>, b: seq<T>) {
    a == [] || (b != [] && (Subsequence(a, b[..|b| - 1])
                            || (a[|a| - 1] == b[|b| - 1] && Subsequence(a[..|a| - 1], b[..|b| - 1]))))
  }

  lemma {:induction false} SubsequenceOfSelf<T>(a: seq<T>)
    ensures Subsequence(a, a)
  {
    if a != [] {
      SubsequenceOfSelf(a[..|a| - 1]);
    }
  }

  lemma SubsequenceAppend<T>(a: seq<T>, b: seq<T>, x: T)
    requires Subsequence(a, b)
    ensures Subsequence(a + [x], b + [x]) && Subsequence(a, b + [x])
  {
    assert (a + [x])[..|a|] == a && (b + [x])[..|b|] == b;
  }

  /** Leaving out the last elements. */
  lemma {:induction false} SubsequenceInit<T>(a: seq<T>, b: seq<T>)
    requires a != [] && Subsequence(a, b)
    ensures Subsequence(a[..|a| - 1], b)
  {
    if Subsequence(a, b[..|b| - 1]) {
      SubsequenceInit(a, b[..|b| - 1]);
    }
  }

  lemma {:induction false} SubsequencePrefix<T>(a: seq<T>, c: seq<T>, b: seq<T>)
    requires Subsequence(a + c, b)
    ensures Subsequence(a, b)
  {
    if c == [] {
      assert a + c == a;
    } else {
      SubsequenceInit(a + c, b);
      assert (a + c)[..|a + c| - 1] == a + c[..|c| - 1];
      SubsequencePrefix(a, c[..|c| - 1], b);
    }
  }

  /**
   * What was delivered, then what is queued, then what waits for the loop, is `survivors`, in
   * that order; what was discarded is all that is missing.
   */
  ghost predicate Accounts(f: Fifo, survivors: seq<Event>) {
    && Subsequence(f.delivered + f.queue + f.gate, survivors)
    && multiset(f.discarded) + multiset(f.delivered + f.queue + f.gate) == multiset(survivors)
    && (f.discarded == [] ==> f.delivered + f.queue + f.gate == survivors)
    && (f.open ==> f.gate == [])
    && (!f.open ==> f.queue == [] && f.delivered == [] && f.discarded == [])
  }

  lemma Regroup<T>(a: seq<T>, b: seq<T>, c: seq<T>, d: seq<T>)
    ensures a + (b + c) + d == a + b + c + d == a + b + (c + d)
    ensures a + (b + c) == a + b + c
    ensures d == [] ==> a + b + d + c == a + b + c + d
  {
  }

  /** One operation, with the events that survive it. */
  ghost function Grown(open: bool, survivors: seq<Event>, op: Op): seq<Event> {
    if open then survivors + New(op, true)
    else if op.Begin? then Accepted(survivors, op.refuses)
    else survivors + New(op, false)
  }

  lemma OneMoreEvent(discarded: seq<Event>, all: seq<Event>, all': seq<Event>, survivors: seq<Event>, event: Event)
    requires multiset(discarded) + multiset(all) == multiset(survivors) && all' == all + [event]
    requires (discarded == [] ==> all == survivors) && Subsequence(all, survivors)
    ensures multiset(discarded) + multiset(all') == multiset(survivors + [event])
    ensures (discarded == [] ==> all' == survivors + [event]) && Subsequence(all', survivors + [event])
  {
    SubsequenceAppend(all, survivors, event);
    hide Subsequence;
    assert multiset(all') == multiset(all) + multiset{event};
    assert multiset(survivors + [event]) == multiset(survivors) + multiset{event};
  }

  lemma AddAccounts(f: Fifo, event: Event, refuse: bool, survivors: seq<Event>)
    requires Accounts(f, survivors)
    ensures Accounts(Next(f, Add(event, refuse)), Grown(f.open, survivors, Add(event, refuse)))
  {
    hide Subsequence;
    var op := Add(event, refuse);
    var f', all := Next(f, op), f.delivered + f.queue + f.gate;
    if !Queued(event) || (f.open && refuse) {
      assert New(op, f.open) == [];
      assert survivors + [] == survivors;
    } else {
      hide Bogus;
      assert New(op, f.open) == [event];
      if f.open {
        assert f'.queue == f.queue + [event] && f'.gate == [];
        Regroup(f.delivered, f.queue, [event], []);
      } else {
        assert f'.gate == f.gate + [event];
        Regroup(f.delivered, f.queue, f.gate, [event]);
      }
      OneMoreEvent(f.discarded, all, f'.delivered + f'.queue + f'.gate, survivors, event);
    }
  }

  lemma GetAccounts(f: Fifo, survivors: seq<Event>)
    requires Accounts(f, survivors)
    ensures Accounts(Next(f, Get), Grown(f.open, survivors, Get))
  {
    hide Accepted, Bogus;
    assert survivors + [] == survivors;
    if f.queue != [] {
      assert f.queue == [f.queue[0]] + f.queue[1..];
      Regroup(f.delivered, [f.queue[0]], f.queue[1..], f.gate);
    }
  }

  lemma BeginAccounts(f: Fifo, refuses: nat -> bool, survivors: seq<Event>)
    requires Accounts(f, survivors)
    ensures Accounts(Next(f, Begin(refuses)), Grown(f.open, survivors, Begin(refuses)))
  {
    hide Bogus;
    assert survivors + [] == survivors;
    if f.open {
      assert Accepted(f.gate, refuses) == [];
      assert f.queue + [] == f.queue;
    } else {
      assert survivors == f.gate;
      hide Accepted;
      var accepted := Accepted(f.gate, refuses);
      assert [] + ([] + accepted) + [] == accepted;
      SubsequenceOfSelf(accepted);
    }
  }

  lemma DiscardedIsMissing(f: Fifo, survivors: seq<Event>)
    requires multiset(f.discarded) + multiset(f.delivered + f.queue + f.gate) == multiset(survivors)
    ensures multiset(f.discarded + f.queue) + multiset(f.delivered + [] + f.gate) == multiset(survivors)
  {
    assert multiset(f.discarded + f.queue) == multiset(f.discarded) + multiset(f.queue);
    assert multiset(f.delivered + f.queue + f.gate)
        == multiset(f.delivered) + multiset(f.queue) + multiset(f.gate);
    assert multiset(f.delivered + [] + f.gate) == multiset(f.delivered) + multiset(f.gate);
  }

  lemma AdoptAccounts(f: Fifo, survivors: seq<Event>)
    requires Accounts(f, survivors)
    ensures Accounts(Next(f, Adopt), Grown(f.open, survivors, Adopt))
  {
    hide Accepted, Bogus, Subsequence;
    assert survivors + [] == survivors;
    DiscardedIsMissing(f, survivors);
    var all := f.delivered + f.queue + f.gate;
    if f.open {
      assert all == f.delivered + f.queue && f.delivered + [] + f.gate == f.delivered;
      SubsequencePrefix(f.delivered, f.queue, survivors);
    } else {
      assert f.delivered + [] + f.gate == all;
    }
    assert f.discarded + f.queue == [] ==> f.queue == [] && f.discarded == [];
  }

  lemma NextAccounts(f: Fifo, op: Op, survivors: seq<Event>)
    requires Accounts(f, survivors)
    ensures Accounts(Next(f, op), Grown(f.open, survivors, op))
  {
    hide Accepted, Bogus;
    match op
    case Add(event, refuse) => AddAccounts(f, event, refuse, survivors);
    case Get => GetAccounts(f, survivors);
    case Begin(refuses) => BeginAccounts(f, refuses, survivors);
    case Adopt => AdoptAccounts(f, survivors);
  }

  /**
   * Exactly once and in order, over every run: what was delivered, what is queued and what waits
   * for the loop are the added events less the refused ones, in the order they were added; what
   * a replaced buffer discarded is all that can be missing.
   */
  lemma {:induction false} FirstInFirstOut(ops: seq<Op>)
    ensures Accounts(Runs(ops), Survivors(ops))
    ensures Runs(ops).open == Begun(ops)
    ensures Adopt !in ops ==> Runs(ops).discarded == []
    ensures Runs(ops).atOnce == Immediate(ops)
  {
    if ops == [] {
      assert Added([], false) == [];
    } else {
      hide Next, Accounts, Survivors, Accepted, New, Begun;
      var init, last := ops[..|ops| - 1], ops[|ops| - 1];
      assert ops == init + [last];
      FirstInFirstOut(init);
      SurvivorsStep(init, last);
      NextAccounts(Runs(init), last, Survivors(init));
      NextKeeps(Runs(init), last);
    }
  }

  lemma NextKeeps(f: Fifo, op: Op)
    ensures Next(f, op).open == (f.open || op.Begin?)
    ensures !op.Adopt? ==> Next(f, op).discarded == f.discarded
    ensures Next(f, op).atOnce
            == f.atOnce + if op.Add? && Deliverable(op.event.etype) && op.event.immediate then [op.event] else []
  {
    hide Accepted;
    assert f.atOnce + [] == f.atOnce;
  }

  ghost function Gets(n: nat): seq<Op> {
    seq(n, _ => Get)
  }

  lemma {:induction false} GetsDeliver(ops: seq<Op>, n: nat)
    requires n <= |Runs(ops).queue|
    ensures var f := Runs(ops);
            Runs(ops + Gets(n)) == f.(queue := f.queue[n..], delivered := f.delivered + f.queue[..n])
  {
    hide Runs;
    var f := Runs(ops);
    if n == 0 {
      assert ops + Gets(0) == ops && f.queue[0..] == f.queue && f.delivered + f.queue[..0] == f.delivered;
    } else {
      GetsDeliver(ops, n - 1);
      var longer := ops + Gets(n);
      RunsStep(longer, |longer| - 1);
      assert longer[..|longer| - 1] == ops + Gets(n - 1) && longer[|longer| - 1] == Get && longer[..|longer|] == longer;
      assert f.queue[n - 1..][1..] == f.queue[n..];
      assert f.delivered + f.queue[..n - 1] + [f.queue[n - 1]] == f.delivered + f.queue[..n];
    }
  }

  /**
   * Everything that is accepted is delivered: once the loop has begun, as many gets as events
   * wait deliver all of them, in the order they were added.
   */
  lemma AllDelivered(ops: seq<Op>)
    requires Begun(ops) && Adopt !in ops
    ensures Runs(ops + Gets(|Runs(ops).queue|)).delivered == Survivors(ops)
  {
    hide Runs, Survivors, Begun, Subsequence;
    FirstInFirstOut(ops);
    var f := Runs(ops);
    GetsDeliver(ops, |f.queue|);
    assert f.queue[..|f.queue|] == f.queue && f.delivered + f.queue + [] == f.delivered + f.queue;
  }

  /** A new buffer starts empty, and what was queued is discarded; what waits for the loop is not. */
  lemma AdoptDiscards(ops: seq<Op>)
    ensures var f := Runs(ops);
            Runs(ops + [Adopt]) == f.(queue := [], discarded := f.discarded + f.queue)
  {
    assert (ops + [Adopt])[..|ops|] == ops;
  }

  /** Which pending events a buffer takes: each is judged by its own number. */
  lemma {:induction false} AcceptedPlus(a: seq<Event>, b: seq<Event>, refuses: nat -> bool, later: nat -> bool)
    requires forall i: nat :: later(i) == refuses(|a| + i)
    ensures Accepted(a + b, refuses) == Accepted(a, refuses) + Accepted(b, later)
  {
    hide Accepted;
    if b == [] {
      assert a + b == a;
      AcceptedStep(b, 0, later);
      assert b[..0] == b;
    } else {
      var init, last, all := b[..|b| - 1], b[|b| - 1], a + b;
      AcceptedPlus(a, init, refuses, later);
      assert all[..|all| - 1] == a + init && all[..|all|] == all && b[..|b|] == b;
      AcceptedStep(all, |all| - 1, refuses);
      AcceptedStep(b, |b| - 1, later);
    }
  }

  /** One event is taken exactly if it is not refused. */
  lemma AcceptedOne(event: Event, refuses: nat -> bool)
    ensures Accepted([event], refuses) == if refuses(0) then [] else [event]
  {
    assert [event][..0] == [];
  }

  lemma DeliveredInOrder(ops: seq<Op>)
    ensures Runs(ops).atOnce == Immediate(ops)
    ensures Adopt !in ops ==> Runs(ops).delivered <= Survivors(ops)
    ensures Subsequence(Runs(ops).delivered, Survivors(ops))
  {
    hide Runs, Survivors, Subsequence;
    FirstInFirstOut(ops);
    var f := Runs(ops);
    assert f.delivered + f.queue + f.gate == f.delivered + (f.queue + f.gate);
    SubsequencePrefix(f.delivered, f.queue + f.gate, Survivors(ops));
  }

  /** The 32-bit ids last: there are never more events waiting than ids. */
  ghost predicate Roomy(ops: seq<Op>) {
    forall i :: 0 <= i < |ops| ==> |Runs(ops[..i]).queue| + |Runs(ops[..i]).gate| < TWO_TO_THE_32
  }

  /** The indexed queue refines the plain one over every run for which the 32-bit ids suffice. */
  method Run(ops: seq<Op>) returns (delivered: seq<Event>, atOnce: seq<Event>)
    requires Roomy(ops)
    ensures delivered == Runs(ops).delivered && atOnce == Runs(ops).atOnce == Immediate(ops)
    ensures Adopt !in ops ==> delivered <= Survivors(ops)
    ensures Subsequence(delivered, Survivors(ops))
  {
    hide IdsPartition, Waiting, Runs, Accepted;
    var q := new EventQueue();
    delivered := [];
    ghost var discarded: seq<Event> := [];
    var i := 0;
    RunsStep(ops, 0);
    while i < |ops|
      invariant 0 <= i <= |ops| && fresh(q) && fresh(q.buffer) && q.Valid()
      invariant Runs(ops[..i]) == Fifo(q.isReady, q.Contents(), q.pending, delivered, q.dispatched, discarded)
    {
      RunsStep(ops, i);
      q.Live();
      match ops[i] {
        case Add(event, refuse) =>
          q.AddEvent(event, refuse);
        case Get =>
          var event := q.GetEvent();
          delivered := delivered + if event.Some? then [event.value] else [];
        case Begin(refuses) =>
          q.BeginLoop(refuses);
        case Adopt =>
          discarded := discarded + q.Contents();
          q.SetBuffer();
      }
      i := i + 1;
    }
    assert ops[..i] == ops;
    atOnce := q.dispatched;
    DeliveredInOrder(ops);
  }
}
