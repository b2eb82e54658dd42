/**
 * PriorityQueue as the event queue uses it: a binary heap of timers, least remaining time in
 * front, whose elements can be changed through its iterators.
 */
module PriorityQueues {

  /** A timer: its period, and the time remaining when the stopwatch was last reset. */
  datatype Timer = Timer(id: nat, timeout: real, oneShot: bool, time: real)

  ghost function Elements(c: seq<Timer>): set<Timer> {
    set t | t in c
  }

  /** The timers with the same time taken off each. */
  ghost function Less(timers: set<Timer>, dt: real): set<Timer> {
    set t | t in timers :: t.(time := t.time - dt)
  }

  ghost predicate Distinct(c: seq<Timer>) {
    forall i, j :: 0 <= i < j < |c| ==> c[i].id != c[j].id
  }

  function Parent(k: int): int {
    (k - 1) / 2
  }

  ghost predicate Ordered(c: seq<Timer>, k: int)
    requires 0 < k < |c|
  {
    c[Parent(k)].time <= c[k].time
  }

  /** Heap order for every element whose parent is at `lo` or after it. */
  ghost predicate HeapFrom(c: seq<Timer>, lo: int) {
    forall k :: 0 < k < |c| && lo <= Parent(k) ==> Ordered(c, k)
  }

  ghost predicate Heap(c: seq<Timer>) {
    forall k :: 0 < k < |c| ==> Ordered(c, k)
  }

  /** The same, except for the children of `hole`, which are not below the hole's own parent. */
  ghost predicate HeapBelowHole(c: seq<Timer>, lo: int, hole: int) {
    && (forall k :: 0 < k < |c| && lo <= Parent(k) && Parent(k) != hole ==> Ordered(c, k))
    && (0 < hole < |c| && lo <= Parent(hole) ==>
          forall k :: 0 < k < |c| && Parent(k) == hole ==> c[Parent(hole)].time <= c[k].time)
  }

  /** The same, except for `hole`, whose children are not below its parent. */
  ghost predicate HeapAboveHole(c: seq<Timer>, hole: int) {
    && (forall k :: 0 < k < |c| && k != hole ==> Ordered(c, k))
    && (0 < hole < |c| ==>
          forall k :: 0 < k < |c| && Parent(k) == hole ==> c[Parent(hole)].time <= c[k].time)
  }

  /** The front of a heap is its least element. */
  lemma {:induction false} FrontIsLeast(c: seq<Timer>, k: nat)
    requires Heap(c) && k < |c|
    ensures c[0].time <= c[k].time
  {
    if k > 0 {
      assert Ordered(c, k);
      FrontIsLeast(c, Parent(k));
    }
  }

  /** Taking the same time off every element preserves the order of the heap. */
  lemma UniformCountdown(c: seq<Timer>, d: seq<Timer>, dt: real)
    requires Heap(c) && |d| == |c|
    requires forall k :: 0 <= k < |c| ==> d[k] == c[k].(time := c[k].time - dt)
    ensures Heap(d)
  {
    forall k | 0 < k < |d| ensures Ordered(d, k) {
      assert Ordered(c, k);
    }
  }

  lemma SiftDownStep(c: seq<Timer>, lo: nat, i: nat, child: nat)
    requires lo <= i < |c| && 0 < child < |c| && Parent(child) == i
    requires HeapBelowHole(c, lo, i)
    requires forall k :: 0 < k < |c| && Parent(k) == i ==> c[child].time <= c[k].time
    requires c[child].time < c[i].time
    ensures HeapBelowHole(Swap(c, i, child), lo, child)
  {
    var d := Swap(c, i, child);
    assert i < child;
    forall k | 0 < k < |d| && lo <= Parent(k) && Parent(k) != child ensures Ordered(d, k) {
      if Parent(k) != i && k != i {
        assert Ordered(c, k);
      }
    }
    forall k | 0 < k < |d| && Parent(k) == child ensures d[Parent(child)].time <= d[k].time {
      assert Ordered(c, k);
    }
  }

  lemma SiftUpStep(c: seq<Timer>, i: nat)
    requires 0 < i < |c|
    requires HeapAboveHole(c, i)
    requires c[i].time < c[Parent(i)].time
    ensures HeapAboveHole(Swap(c, i, Parent(i)), Parent(i))
  {
    var p := Parent(i);
    var d := Swap(c, i, p);
    forall k | 0 < k < |d| && k != p ensures Ordered(d, k) {
      if k != i {
        assert Ordered(c, k);
      }
    }
    if 0 < p {
      assert Ordered(c, p);
      forall k | 0 < k < |d| && Parent(k) == p ensures d[Parent(p)].time <= d[k].time {
        assert k != i ==> Ordered(c, k);
      }
    }
  }

  function Swap(c: seq<Timer>, i: nat, j: nat): (d: seq<Timer>)
    requires i < |c| && j < |c|
    ensures |d| == |c|
  {
    c[i := c[j]][j := c[i]]
  }

  lemma SwapKeeps(c: seq<Timer>, i: nat, j: nat)
    requires i < |c| && j < |c| && Distinct(c)
    ensures Distinct(Swap(c, i, j)) && Elements(Swap(c, i, j)) == Elements(c)
  {
    var d := Swap(c, i, j);
    assert d[i] == c[j] && d[j] == c[i];
    forall t | t in c ensures t in d {
      var k :| 0 <= k < |c| && c[k] == t;
      assert k != i && k != j ==> d[k] == t;
    }
  }

  class PriorityQueue {
    var c: seq<Timer>

    ghost predicate Valid()
      reads this
    {
      Heap(c) && Distinct(c)
    }

    ghost function Contents(): set<Timer>
      reads this
    {
      Elements(c)
    }

    constructor ()
      ensures Valid() && c == []
    {
      c := [];
    }

    /** push_heap: the last element rises to its place. */
    method SiftUp()
      requires Distinct(c) && |c| > 0 && HeapAboveHole(c, |c| - 1)
      modifies this
      ensures Valid() && Contents() == old(Contents()) && |c| == |old(c)|
    {
      hide Elements, Distinct, Swap;
      var i := |c| - 1;
      while i > 0 && c[i].time < c[Parent(i)].time
        invariant 0 <= i < |c| == |old(c)| && Distinct(c) && Contents() == old(Contents())
        invariant HeapAboveHole(c, i)
      {
        SwapKeeps(c, i, Parent(i));
        SiftUpStep(c, i);
        c := Swap(c, i, Parent(i));
        i := Parent(i);
      }
      assert i > 0 ==> Ordered(c, i);
    }

    /** The element at `lo` sinks to its place among the elements below it. */
    method SiftDown(lo: nat)
      requires Distinct(c) && HeapFrom(c, lo + 1)
      modifies this
      ensures Distinct(c) && HeapFrom(c, lo) && Contents() == old(Contents()) && |c| == |old(c)|
    {
      hide Elements, Distinct, Swap, Ordered;
      var i := lo;
      while 2 * i + 1 < |c|
        invariant lo <= i && |c| == |old(c)| && Distinct(c) && Contents() == old(Contents())
        invariant HeapBelowHole(c, lo, i)
        decreases |c| - i
      {
        var child := 2 * i + 1;
        if child + 1 < |c| && c[child + 1].time < c[child].time {
          child := child + 1;
        }
        if c[i].time <= c[child].time {
          NoHole(c, lo, i, child);
          return;
        }
        SwapKeeps(c, i, child);
        SiftDownStep(c, lo, i, child);
        c := Swap(c, i, child);
        i := child;
      }
    }

    method Push(t: Timer)
      requires Valid() && (forall u :: u in Contents() ==> u.id != t.id)
      modifies this
      ensures Valid() && Contents() == old(Contents()) + {t} && |c| == |old(c)| + 1
    {
      AppendKeeps(c, t);
      c := c + [t];
      SiftUp();
    }

    method Top() returns (t: Timer)
      requires Valid() && c != []
      ensures t == c[0] && t in Contents()
      ensures forall u :: u in Contents() ==> t.time <= u.time
    {
      t := c[0];
      forall u | u in Contents() ensures t.time <= u.time {
        var k :| 0 <= k < |c| && c[k] == u;
        FrontIsLeast(c, k);
      }
    }

    method Pop()
      requires Valid() && c != []
      modifies this
      ensures Valid() && Contents() == old(Contents()) - {old(c)[0]} && |c| == |old(c)| - 1
    {
      var last := c[|c| - 1];
      PopKeeps(c);
      c := c[..|c| - 1];
      if c != [] {
        c := c[0 := last];
        SiftDown(0);
      }
    }

    method Erase(i: nat)
      requires Valid() && i < |c|
      modifies this
      ensures Valid() && Contents() == old(Contents()) - {old(c)[i]} && |c| == |old(c)| - 1
    {
      EraseKeeps(c, i);
      c := c[..i] + c[i + 1..];
      MakeHeap();
    }

    method MakeHeap()
      requires Distinct(c)
      modifies this
      ensures Valid() && Contents() == old(Contents()) && |c| == |old(c)|
    {
      var lo := |c| / 2;
      while lo > 0
        invariant 0 <= lo <= |c| / 2 && |c| == |old(c)|
        invariant Distinct(c) && HeapFrom(c, lo) && Contents() == old(Contents())
      {
        lo := lo - 1;
        SiftDown(lo);
      }
    }

    /** The countdown that the event queue makes through the iterators, one element at a time. */
    method Subtract(dt: real)
      requires Valid()
      modifies this
      ensures Valid() && |c| == |old(c)|
      ensures forall k :: 0 <= k < |c| ==> c[k] == old(c)[k].(time := old(c)[k].time - dt)
      ensures Contents() == Less(old(Contents()), dt)
    {
      var i := 0;
      while i < |c|
        invariant 0 <= i <= |c| == |old(c)|
        invariant forall k :: 0 <= k < i ==> c[k] == old(c)[k].(time := old(c)[k].time - dt)
        invariant forall k :: i <= k < |c| ==> c[k] == old(c)[k]
      {
        c := c[i := c[i].(time := c[i].time - dt)];
        i := i + 1;
      }
      UniformCountdown(old(c), c, dt);
      CountdownElements(old(c), c, dt);
    }
  }

  lemma CountdownElements(c: seq<Timer>, d: seq<Timer>, dt: real)
    requires |d| == |c|
    requires forall k :: 0 <= k < |c| ==> d[k] == c[k].(time := c[k].time - dt)
    ensures Elements(d) == Less(Elements(c), dt)
  {
    forall u | u in Elements(d) ensures exists t :: t in Elements(c) && u == t.(time := t.time - dt) {
      var k :| 0 <= k < |d| && d[k] == u;
      assert c[k] in Elements(c);
    }
    forall t | t in Elements(c) ensures t.(time := t.time - dt) in Elements(d) {
      var k :| 0 <= k < |c| && c[k] == t;
      assert d[k] in d;
    }
  }

  lemma AppendKeeps(c: seq<Timer>, t: Timer)
    requires Heap(c) && Distinct(c) && (forall u :: u in Elements(c) ==> u.id != t.id)
    ensures Distinct(c + [t]) && Elements(c + [t]) == Elements(c) + {t} && HeapAboveHole(c + [t], |c|)
  {
    var d := c + [t];
    forall k | 0 < k < |d| && k != |c| ensures Ordered(d, k) {
      assert Ordered(c, k);
    }
  }

  lemma PopKeeps(c: seq<Timer>)
    requires Heap(c) && Distinct(c) && c != []
    ensures var rest := c[..|c| - 1];
            if rest == [] then Elements(c) - {c[0]} == {}
            else
              var d := rest[0 := c[|c| - 1]];
              Distinct(d) && HeapFrom(d, 1) && Elements(d) == Elements(c) - {c[0]}
  {
    var rest := c[..|c| - 1];
    if rest != [] {
      var d := rest[0 := c[|c| - 1]];
      forall k | 0 < k < |d| && 1 <= Parent(k) ensures Ordered(d, k) {
        assert Ordered(c, k);
      }
      forall t | t in Elements(c) - {c[0]} ensures t in d {
        var k :| 0 <= k < |c| && c[k] == t;
        assert k < |c| - 1 ==> d[k] == t;
        assert d[0] == c[|c| - 1];
      }
    }
  }

  lemma EraseKeeps(c: seq<Timer>, i: nat)
    requires Distinct(c) && i < |c|
    ensures var d := c[..i] + c[i + 1..];
            Distinct(d) && Elements(d) == Elements(c) - {c[i]}
  {
    var d := c[..i] + c[i + 1..];
    forall t | t in Elements(c) - {c[i]} ensures t in d {
      var k :| 0 <= k < |c| && c[k] == t;
      assert if k < i then d[k] == t else d[k - 1] == t;
    }
  }

  lemma NoHole(c: seq<Timer>, lo: nat, i: nat, child: nat)
    requires HeapBelowHole(c, lo, i) && i < |c| && child < |c|
    requires c[i].time <= c[child].time
    requires forall k :: 0 < k < |c| && Parent(k) == i ==> c[child].time <= c[k].time
    ensures HeapFrom(c, lo)
  {
    forall k | 0 < k < |c| && lo <= Parent(k) ensures Ordered(c, k) {
    }
  }
}
