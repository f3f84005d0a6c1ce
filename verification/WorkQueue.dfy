/** A worker's queue: one first-in-first-out list per priority, under a lock, and the
    work-stealing deque for tasks of normal priority. The deque is the atomic one that
    `WorkStealingDeque` shows it to be, oldest task first. */
module WorkQueue {
  import opened Basics

  type Task = nat

  const Normal := 1
  const Priorities := 4

  // ---------------------------------------------------------------------------
  // The order in which the lists are served
  // ---------------------------------------------------------------------------

  /** The queued tasks from the highest priority down, each priority in order of arrival. */
  function Served(lists: seq<seq<Task>>): seq<Task> {
    if lists == [] then [] else lists[|lists| - 1] + Served(lists[..|lists| - 1])
  }

  /** Priorities from `p` on are served before the lower ones. */
  lemma {:induction false} ServedSplits(lists: seq<seq<Task>>, p: nat)
    requires p <= |lists|
    ensures Served(lists) == Served(lists[p..]) + Served(lists[..p])
    decreases |lists|
  {
    if p == |lists| {
      assert lists[..p] == lists && lists[p..] == [];
    } else {
      var n := |lists| - 1;
      ServedSplits(lists[..n], p);
      assert lists[..n][p..] == lists[p..][..|lists[p..]| - 1] && lists[..n][..p] == lists[..p];
      Regroup(lists[n], Served(lists[..n][p..]), Served(lists[..p]));
    }
  }

  lemma Regroup(a: seq<Task>, b: seq<Task>, c: seq<Task>)
    ensures a + (b + c) == (a + b) + c
  {
  }

  /** A task is served after all that arrived before it with its priority or a higher one,
      and before all of lower priority. */
  lemma {:induction false} Arrival(lists: seq<seq<Task>>, p: nat, t: Task)
    requires p < |lists|
    ensures Served(lists) == Served(lists[p..]) + Served(lists[..p])
    ensures Served(lists[p := lists[p] + [t]]) == Served(lists[p..]) + [t] + Served(lists[..p])
  {
    var lists' := lists[p := lists[p] + [t]];
    ServedSplits(lists, p);
    ServedSplits(lists', p);
    ServedSplits(lists[p..], 1);
    ServedSplits(lists'[p..], 1);
    assert lists'[..p] == lists[..p];
    assert lists'[p..][1..] == lists[p..][1..];
    assert lists[p..][..1] == [lists[p]] && lists'[p..][..1] == [lists[p] + [t]];
    ServedOne(lists[p]);
    ServedOne(lists[p] + [t]);
    Regroup(Served(lists[p..][1..]), lists[p], [t]);
  }

  lemma {:induction false} ServedOne(q: seq<Task>)
    ensures Served([q]) == q
  {
    assert [q][..0] == [];
    assert q + [] == q;
  }

  lemma EmptyFirst(q: seq<Task>)
    ensures [] + q == q
  {
  }

  /** Empty lists do not matter. */
  lemma {:induction false} NextServed(lists: seq<seq<Task>>, p: nat)
    requires p <= |lists| && forall i :: p <= i < |lists| ==> lists[i] == []
    ensures Served(lists) == Served(lists[..p])
    decreases |lists| - p
  {
    if p == |lists| {
      assert lists[..p] == lists;
    } else {
      NextServed(lists, p + 1);
      assert lists[..p + 1][..p] == lists[..p] && lists[..p + 1][p] == [];
      EmptyFirst(Served(lists[..p]));
    }
  }

  /** The first task of the highest list that has one is next. */
  lemma {:induction false} FirstServed(lists: seq<seq<Task>>, p: nat)
    requires p < |lists| && lists[p] != [] && forall i :: p < i < |lists| ==> lists[i] == []
    ensures Served(lists) == [lists[p][0]] + Served(lists[p := lists[p][1..]])
  {
    var lists' := lists[p := lists[p][1..]];
    NextServed(lists, p + 1);
    NextServed(lists', p + 1);
    var a, a' := lists[..p + 1], lists'[..p + 1];
    assert a[..p] == lists[..p] && a'[..p] == lists[..p];
    assert a[p] == [a[p][0]] + a'[p];
    Regroup([a[p][0]], a'[p], Served(lists[..p]));
  }

  // ---------------------------------------------------------------------------
  // The queue
  // ---------------------------------------------------------------------------

  /** The highest list that has a task loses its first one, and the others stay. */
  ghost predicate TookFirst(lists: seq<seq<Task>>, lists': seq<seq<Task>>) {
    exists p :: 0 <= p < |lists| && lists[p] != [] && (forall i :: p < i < |lists| ==> lists[i] == []) && lists' == lists[p := lists[p][1..]]
  }

  class Queue {
    var lists: seq<seq<Task>>
    var deque: seq<Task>
    const capacity: nat
    var count: int

    ghost predicate Valid()
      reads this
    {
      |lists| == Priorities && count == |Served(lists)| + |deque|
    }

    constructor (dequeCapacity: nat)
      ensures Valid() && Served(lists) == [] && deque == [] && capacity == dequeCapacity
    {
      lists, deque, capacity, count := [[], [], [], []], [], dequeCapacity, 0;
      new;
      NextServed(lists, 0);
    }

    /** Queues a task: on the deque, which may be full, or in its priority's place. */
    method Push(task: Task, priority: nat, useDeque: bool) returns (ok: bool)
      requires Valid() && priority < Priorities
      modifies this
      ensures Valid() && ok == !(useDeque && priority == Normal && old(|deque| + 1 >= capacity))
      ensures !ok ==> unchanged(this)
      ensures ok && useDeque && priority == Normal ==> deque == old(deque) + [task] && lists == old(lists)
      ensures ok && !(useDeque && priority == Normal) ==>
                deque == old(deque)
                && old(Served(lists)) == old(Served(lists[priority..])) + old(Served(lists[..priority]))
                && Served(lists) == old(Served(lists[priority..])) + [task] + old(Served(lists[..priority]))
                && lists == old(lists)[priority := old(lists)[priority] + [task]]
    {
      if useDeque && priority == Normal {
        if |deque| + 1 >= capacity { return false; }
        deque := deque + [task];
      } else {
        Arrival(lists, priority, task);
        lists := lists[priority := lists[priority] + [task]];
      }
      count := count + 1;
      ok := true;
    }

    /** Takes the next task from the lists, the highest priority first. */
    method PopPriority() returns (r: Option<Task>)
      requires Valid()
      modifies this`lists, this`count
      ensures Valid()
      ensures r.None? ==> old(Served(lists)) == [] && lists == old(lists)
      ensures r.Some? ==> old(Served(lists)) == [r.value] + Served(lists) && TookFirst(old(lists), lists)
    {
      var i := |lists|;
      while i > 0
        invariant 0 <= i <= |lists| && lists == old(lists) && count == old(count)
        invariant forall j :: i <= j < |lists| ==> lists[j] == []
      {
        i := i - 1;
        if lists[i] != [] {
          FirstServed(lists, i);
          var task := lists[i][0];
          lists := lists[i := lists[i][1..]];
          count := count - 1;
          return Some(task);
        }
      }
      NextServed(lists, 0);
      assert lists[..0] == [];
      r := None;
    }

    /** The owner's pop: the lists first, then the newest task of the deque. */
    method Pop() returns (r: Option<Task>)
      requires Valid()
      modifies this
      ensures Valid()
      ensures r.None? ==> old(Served(lists)) == [] && old(deque) == [] && unchanged(this)
      ensures r.Some? && old(Served(lists)) != [] ==>
                old(Served(lists)) == [r.value] + Served(lists) && TookFirst(old(lists), lists) && deque == old(deque)
      ensures r.Some? && old(Served(lists)) == [] ==>
                old(deque) == deque + [r.value] && lists == old(lists)
    {
      r := PopPriority();
      if r.None? && deque != [] {
        var last := |deque| - 1;
        r := Some(deque[last]);
        deque := deque[..last];
        count := count - 1;
      }
    }

    /** A thief takes the oldest task of the deque and none from the lists. */
    method Steal() returns (r: Option<Task>)
      requires Valid()
      modifies this`deque, this`count
      ensures Valid()
      ensures r.None? ==> deque == [] == old(deque) && count == old(count)
      ensures r.Some? ==> old(deque) == [r.value] + deque
    {
      if deque == [] { return None; }
      r := Some(deque[0]);
      deque := deque[1..];
      count := count - 1;
    }
  }
}
