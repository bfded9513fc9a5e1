/**
 * Resources, the kernel's mutexes (src/sync.c): a resource records the
 * task that holds it and the tasks waiting for it, ordered by priority.
 * Acquiring a held resource parks the caller on the wait list and yields;
 * releasing it wakes the first waiter but does not hand the resource over,
 * so the woken task competes for it again.
 */
module Sync {
  import opened Support
  import opened TaskTypes
  import opened Ordered
  import opened Scheduler

  /** `resource_t`. */
  class Resource {
    /** The list at `first_waiting`, threaded through `next_task`. */
    var waiting: seq<Task>
    /** `acquired_by`. */
    var acquiredBy: Option<Task>

    /** The waiters are known tasks, in order of priority, highest first. */
    ghost predicate Valid(tcb: map<Task, Tcb>)
      reads this
    {
      Known(waiting, tcb) && Sorted(Priorities(waiting, tcb))
    }

    /** A resource nobody holds or waits for. */
    constructor ()
      ensures waiting == [] && acquiredBy == None
    {
      waiting := [];
      acquiredBy := None;
    }
  }

  /**
   * `insert_waiting_task`: the current task goes in front of the first
   * waiter of strictly lower priority, so behind every waiter of the same
   * priority, and the wait list stays ordered by priority.
   */
  method InsertWaiting(s: Scheduler, res: Resource)
    requires s.Valid() && s.current.Some? && res.Valid(s.tcb)
    modifies res`waiting
    ensures res.Valid(s.tcb)
    ensures var cur := s.current.value;
      var p := UpperBound(Priorities(old(res.waiting), s.tcb), s.tcb[cur].priority);
      res.waiting == old(res.waiting)[..p] + [cur] + old(res.waiting)[p..]
  {
    var cur := s.current.value;
    ghost var keys := Priorities(res.waiting, s.tcb);
    var prio := s.tcb[cur].priority;
    var pos := 0;
    if res.waiting == [] {
      pos := 0;
    } else if s.tcb[res.waiting[0]].priority > prio {
      pos := 0;
    } else {
      // `pos` is the position after the waiter the walk is at.
      pos := 1;
      while pos < |res.waiting| && s.tcb[res.waiting[pos]].priority <= prio
        invariant 1 <= pos <= |res.waiting|
        invariant forall j :: 0 <= j < pos ==> keys[j] <= prio
        decreases |res.waiting| - pos
      {
        pos := pos + 1;
      }
    }
    UpperBoundUnique(keys, prio, pos);
    InsertSorted(keys, prio);
    PrioritiesOfInsert(res.waiting, s.tcb, pos, cur);
    res.waiting := res.waiting[..pos] + [cur] + res.waiting[pos..];
  }

  /**
   * One pass of `os_resource_acquire`'s loop. A free resource is taken by
   * the current task and an owner's second acquire returns at once, with
   * no count kept; both end the call (`done`). Otherwise the current task
   * is marked WAITING_FOR_RESOURCE, queued on the wait list and a switch
   * is requested; the loop runs again once the task is scheduled.
   */
  method AcquireStep(s: Scheduler, res: Resource) returns (done: bool)
    requires s.Valid() && s.current.Some? && res.Valid(s.tcb)
    modifies res, s`state, s`pendSv
    ensures s.Valid() && res.Valid(s.tcb)
    ensures var cur := s.current.value;
      var p := UpperBound(Priorities(old(res.waiting), s.tcb), s.tcb[cur].priority);
      && (done <==> old(res.acquiredBy) == None || old(res.acquiredBy) == Some(cur))
      && (done ==> res.acquiredBy == Some(cur) && res.waiting == old(res.waiting)
                   && s.state == old(s.state) && s.pendSv == old(s.pendSv))
      && (!done ==> res.acquiredBy == old(res.acquiredBy) && s.pendSv
                    && res.waiting == old(res.waiting)[..p] + [cur] + old(res.waiting)[p..]
                    && s.state == old(s.state)[cur := WaitingForResource])
  {
    var cur := s.current.value;
    if res.acquiredBy == None {
      res.acquiredBy := Some(cur);
      return true;
    } else if res.acquiredBy == Some(cur) {
      return true;
    }
    s.state := s.state[cur := WaitingForResource];
    InsertWaiting(s, res);
    s.pendSv := true;
    done := false;
  }

  /**
   * `os_resource_release`: only the owner's release does anything. It
   * frees the resource, and when tasks wait, makes the first (highest
   * priority) waiter RUNNABLE at the head of its run queue; a switch is
   * requested (`yielded`) exactly when that waiter outranks the caller.
   */
  method Release(s: Scheduler, res: Resource) returns (yielded: bool)
    requires s.Valid() && s.current.Some? && res.Valid(s.tcb)
    modifies res, s`state, s`groups, s`highest, s`pendSv
    ensures s.Valid() && res.Valid(s.tcb)
    ensures var cur := s.current.value;
      var owner := old(res.acquiredBy) == Some(cur);
      var w := old(res.waiting);
      && (!owner || w == [] ==> !yielded && s.state == old(s.state) && s.groups == old(s.groups)
                                && s.highest == old(s.highest) && s.pendSv == old(s.pendSv)
                                && res.waiting == w)
      && (!owner ==> res.acquiredBy == old(res.acquiredBy))
      && (owner ==> res.acquiredBy == None)
      && (owner && w != [] ==>
            var first := w[0];
            var p := s.tcb[first].priority;
            && res.waiting == w[1..]
            && s.state == old(s.state)[first := Runnable]
            && s.groups == old(s.groups)[p := [first] + old(s.groups)[p]]
            && s.highest == Min(old(s.highest), p)
            && (yielded <==> s.tcb[cur].priority > p)
            && s.pendSv == (old(s.pendSv) || yielded))
  {
    var cur := s.current.value;
    yielded := false;
    if res.acquiredBy != Some(cur) {
      return;
    }
    res.acquiredBy := None;
    if res.waiting != [] {
      var first := WakeFirstWaiter(s, res);
      if s.tcb[cur].priority > s.tcb[first].priority {
        s.pendSv := true;
        yielded := true;
      }
    }
  }

  /**
   * The waking half of `os_resource_release`: unlinks the first waiter,
   * makes it RUNNABLE and puts it at the head of its run queue.
   */
  method WakeFirstWaiter(s: Scheduler, res: Resource) returns (first: Task)
    requires s.Valid() && res.Valid(s.tcb) && res.waiting != []
    modifies res`waiting, s`state, s`groups, s`highest
    ensures s.Valid() && res.Valid(s.tcb)
    ensures first == old(res.waiting)[0] && res.waiting == old(res.waiting)[1..]
    ensures var p := s.tcb[first].priority;
      && s.state == old(s.state)[first := Runnable]
      && s.groups == old(s.groups)[p := [first] + old(s.groups)[p]]
      && s.highest == Min(old(s.highest), p)
  {
    first := res.waiting[0];
    SortedSuffix(Priorities(res.waiting, s.tcb), 1);
    PrioritiesOfSuffix(res.waiting, s.tcb, 1);
    res.waiting := res.waiting[1..];
    s.AddToRunqueueHead(first);
    s.state := s.state[first := Runnable];
  }

  /** The first waiter has the highest priority (the lowest number) of all waiters. */
  lemma FirstWaiterOutranks(res: Resource, tcb: map<Task, Tcb>)
    requires res.Valid(tcb) && res.waiting != []
    ensures forall i :: 0 <= i < |res.waiting| ==> tcb[res.waiting[0]].priority <= tcb[res.waiting[i]].priority
  {
    var keys := Priorities(res.waiting, tcb);
    assert forall i :: 0 <= i < |keys| ==> keys[0] <= keys[i];
  }
}
