/**
 * The MourOS scheduler's queue bookkeeping (src/scheduler.c): sixteen
 * per-priority run queues scanned from a `highest_prio_level` hint, a
 * sleep queue ordered by wake-up time, and the run-queue side of the
 * PendSV and SysTick handlers. The register save and restore around a
 * context switch is not modelled: a switch is the change of `current`.
 */
module Scheduler {
  import opened Support
  import opened TaskTypes
  import opened Ordered

  /** Every known task has a priority that indexes a run queue. */
  ghost predicate PrioritiesOk(tcb: map<Task, Tcb>)
  {
    forall t :: t in tcb ==> tcb[t].priority < NUM_PRIO_LEVELS
  }

  /** Sixteen empty priority groups. */
  function EmptyGroups(): (g: seq<seq<Task>>)
    ensures |g| == NUM_PRIO_LEVELS && forall p :: 0 <= p < |g| ==> g[p] == []
  {
    seq(NUM_PRIO_LEVELS, p => [])
  }

  /** The first non-empty group at or after `from`, or `|groups|` when there is none. */
  function FirstNonEmpty(groups: seq<seq<Task>>, from: nat): (r: nat)
    requires from <= |groups|
    ensures from <= r <= |groups|
    ensures r < |groups| ==> groups[r] != []
    ensures forall p :: from <= p < r ==> groups[p] == []
    decreases |groups| - from
  {
    if from == |groups| then from
    else if groups[from] != [] then from
    else FirstNonEmpty(groups, from + 1)
  }

  /**
   * The hint is sound: when every group below `h` is empty, scanning from
   * `h` finds the same group as scanning from priority 0.
   */
  lemma {:induction false} HintIsSound(groups: seq<seq<Task>>, h: nat)
    requires h <= |groups|
    requires forall p :: 0 <= p < h ==> groups[p] == []
    ensures FirstNonEmpty(groups, h) == FirstNonEmpty(groups, 0)
    decreases h
  {
    if h > 0 {
      HintIsSound(groups, h - 1);
    }
  }

  /** The groups after pushing each task of `ts`, in order, onto the head of its priority group. */
  ghost function PushHeads(g: seq<seq<Task>>, ts: seq<Task>, tcb: map<Task, Tcb>): (r: seq<seq<Task>>)
    requires |g| == NUM_PRIO_LEVELS && Known(ts, tcb) && PrioritiesOk(tcb)
    ensures |r| == NUM_PRIO_LEVELS
    decreases |ts|
  {
    if ts == [] then g
    else
      var t := ts[|ts| - 1];
      var h := PushHeads(g, ts[..|ts| - 1], tcb);
      h[tcb[t].priority := [t] + h[tcb[t].priority]]
  }

  /** The priority level after lowering `h` to the priority of each task of `ts`. */
  ghost function Lowered(h: nat, ts: seq<Task>, tcb: map<Task, Tcb>): (r: nat)
    requires Known(ts, tcb)
    ensures r <= h
    ensures forall i :: 0 <= i < |ts| ==> r <= tcb[ts[i]].priority
    decreases |ts|
  {
    if ts == [] then h
    else
      var t := ts[|ts| - 1];
      var l := Lowered(h, ts[..|ts| - 1], tcb);
      assert forall i :: 0 <= i < |ts| - 1 ==> ts[..|ts| - 1][i] == ts[i];
      Min(l, tcb[t].priority)
  }

  /** The lowered level is the starting one or the priority of a task of `ts`. */
  lemma {:induction false} LoweredIsAttained(h: nat, ts: seq<Task>, tcb: map<Task, Tcb>)
    requires Known(ts, tcb)
    ensures Lowered(h, ts, tcb) == h || exists i :: 0 <= i < |ts| && Lowered(h, ts, tcb) == tcb[ts[i]].priority
    decreases |ts|
  {
    if ts != [] {
      var init := ts[..|ts| - 1];
      LoweredIsAttained(h, init, tcb);
      if Lowered(h, ts, tcb) != tcb[ts[|ts| - 1]].priority && Lowered(h, ts, tcb) != h {
        var i :| 0 <= i < |init| && Lowered(h, init, tcb) == tcb[init[i]].priority;
        assert ts[i] == init[i];
      }
    }
  }

  /** The task states after each task of `ts`, in order, is made RUNNABLE. */
  ghost function MarkRunnable(state: map<Task, TaskState>, ts: seq<Task>): (r: map<Task, TaskState>)
    requires forall i :: 0 <= i < |ts| ==> ts[i] in state
    ensures r.Keys == state.Keys
    decreases |ts|
  {
    if ts == [] then state
    else MarkRunnable(state, ts[..|ts| - 1])[ts[|ts| - 1] := Runnable]
  }

  /** Exactly the tasks of `ts` are RUNNABLE afterwards; the others keep their state. */
  lemma {:induction false} MarkRunnableMeans(state: map<Task, TaskState>, ts: seq<Task>)
    requires forall i :: 0 <= i < |ts| ==> ts[i] in state
    ensures forall t :: t in state ==> MarkRunnable(state, ts)[t] == if t in ts then Runnable else state[t]
    decreases |ts|
  {
    if ts != [] {
      var init := ts[..|ts| - 1];
      MarkRunnableMeans(state, init);
      assert ts == init + [ts[|ts| - 1]];
    }
  }

  /** Waking one more task `t` pushes it onto the head of its group. */
  lemma PushHeadsSnoc(g: seq<seq<Task>>, ts: seq<Task>, t: Task, tcb: map<Task, Tcb>)
    requires |g| == NUM_PRIO_LEVELS && Known(ts, tcb) && t in tcb && PrioritiesOk(tcb)
    ensures Known(ts + [t], tcb)
    ensures var g0 := PushHeads(g, ts, tcb);
      PushHeads(g, ts + [t], tcb) == g0[tcb[t].priority := [t] + g0[tcb[t].priority]]
  {
    assert (ts + [t])[..|ts|] == ts;
  }

  /** Waking one more task `t` lowers the level to its priority. */
  lemma LoweredSnoc(h: nat, ts: seq<Task>, t: Task, tcb: map<Task, Tcb>)
    requires Known(ts, tcb) && t in tcb
    ensures Known(ts + [t], tcb)
    ensures Lowered(h, ts + [t], tcb) == Min(Lowered(h, ts, tcb), tcb[t].priority)
  {
    assert (ts + [t])[..|ts|] == ts;
  }

  /** Waking one more task `t` makes it RUNNABLE. */
  lemma MarkRunnableSnoc(state: map<Task, TaskState>, ts: seq<Task>, t: Task)
    requires t in state && forall i :: 0 <= i < |ts| ==> ts[i] in state
    ensures MarkRunnable(state, ts + [t]) == MarkRunnable(state, ts)[t := Runnable]
  {
    assert (ts + [t])[..|ts|] == ts;
  }

  /** Moving the head of the rest to the end of the prefix. */
  lemma Regroup(q: seq<Task>, w: seq<Task>, t: Task, rest: seq<Task>)
    requires q == w + ([t] + rest)
    ensures q == (w + [t]) + rest
  {
  }

  /** The scheduler's globals, and the task control blocks they refer to. */
  class Scheduler {
    /** The task control blocks, by address, but for their `state` field. */
    var tcb: map<Task, Tcb>
    /** The `state` field of every task control block. */
    var state: map<Task, TaskState>
    /** `task_prio_groups`: each group's tasks, `first` to `last`. */
    var groups: seq<seq<Task>>
    /** The list at `sleepqueue_head`. */
    var sleepQueue: seq<Task>
    /** `current_task`. */
    var current: Option<Task>
    /** `os_tick_count`. */
    var tick: nat
    /** `highest_prio_level`. */
    var highest: nat
    /** The PENDSVSET request bit of the interrupt control register. */
    var pendSv: bool

    ghost predicate Valid()
      reads this`tcb, this`state, this`groups, this`sleepQueue, this`current, this`highest
    {
      && |groups| == NUM_PRIO_LEVELS
      && highest < NUM_PRIO_LEVELS
      && (forall p :: 0 <= p < highest ==> groups[p] == [])
      && (forall p :: 0 <= p < NUM_PRIO_LEVELS ==> Known(groups[p], tcb))
      && PrioritiesOk(tcb)
      && state.Keys == tcb.Keys
      && Known(sleepQueue, tcb)
      && Sorted(Wakeups(sleepQueue, tcb))
      && (current.Some? ==> current.value in tcb)
    }

    /** The zero-initialised globals, before any task exists. */
    constructor ()
      ensures Valid()
      ensures tcb == map[] && state == map[] && groups == EmptyGroups() && sleepQueue == []
      ensures current == None && tick == 0 && highest == 0 && !pendSv
    {
      tcb := map[];
      state := map[];
      groups := EmptyGroups();
      sleepQueue := [];
      current := None;
      tick := 0;
      highest := 0;
      pendSv := false;
    }

    /** `sched_init`: empties every priority group. */
    method Init()
      requires Valid()
      modifies this`groups
      ensures Valid() && groups == EmptyGroups()
    {
      for i := 0 to NUM_PRIO_LEVELS
        invariant |groups| == NUM_PRIO_LEVELS
        invariant forall p :: 0 <= p < i ==> groups[p] == []
        invariant forall p :: i <= p < NUM_PRIO_LEVELS ==> groups[p] == old(groups)[p]
      {
        groups := groups[i := []];
      }
    }

    /**
     * `take_highest_prio_task`: scans the groups upward from the hint,
     * leaving the hint at the group scanned last, and pops the head of the
     * first non-empty one, which is the first non-empty group of all. When
     * every group is empty the source spins forever; here the result is
     * `None`.
     */
    method TakeHighest() returns (r: Option<Task>)
      requires Valid()
      modifies this`groups, this`highest
      ensures Valid()
      ensures var h := FirstNonEmpty(old(groups), 0);
        && (r.None? <==> h == NUM_PRIO_LEVELS)
        && (r.Some? ==> r.value == old(groups)[h][0] && groups == old(groups)[h := old(groups)[h][1..]] && highest == h)
        && (r.None? ==> groups == old(groups) && highest == NUM_PRIO_LEVELS - 1)
    {
      HintIsSound(groups, highest);
      var i := highest;
      while i < NUM_PRIO_LEVELS
        invariant highest <= i <= NUM_PRIO_LEVELS && highest < NUM_PRIO_LEVELS
        invariant i == NUM_PRIO_LEVELS ==> highest == NUM_PRIO_LEVELS - 1
        invariant groups == old(groups)
        invariant forall p :: 0 <= p < i ==> groups[p] == []
        invariant FirstNonEmpty(groups, i) == FirstNonEmpty(groups, 0)
        decreases NUM_PRIO_LEVELS - i
      {
        highest := i;
        if groups[i] != [] {
          r := Some(groups[i][0]);
          groups := groups[i := groups[i][1..]];
          return;
        }
        i := i + 1;
      }
      r := None;
    }

    /**
     * `sched_add_to_runqueue_head`: `task` becomes the first of its
     * priority group, and the hint drops to its priority if that is higher.
     */
    method AddToRunqueueHead(task: Task)
      requires Valid() && task in tcb
      modifies this`groups, this`highest
      ensures Valid()
      ensures var p := tcb[task].priority;
        groups == old(groups)[p := [task] + old(groups)[p]] && highest == Min(old(highest), p)
    {
      var prio := tcb[task].priority;
      if prio < highest {
        highest := prio;
      }
      if groups[prio] == [] {
        groups := groups[prio := [task]];
        assert [task] + old(groups)[prio] == [task];
      } else {
        groups := groups[prio := [task] + groups[prio]];
      }
    }

    /**
     * `sched_add_to_runqueue_tail`: `task` becomes the last of its
     * priority group, and the hint drops to its priority if that is higher.
     */
    method AddToRunqueueTail(task: Task)
      requires Valid() && task in tcb
      modifies this`groups, this`highest
      ensures Valid()
      ensures var p := tcb[task].priority;
        groups == old(groups)[p := old(groups)[p] + [task]] && highest == Min(old(highest), p)
    {
      var prio := tcb[task].priority;
      if prio < highest {
        highest := prio;
      }
      if groups[prio] == [] {
        groups := groups[prio := [task]];
        assert old(groups)[prio] + [task] == [task];
      } else {
        groups := groups[prio := groups[prio] + [task]];
      }
    }

    /**
     * `sched_add_to_sleepqueue`: `task` goes in front of the first sleeping
     * task that wakes strictly later, so after those that wake at the same
     * tick, and the queue stays ordered by wake-up time.
     */
    method AddToSleepqueue(task: Task)
      requires Valid() && task in tcb
      modifies this`sleepQueue
      ensures Valid()
      ensures var p := UpperBound(Wakeups(old(sleepQueue), tcb), tcb[task].wakeupTime);
        sleepQueue == old(sleepQueue)[..p] + [task] + old(sleepQueue)[p..]
    {
      ghost var keys := Wakeups(sleepQueue, tcb);
      var w := tcb[task].wakeupTime;
      var pos := 0;
      if sleepQueue == [] {
        pos := 0;
      } else if tcb[sleepQueue[0]].wakeupTime > w {
        pos := 0;
      } else {
        // `pos` is the position after the task the walk is at.
        pos := 1;
        while pos < |sleepQueue| && tcb[sleepQueue[pos]].wakeupTime <= w
          invariant 1 <= pos <= |sleepQueue|
          invariant forall j :: 0 <= j < pos ==> keys[j] <= w
          decreases |sleepQueue| - pos
        {
          pos := pos + 1;
        }
      }
      UpperBoundUnique(keys, w, pos);
      InsertSorted(keys, w);
      WakeupsOfInsert(sleepQueue, tcb, pos, task);
      sleepQueue := sleepQueue[..pos] + [task] + sleepQueue[pos..];
    }

    /**
     * `wakeup_tasks`: takes off the sleep queue exactly the tasks whose
     * wake-up time has come, `woken`, in queue order, makes each RUNNABLE
     * and pushes it onto the head of its run queue. As the queue is
     * ordered by wake-up time, `woken` is the longest prefix of due tasks.
     */
    method WakeupTasks() returns (ghost woken: seq<Task>)
      requires Valid()
      modifies this`state, this`groups, this`highest, this`sleepQueue
      ensures Valid() && Known(woken, tcb)
      ensures old(sleepQueue) == woken + sleepQueue
      ensures forall i :: 0 <= i < |woken| ==> tcb[woken[i]].wakeupTime <= tick
      ensures forall i :: 0 <= i < |sleepQueue| ==> tcb[sleepQueue[i]].wakeupTime > tick
      ensures state == MarkRunnable(old(state), woken)
      ensures groups == PushHeads(old(groups), woken, tcb)
      ensures highest == Lowered(old(highest), woken, tcb)
    {
      woken := [];
      while sleepQueue != [] && tcb[sleepQueue[0]].wakeupTime <= tick
        invariant Valid() && Known(woken, tcb)
        invariant old(sleepQueue) == woken + sleepQueue
        invariant forall i :: 0 <= i < |woken| ==> tcb[woken[i]].wakeupTime <= tick
        invariant state == MarkRunnable(old(state), woken)
        invariant groups == PushHeads(old(groups), woken, tcb)
        invariant highest == Lowered(old(highest), woken, tcb)
        decreases |sleepQueue|
      {
        PushHeadsSnoc(old(groups), woken, sleepQueue[0], tcb);
        LoweredSnoc(old(highest), woken, sleepQueue[0], tcb);
        MarkRunnableSnoc(old(state), woken, sleepQueue[0]);
        var t := WakeHead();
        Regroup(old(sleepQueue), woken, t, sleepQueue);
        woken := woken + [t];
      }
      AllAbove(Wakeups(sleepQueue, tcb), tick);
    }

    /**
     * One pass of `wakeup_tasks`' loop: unlinks `t`, the head of the
     * sleep queue, makes it RUNNABLE and pushes it onto its run queue's
     * head.
     */
    method WakeHead() returns (t: Task)
      requires Valid() && sleepQueue != []
      modifies this`state, this`groups, this`highest, this`sleepQueue
      ensures Valid() && t in tcb
      ensures t == old(sleepQueue)[0] && old(sleepQueue) == [t] + sleepQueue
      ensures state == old(state)[t := Runnable]
      ensures var p := tcb[t].priority;
        groups == old(groups)[p := [t] + old(groups)[p]] && highest == Min(old(highest), p)
    {
      t := sleepQueue[0];
      AddToRunqueueHead(t);
      SortedSuffix(Wakeups(sleepQueue, tcb), 1);
      WakeupsOfSuffix(sleepQueue, tcb, 1);
      sleepQueue := sleepQueue[1..];
      state := state[t := Runnable];
    }

    /**
     * The PendSV handler's bookkeeping: clears the request, puts the
     * current task back at the tail of its run queue only if it is
     * RUNNING (a task that blocked, slept or stopped stays out), then
     * makes the highest-priority runnable task current and RUNNING.
     * `switched` is false where the source would spin in
     * `take_highest_prio_task`.
     */
    method PendSv() returns (switched: bool)
      requires Valid() && current.Some?
      modifies this`state, this`groups, this`highest, this`current, this`pendSv
      ensures Valid() && !pendSv
      ensures var cur := old(current).value;
        var running := old(state)[cur] == Running;
        var p := tcb[cur].priority;
        var g := if running then old(groups)[p := old(groups)[p] + [cur]] else old(groups);
        var st := if running then old(state)[cur := Runnable] else old(state);
        var h := FirstNonEmpty(g, 0);
        && (running ==> switched)
        && (switched <==> h < NUM_PRIO_LEVELS)
        && (switched ==> current == Some(g[h][0]) && groups == g[h := g[h][1..]] && highest == h && state == st[g[h][0] := Running])
        && (!switched ==> current == old(current) && groups == g && state == st)
    {
      pendSv := false;
      var cur := current.value;
      if state[cur] == Running {
        var _ := Requeue(cur);
        return true;
      }
      var next := TakeHighest();
      if next.None? {
        return false;
      }
      current := next;
      state := state[next.value := Running];
      switched := true;
    }

    /**
     * The common end of both handlers: `cur` goes to the tail of its run
     * queue as RUNNABLE, and the highest-priority runnable task, which is
     * `cur` itself when nothing of higher or equal priority waits, becomes
     * current and RUNNING.
     */
    method Requeue(cur: Task) returns (next: Task)
      requires Valid() && cur in tcb
      modifies this`state, this`groups, this`highest, this`current
      ensures Valid()
      ensures var p := tcb[cur].priority;
        var g := old(groups)[p := old(groups)[p] + [cur]];
        var h := FirstNonEmpty(g, 0);
        && h <= p && next == g[h][0]
        && current == Some(next) && groups == g[h := g[h][1..]] && highest == h
        && state == old(state)[cur := Runnable][next := Running]
    {
      state := state[cur := Runnable];
      AddToRunqueueTail(cur);
      assert groups[tcb[cur].priority] != [];
      var r := TakeHighest();
      next := r.value;
      current := r;
      state := state[next := Running];
    }

    /**
     * The SysTick handler's bookkeeping: counts the tick, wakes the tasks
     * that are due (`woken`, as `WakeupTasks` says), puts the current task
     * at the tail of its run queue whatever its state and makes it
     * RUNNABLE, then makes the highest-priority runnable task current and
     * RUNNING.
     */
    method SysTick() returns (ghost woken: seq<Task>)
      requires Valid() && current.Some?
      modifies this`state, this`groups, this`highest, this`current, this`sleepQueue, this`tick
      ensures Valid() && tick == old(tick) + 1 && Known(woken, tcb)
      ensures old(sleepQueue) == woken + sleepQueue
      ensures forall i :: 0 <= i < |woken| ==> tcb[woken[i]].wakeupTime <= tick
      ensures forall i :: 0 <= i < |sleepQueue| ==> tcb[sleepQueue[i]].wakeupTime > tick
      ensures var cur := old(current).value;
        var g1 := PushHeads(old(groups), woken, tcb);
        var p := tcb[cur].priority;
        var g := g1[p := g1[p] + [cur]];
        var h := FirstNonEmpty(g, 0);
        && h <= p
        && current == Some(g[h][0])
        && groups == g[h := g[h][1..]]
        && highest == h
        && state == MarkRunnable(old(state), woken)[cur := Runnable][g[h][0] := Running]
    {
      tick := tick + 1;
      woken := WakeupTasks();
      var _ := Requeue(current.value);
    }

    /**
     * `sched_start_tasks` as written: makes the highest-priority task
     * current and moves its stack pointer past the 16-word initial frame
     * the first switch consumes, but leaves its state RUNNABLE.
     * `started` is false where the source would spin.
     */
    method StartTasksAsWritten() returns (started: bool)
      requires Valid()
      modifies this`tcb, this`groups, this`highest, this`current
      ensures Valid()
      ensures var h := FirstNonEmpty(old(groups), 0);
        && (started <==> h < NUM_PRIO_LEVELS)
        && (started ==> var t := old(groups)[h][0];
              current == Some(t) && groups == old(groups)[h := old(groups)[h][1..]]
              && tcb == old(tcb)[t := old(tcb)[t].(stack := old(tcb)[t].stack + 64)])
        && (!started ==> current == old(current) && tcb == old(tcb))
    {
      var next := TakeHighest();
      if next.None? {
        return false;
      }
      current := next;
      var t := next.value;
      tcb := tcb[t := tcb[t].(stack := tcb[t].stack + 64)];
      assert Wakeups(sleepQueue, tcb) == Wakeups(sleepQueue, old(tcb));
      started := true;
    }

    /**
     * `sched_start_tasks` corrected: as written, and the started task is
     * RUNNING, so that the first PendSV puts it back on its run queue.
     */
    method StartTasks() returns (started: bool)
      requires Valid()
      modifies this`tcb, this`state, this`groups, this`highest, this`current
      ensures Valid()
      ensures var h := FirstNonEmpty(old(groups), 0);
        && (started <==> h < NUM_PRIO_LEVELS)
        && (started ==> var t := old(groups)[h][0];
              current == Some(t) && groups == old(groups)[h := old(groups)[h][1..]]
              && tcb == old(tcb)[t := old(tcb)[t].(stack := old(tcb)[t].stack + 64)]
              && state == old(state)[t := Running])
        && (!started ==> current == old(current) && tcb == old(tcb) && state == old(state))
    {
      var next := TakeHighest();
      if next.None? {
        return false;
      }
      current := next;
      var t := next.value;
      tcb := tcb[t := tcb[t].(stack := tcb[t].stack + 64)];
      state := state[t := Running];
      assert Wakeups(sleepQueue, tcb) == Wakeups(sleepQueue, old(tcb));
      started := true;
    }
  }
}
