/**
 * The older kernel of src/os.c, kept beside the newer scheduler. Its run
 * queues are never emptied: every added task stays in its priority group,
 * a switch rotates the current task to the tail of its group and picks the
 * first RUNNABLE task scanning from the `highest_prio_group` hint. Delayed
 * tasks wait on a list ordered by wake-up time and, for equal times, by
 * priority. As in the newer scheduler, a context switch is the change of
 * `current`; the register save and restore is not modelled.
 */
module Legacy {
  import opened Support
  import opened Ordered
  import TaskTypes
  import Scheduler
  import Tasks

  type Task = TaskTypes.Task

  /** `NUM_PRIO_GROUPS`. */
  const NUM_PRIO_GROUPS: nat := 16

  /** `IDLE_TASK_PRIO`. */
  const IDLE_TASK_PRIO: nat := 15

  /** The size of `idle_task_stack`. */
  const IDLE_STACK_SIZE: nat := 128

  /** A priority that `os_init_task` accepts, 0 (highest) to 15. */
  type Priority = p: nat | p < NUM_PRIO_GROUPS

  /** The states of the `tcb` that src/os.c uses, in their declared order. */
  datatype State = Runnable | Delayed | WaitingForResource | Sleeping | Running | Stopped

  /** A control block of src/os.c, but for its `state` and its list links. */
  datatype OldTcb = OldTcb(
    id: nat,
    name: nat,
    taskFunc: nat,
    taskParams: nat,
    priority: Priority,
    wakeupTime: nat,
    stackBase: nat,
    stack: nat,
    stackSize: nat,
    /** The 16 words at `stack` that the first switch to the task pops. */
    frame: seq<int>)

  /** Every task of `q` is a key of `m`. */
  ghost predicate Within<V>(q: seq<Task>, m: map<Task, V>)
  {
    forall i :: 0 <= i < |q| ==> q[i] in m
  }

  /**
   * The comparison of `os_task_delay`: `a` goes behind `b` on the delay
   * list, as it wakes later or wakes at the same tick with a lower priority.
   */
  predicate Later(a: OldTcb, b: OldTcb)
  {
    a.wakeupTime > b.wakeupTime || (a.wakeupTime == b.wakeupTime && a.priority > b.priority)
  }

  /** Wake-up time and priority folded into one key, priorities being below 16. */
  function DelayKey(t: OldTcb): int
  {
    t.wakeupTime * NUM_PRIO_GROUPS + t.priority
  }

  /** As priorities are below 16, `Later` is the order of the keys. */
  lemma KeyOrder(a: OldTcb, b: OldTcb)
    ensures Later(a, b) <==> DelayKey(a) > DelayKey(b)
  {
  }

  /** The keys of the tasks of `q`, in list order. */
  function DelayKeys(q: seq<Task>, tcb: map<Task, OldTcb>): (r: seq<int>)
    requires Within(q, tcb)
    ensures |r| == |q|
    ensures forall i :: 0 <= i < |q| ==> r[i] == DelayKey(tcb[q[i]])
  {
    seq(|q|, i requires 0 <= i < |q| => DelayKey(tcb[q[i]]))
  }

  /** The keys of a list with `t` spliced in at `p`. */
  lemma DelayKeysOfInsert(q: seq<Task>, tcb: map<Task, OldTcb>, p: nat, t: Task)
    requires Within(q, tcb) && t in tcb && p <= |q|
    ensures Within(q[..p] + [t] + q[p..], tcb)
    ensures DelayKeys(q[..p] + [t] + q[p..], tcb) == DelayKeys(q, tcb)[..p] + [DelayKey(tcb[t])] + DelayKeys(q, tcb)[p..]
  {
    var r := q[..p] + [t] + q[p..];
    assert forall i :: 0 <= i < |r| ==> r[i] == if i < p then q[i] else if i == p then t else q[i - 1];
  }

  /**
   * On a list sorted by key, a task that is not due yet is followed only by
   * tasks that are not due either.
   */
  lemma {:induction false} NoneDueAfter(q: seq<Task>, tcb: map<Task, OldTcb>, tick: nat)
    requires Within(q, tcb) && Sorted(DelayKeys(q, tcb))
    requires q != [] ==> tcb[q[0]].wakeupTime > tick
    ensures forall i :: 0 <= i < |q| ==> tcb[q[i]].wakeupTime > tick
  {
    var keys := DelayKeys(q, tcb);
    forall i | 0 <= i < |q|
      ensures tcb[q[i]].wakeupTime > tick
    {
      assert keys[0] <= keys[i];
    }
  }

  /** `t` is RUNNABLE in `state`. */
  predicate IsRunnable(state: map<Task, State>, t: Task)
  {
    t in state && state[t] == Runnable
  }

  /** The position in `q` of the first task RUNNABLE in `state`, or `|q|`. */
  function FirstRunnable(q: seq<Task>, state: map<Task, State>): (j: nat)
    ensures j <= |q|
    ensures j < |q| ==> IsRunnable(state, q[j])
    ensures forall i :: 0 <= i < j ==> !IsRunnable(state, q[i])
  {
    if q == [] then 0
    else if IsRunnable(state, q[0]) then 0
    else 1 + FirstRunnable(q[1..], state)
  }

  /** The first group at or after `from` holding a RUNNABLE task, or `|groups|`. */
  function PickGroup(groups: seq<seq<Task>>, state: map<Task, State>, from: nat): (h: nat)
    requires from <= |groups|
    ensures from <= h <= |groups|
    ensures h < |groups| ==> FirstRunnable(groups[h], state) < |groups[h]|
    ensures forall p :: from <= p < h ==> FirstRunnable(groups[p], state) == |groups[p]|
    decreases |groups| - from
  {
    if from == |groups| then from
    else if FirstRunnable(groups[from], state) < |groups[from]| then from
    else PickGroup(groups, state, from + 1)
  }

  /**
   * Groups without a RUNNABLE task are skipped: a scan from `lo` finds
   * what a scan from `hi` finds when nothing in between is RUNNABLE.
   */
  lemma {:induction false} PickSkips(groups: seq<seq<Task>>, state: map<Task, State>, lo: nat, hi: nat)
    requires lo <= hi <= |groups|
    requires forall p :: lo <= p < hi ==> FirstRunnable(groups[p], state) == |groups[p]|
    ensures PickGroup(groups, state, lo) == PickGroup(groups, state, hi)
    decreases hi
  {
    if lo < hi {
      PickSkips(groups, state, lo, hi - 1);
    }
  }

  /** The groups after `STAILQ_REMOVE_HEAD` and `STAILQ_INSERT_TAIL` of `cur` on group `p`. */
  function Rotate(groups: seq<seq<Task>>, p: nat, cur: Task): (g: seq<seq<Task>>)
    requires p < |groups| && groups[p] != [] && groups[p][0] == cur
    ensures |g| == |groups| && |g[p]| == |groups[p]| && g[p][|g[p]| - 1] == cur
    ensures forall i :: 0 <= i < |g[p]| - 1 ==> g[p][i] == groups[p][i + 1]
    ensures forall q :: 0 <= q < |g| && q != p ==> g[q] == groups[q]
  {
    groups[p := groups[p][1..] + [cur]]
  }

  /** The position of the first `t` in `q`. */
  function Position(q: seq<Task>, t: Task): (i: nat)
    requires t in q
    ensures i < |q| && q[i] == t
    ensures forall j :: 0 <= j < i ==> q[j] != t
  {
    if q[0] == t then 0 else 1 + Position(q[1..], t)
  }

  /**
   * The corrected rotation: `STAILQ_REMOVE` of `cur` from group `p`,
   * wherever it sits, then `STAILQ_INSERT_TAIL`. The tasks before it keep
   * their places, the ones after it move up by one, and no task is lost
   * or doubled.
   */
  function MoveToTail(groups: seq<seq<Task>>, p: nat, cur: Task): (g: seq<seq<Task>>)
    requires p < |groups| && cur in groups[p]
    ensures |g| == |groups| && |g[p]| == |groups[p]| && g[p][|g[p]| - 1] == cur
    ensures multiset(g[p]) == multiset(groups[p])
    ensures var k := Position(groups[p], cur);
      && (forall i :: 0 <= i < k ==> g[p][i] == groups[p][i])
      && (forall i :: k <= i < |g[p]| - 1 ==> g[p][i] == groups[p][i + 1])
    ensures forall q :: 0 <= q < |g| && q != p ==> g[q] == groups[q]
  {
    var q := groups[p];
    var k := Position(q, cur);
    assert q == q[..k] + [cur] + q[k + 1..];
    groups[p := q[..k] + q[k + 1..] + [cur]]
  }

  /** Where the current task is the head of its group, the corrected rotation is the one written. */
  lemma MoveToTailAtHead(groups: seq<seq<Task>>, p: nat, cur: Task)
    requires p < |groups| && groups[p] != [] && groups[p][0] == cur
    ensures MoveToTail(groups, p, cur) == Rotate(groups, p, cur)
  {
    assert Position(groups[p], cur) == 0;
    assert groups[p][..0] + groups[p][1..] == groups[p][1..];
  }

  /** The 16 words `os_init_task` writes at the stack pointer of a new task. */
  function LegacyFrame(task: Task, blocker: nat, runner: nat): (f: seq<int>)
    requires task < Tasks.TWO32 && blocker < Tasks.TWO32 && runner < Tasks.TWO32
    ensures |f| == 16
  {
    seq(16, i => if i == 8 then Tasks.Signed32(task) else if i == 13 then Tasks.Signed32(blocker)
                 else if i == 14 then Tasks.Signed32(runner) else if i == 15 then Tasks.THUMB_BIT else 0)
  }

  /**
   * The control block `os_init_task` leaves behind: the stack pointer
   * 64 bytes below the end of the stack, with no rounding, and the size
   * as given. The wake-up time is a field it does not write.
   */
  function LegacyTcb(task: Task, name: nat, base: nat, size: nat, prio: Priority, func: nat, params: nat,
                     id: nat, wakeup: nat, blocker: nat, runner: nat): OldTcb
    requires task < Tasks.TWO32 && blocker < Tasks.TWO32 && runner < Tasks.TWO32 && size >= Tasks.FRAME_BYTES
  {
    OldTcb(id, name, func, params, prio, wakeup, base, (base + size - Tasks.FRAME_BYTES) % Tasks.TWO32, size,
           LegacyFrame(task, blocker, runner))
  }

  /** A stack that does not reach the end of the address space holds the frame at its very end. */
  lemma LegacyFrameAtEnd(task: Task, name: nat, base: nat, size: nat, prio: Priority, func: nat, params: nat,
                         id: nat, wakeup: nat, blocker: nat, runner: nat)
    requires task < Tasks.TWO32 && blocker < Tasks.TWO32 && runner < Tasks.TWO32 && size >= Tasks.FRAME_BYTES
    requires base + size < Tasks.TWO32
    ensures var t := LegacyTcb(task, name, base, size, prio, func, params, id, wakeup, blocker, runner);
      base <= t.stack && t.stack + Tasks.FRAME_BYTES == base + t.stackSize
  {
  }

  /**
   * The loop of `os_init_task` that zeroes the frame, then the words it
   * sets: the task's address, the return address of the blocking handler,
   * the address of `__os_task_runner` and the Thumb bit.
   */
  method NewLegacyFrame(task: Task, blocker: nat, runner: nat) returns (f: seq<int>)
    requires task < Tasks.TWO32 && blocker < Tasks.TWO32 && runner < Tasks.TWO32
    ensures f == LegacyFrame(task, blocker, runner)
    ensures f[8] == Tasks.Signed32(task) && f[13] == Tasks.Signed32(blocker)
    ensures f[14] == Tasks.Signed32(runner) && f[15] == Tasks.THUMB_BIT
    ensures forall i :: 0 <= i < 8 || 8 < i < 13 ==> f[i] == 0
  {
    var frame := new int[16];
    for i := 0 to 16
      invariant forall j :: 0 <= j < i ==> frame[j] == 0
    {
      frame[i] := 0;
    }
    frame[8] := Tasks.Signed32(task);
    frame[13] := Tasks.Signed32(blocker);
    frame[14] := Tasks.Signed32(runner);
    frame[15] := Tasks.THUMB_BIT;
    f := frame[..];
  }

  /** The inner loop of `get_highest_prio_task`: walks one group for a RUNNABLE task. */
  method ScanGroup(q: seq<Task>, state: map<Task, State>) returns (j: nat)
    ensures j == FirstRunnable(q, state)
  {
    j := 0;
    while j < |q| && !(q[j] in state && state[q[j]] == Runnable)
      invariant j <= |q|
      invariant FirstRunnable(q[j..], state) + j == FirstRunnable(q, state)
      decreases |q| - j
    {
      assert q[j..][1..] == q[j + 1..];
      j := j + 1;
    }
  }

  /**
   * The scan of `get_highest_prio_task`: from group `from` upward, the
   * first group with a RUNNABLE task, whose first RUNNABLE task is the
   * result, and the group scanned `last`, which becomes the hint.
   */
  method Scan(groups: seq<seq<Task>>, state: map<Task, State>, from: nat) returns (r: Option<Task>, last: nat)
    requires |groups| == NUM_PRIO_GROUPS && from < NUM_PRIO_GROUPS
    ensures last < NUM_PRIO_GROUPS
    ensures var h := PickGroup(groups, state, from);
      && (r.None? <==> h == NUM_PRIO_GROUPS)
      && (r.Some? ==> last == h && r.value == groups[h][FirstRunnable(groups[h], state)])
      && (r.None? ==> last == NUM_PRIO_GROUPS - 1)
  {
    var i := from;
    last := from;
    while i < NUM_PRIO_GROUPS
      invariant from <= i <= NUM_PRIO_GROUPS && last < NUM_PRIO_GROUPS
      invariant i > from ==> last == i - 1
      invariant PickGroup(groups, state, i) == PickGroup(groups, state, from)
      decreases NUM_PRIO_GROUPS - i
    {
      last := i;
      var j := ScanGroup(groups[i], state);
      if j < |groups[i]| {
        return Some(groups[i][j]), last;
      }
      i := i + 1;
    }
    r := None;
  }

  /** The globals of src/os.c. */
  class LegacyKernel {
    /** The control blocks, by address, but for their `state` field. */
    var tcb: map<Task, OldTcb>
    /** The `state` field of every control block. */
    var state: map<Task, State>
    /** `task_groups`, each a tail queue linked through `tq_el`. */
    var groups: seq<seq<Task>>
    /** `highest_prio_group`. */
    var highest: nat
    /** `delayed_tasks`, linked through `dtl_el`. */
    var delayed: seq<Task>
    /** `current_task`. */
    var current: Option<Task>
    /** `os_tick_count`. */
    var tick: nat
    /** The static `uint8_t task_id` of `os_init_task`. */
    var nextId: nat
    /** The PENDSVSET request bit. */
    var pendSv: bool
    /** The NMIPENDSET bit a failed scan raises. */
    var nmiPending: bool
    /** The addresses of `__os_blocking_handler` and `__os_task_runner`. */
    const blocker: nat
    const runner: nat

    ghost predicate Valid()
      reads this`tcb, this`state, this`groups, this`highest, this`delayed, this`current, this`nextId
    {
      && |groups| == NUM_PRIO_GROUPS
      && highest < NUM_PRIO_GROUPS
      && (forall p :: 0 <= p < NUM_PRIO_GROUPS ==> Within(groups[p], tcb))
      && Within(delayed, tcb)
      && Sorted(DelayKeys(delayed, tcb))
      && (current.Some? ==> current.value in tcb && current.value in state)
      && nextId < 256
      && blocker < Tasks.TWO32 && runner < Tasks.TWO32
    }

    /** The current task is the head of its group, which the rotation takes for granted. */
    ghost predicate CurrentAtHead()
      reads this`tcb, this`groups, this`current
    {
      && current.Some? && current.value in tcb
      && var p := tcb[current.value].priority;
      p < |groups| && groups[p] != [] && groups[p][0] == current.value
    }

    /** The current task is somewhere in the group of its priority. */
    ghost predicate CurrentInGroup()
      reads this`tcb, this`groups, this`current
    {
      && current.Some? && current.value in tcb
      && var p := tcb[current.value].priority;
      p < |groups| && current.value in groups[p]
    }

    /** Every task sits in the group of its own priority, as `os_add_task` puts it there. */
    ghost predicate GroupsByPriority()
      reads this`tcb, this`groups
    {
      forall p, i :: 0 <= p < |groups| && 0 <= i < |groups[p]| ==>
        groups[p][i] in tcb && tcb[groups[p][i]].priority == p
    }

    /** The zero-initialised globals. */
    constructor (blocker: nat, runner: nat)
      requires blocker < Tasks.TWO32 && runner < Tasks.TWO32
      ensures Valid() && tcb == map[] && state == map[] && groups == Scheduler.EmptyGroups() && delayed == []
      ensures current == None && tick == 0 && highest == 0 && nextId == 0 && !pendSv && !nmiPending
      ensures this.blocker == blocker && this.runner == runner
    {
      tcb := map[];
      state := map[];
      groups := Scheduler.EmptyGroups();
      highest := 0;
      delayed := [];
      current := None;
      tick := 0;
      nextId := 0;
      pendSv := false;
      nmiPending := false;
      this.blocker := blocker;
      this.runner := runner;
    }

    /**
     * `os_init_task`: returns without a word, changing nothing, for a
     * priority above 15 or a stack under 64 bytes; otherwise takes the next
     * id, wrapping at 256, fills the block and the frame, and makes the
     * task RUNNABLE.
     */
    method InitTask(task: Task, name: nat, base: nat, size: nat, prio: nat, func: nat, params: nat)
      requires Valid() && task < Tasks.TWO32 && task !in delayed && prio < 256
      modifies this`tcb, this`state, this`nextId
      ensures Valid()
      ensures prio > IDLE_TASK_PRIO || size < Tasks.FRAME_BYTES ==>
        tcb == old(tcb) && state == old(state) && nextId == old(nextId)
      ensures prio <= IDLE_TASK_PRIO && size >= Tasks.FRAME_BYTES ==>
        var wakeup := if task in old(tcb) then old(tcb)[task].wakeupTime else 0;
        && tcb == old(tcb)[task := LegacyTcb(task, name, base, size, prio, func, params, old(nextId), wakeup, blocker, runner)]
        && state == old(state)[task := Runnable]
        && nextId == (old(nextId) + 1) % 256
    {
      if prio > IDLE_TASK_PRIO || size < Tasks.FRAME_BYTES {
        return;
      }
      var frame := NewLegacyFrame(task, blocker, runner);
      var wakeup := if task in tcb then tcb[task].wakeupTime else 0;
      var t := OldTcb(nextId, name, func, params, prio, wakeup, base, (base + size - Tasks.FRAME_BYTES) % Tasks.TWO32,
                      size, frame);
      assert DelayKeys(delayed, tcb[task := t]) == DelayKeys(delayed, tcb);
      nextId := (nextId + 1) % 256;
      tcb := tcb[task := t];
      state := state[task := Runnable];
    }

    /**
     * `os_add_task`: the task joins the tail of its group. The hint is left
     * as it is, so a task added below it is not found until a wake-up
     * lowers the hint.
     */
    method AddTask(task: Task)
      requires Valid() && task in tcb
      modifies this`groups
      ensures Valid()
      ensures var p := tcb[task].priority; groups == old(groups)[p := old(groups)[p] + [task]]
    {
      var p := tcb[task].priority;
      groups := groups[p := groups[p] + [task]];
    }

    /**
     * The walk of `os_task_delay`: `task` goes in front of the first
     * delayed task that is `Later` than it, which keeps the list ordered
     * by wake-up time and then by priority.
     */
    method InsertDelayed(task: Task)
      requires Valid() && task in tcb
      modifies this`delayed
      ensures Valid()
      ensures var p := UpperBound(DelayKeys(old(delayed), tcb), DelayKey(tcb[task]));
        delayed == old(delayed)[..p] + [task] + old(delayed)[p..]
    {
      var q := delayed;
      ghost var keys := DelayKeys(q, tcb);
      var t := tcb[task];
      var pos := 0;
      if q == [] {
        pos := 0;
      } else if Later(tcb[q[0]], t) {
        KeyOrder(tcb[q[0]], t);
        pos := 0;
      } else {
        KeyOrder(tcb[q[0]], t);
        // `pos` is the position after the task the walk is at.
        pos := 1;
        while pos < |q| && !Later(tcb[q[pos]], t)
          invariant 1 <= pos <= |q|
          invariant forall j :: 0 <= j < pos ==> keys[j] <= DelayKey(t)
          decreases |q| - pos
        {
          KeyOrder(tcb[q[pos]], t);
          pos := pos + 1;
        }
        if pos < |q| {
          KeyOrder(tcb[q[pos]], t);
        }
      }
      UpperBoundUnique(keys, DelayKey(t), pos);
      InsertSorted(keys, DelayKey(t));
      DelayKeysOfInsert(q, tcb, pos, task);
      delayed := q[..pos] + [task] + q[pos..];
    }

    /**
     * `os_task_delay`: the current task, which is not delayed already,
     * wakes `ticks` ticks from now; it joins the delay list, becomes
     * DELAYED and asks for a switch.
     */
    method Delay(ticks: nat)
      requires Valid() && current.Some? && current.value !in delayed
      modifies this`tcb, this`state, this`delayed, this`pendSv
      ensures Valid() && pendSv
      ensures var cur := current.value;
        var t := old(tcb)[cur].(wakeupTime := old(tick) + ticks);
        var p := UpperBound(DelayKeys(old(delayed), old(tcb)), DelayKey(t));
        && tcb == old(tcb)[cur := t]
        && state == old(state)[cur := Delayed]
        && delayed == old(delayed)[..p] + [cur] + old(delayed)[p..]
    {
      var cur := current.value;
      var t := tcb[cur].(wakeupTime := tick + ticks);
      assert DelayKeys(delayed, tcb[cur := t]) == DelayKeys(delayed, tcb);
      tcb := tcb[cur := t];
      InsertDelayed(cur);
      state := state[cur := Delayed];
      pendSv := true;
    }

    /**
     * `wakeup_tasks`: takes off the delay list exactly its due prefix,
     * `woken`, makes those tasks RUNNABLE and lowers the hint to the
     * highest of their priorities. Their run-queue places never changed.
     */
    method WakeupTasks() returns (ghost woken: seq<Task>)
      requires Valid()
      modifies this`state, this`highest, this`delayed
      ensures Valid() && Within(woken, tcb)
      ensures old(delayed) == woken + delayed
      ensures forall i :: 0 <= i < |woken| ==> tcb[woken[i]].wakeupTime <= tick
      ensures forall i :: 0 <= i < |delayed| ==> tcb[delayed[i]].wakeupTime > tick
      ensures forall t :: t in state <==> t in old(state) || t in woken
      ensures forall t :: t in state ==> state[t] == if t in woken then Runnable else old(state)[t]
      ensures highest <= old(highest) && forall i :: 0 <= i < |woken| ==> highest <= tcb[woken[i]].priority
      ensures highest == old(highest) || exists i :: 0 <= i < |woken| && highest == tcb[woken[i]].priority
    {
      woken := [];
      // The woken task whose priority the hint last dropped to.
      ghost var w := 0;
      while delayed != [] && tcb[delayed[0]].wakeupTime <= tick
        invariant Valid() && Within(woken, tcb)
        invariant old(delayed) == woken + delayed
        invariant forall i :: 0 <= i < |woken| ==> tcb[woken[i]].wakeupTime <= tick
        invariant forall t :: t in state <==> t in old(state) || t in woken
        invariant forall t :: t in state ==> state[t] == if t in woken then Runnable else old(state)[t]
        invariant highest <= old(highest) && forall i :: 0 <= i < |woken| ==> highest <= tcb[woken[i]].priority
        invariant highest == old(highest) || (0 <= w < |woken| && highest == tcb[woken[w]].priority)
        decreases |delayed|
      {
        ghost var before := highest;
        var t := WakeHead();
        if highest != before {
          w := |woken|;
        }
        assert old(delayed) == (woken + [t]) + delayed;
        woken := woken + [t];
      }
      NoneDueAfter(delayed, tcb, tick);
    }

    /**
     * One pass of `wakeup_tasks`' loop: `t`, the head of the delay list,
     * is unlinked and RUNNABLE, and the hint drops to its priority.
     */
    method WakeHead() returns (t: Task)
      requires Valid() && delayed != []
      modifies this`state, this`highest, this`delayed
      ensures Valid() && t in tcb
      ensures old(delayed) == [t] + delayed
      ensures state == old(state)[t := Runnable] && highest == Min(old(highest), tcb[t].priority)
    {
      t := delayed[0];
      state := state[t := Runnable];
      if tcb[t].priority < highest {
        highest := tcb[t].priority;
      }
      SortedSuffix(DelayKeys(delayed, tcb), 1);
      assert DelayKeys(delayed[1..], tcb) == DelayKeys(delayed, tcb)[1..];
      delayed := delayed[1..];
    }

    /**
     * `get_highest_prio_task`: rotates the current task from the head to
     * the tail of its group, then scans the groups upward from the hint,
     * leaving the hint at the group scanned last, for the first RUNNABLE
     * task. When there is none it raises the NMI and the result is `None`.
     */
    method GetHighest() returns (r: Option<Task>)
      requires Valid() && CurrentAtHead()
      modifies this`groups, this`highest, this`nmiPending
      ensures Valid()
      ensures var cur := current.value;
        var g := Rotate(old(groups), tcb[cur].priority, cur);
        var h := PickGroup(g, state, old(highest));
        && groups == g
        && (r.None? <==> h == NUM_PRIO_GROUPS)
        && (r.Some? ==> highest == h && r.value == g[h][FirstRunnable(g[h], state)] && nmiPending == old(nmiPending))
        && (r.None? ==> highest == NUM_PRIO_GROUPS - 1 && nmiPending)
    {
      var cur := current.value;
      groups := Rotate(groups, tcb[cur].priority, cur);
      var last;
      r, last := Scan(groups, state, highest);
      highest := last;
      if r.None? {
        nmiPending := true;
      }
    }

    /**
     * The common end of both handlers: the rotation and scan pick the next
     * task, which becomes current and RUNNING.
     */
    method Switch() returns (switched: bool)
      requires Valid() && CurrentAtHead()
      modifies this`state, this`groups, this`highest, this`current, this`nmiPending
      ensures Valid()
      ensures var cur := old(current).value;
        var g := Rotate(old(groups), tcb[cur].priority, cur);
        var h := PickGroup(g, old(state), old(highest));
        && groups == g
        && (switched <==> h < NUM_PRIO_GROUPS)
        && (switched ==> var next := g[h][FirstRunnable(g[h], old(state))];
              current == Some(next) && state == old(state)[next := Running] && highest == h)
        && (!switched ==> current == old(current) && state == old(state) && nmiPending)
    {
      var next := GetHighest();
      if next.None? {
        return false;
      }
      current := next;
      state := state[next.value := Running];
      switched := true;
    }

    /**
     * The PendSV handler as written: the current task becomes RUNNABLE
     * whatever its state, the rotation and scan pick the next task, and
     * that task is RUNNING. `switched` is false where the source would go
     * on with a null task.
     */
    method PendSvAsWritten() returns (switched: bool)
      requires Valid() && CurrentAtHead()
      modifies this`state, this`groups, this`highest, this`current, this`pendSv, this`nmiPending
      ensures Valid() && !pendSv
      ensures var cur := old(current).value;
        var g := Rotate(old(groups), tcb[cur].priority, cur);
        var st := old(state)[cur := Runnable];
        var h := PickGroup(g, st, old(highest));
        && groups == g
        && (switched <==> h < NUM_PRIO_GROUPS)
        && (switched ==> var next := g[h][FirstRunnable(g[h], st)];
              current == Some(next) && state == st[next := Running] && highest == h)
        && (!switched ==> current == old(current) && state == st && nmiPending)
    {
      pendSv := false;
      state := state[current.value := Runnable];
      switched := Switch();
    }

    /**
     * The corrected common end of both handlers: the current task moves to
     * the tail of its group from wherever it sits, and the scan picks the
     * next task, which becomes current and RUNNING. Tasks kept in the
     * groups of their priorities stay so, and the current task stays in its
     * group, so the next switch finds it there.
     */
    method Reschedule() returns (switched: bool)
      requires Valid() && CurrentInGroup()
      modifies this`state, this`groups, this`highest, this`current, this`nmiPending
      ensures Valid()
      ensures var cur := old(current).value;
        var g := MoveToTail(old(groups), tcb[cur].priority, cur);
        var h := PickGroup(g, old(state), old(highest));
        && groups == g
        && (switched <==> h < NUM_PRIO_GROUPS)
        && (switched ==> var next := g[h][FirstRunnable(g[h], old(state))];
              current == Some(next) && state == old(state)[next := Running] && highest == h)
        && (!switched ==> current == old(current) && state == old(state) && highest == NUM_PRIO_GROUPS - 1 && nmiPending)
      ensures old(GroupsByPriority()) ==> GroupsByPriority() && CurrentInGroup()
    {
      MoveCurrentToTail();
      switched := Pick();
    }

    /** The corrected rotation of the current task to the tail of its group. */
    method MoveCurrentToTail()
      requires Valid() && CurrentInGroup()
      modifies this`groups
      ensures Valid() && CurrentInGroup()
      ensures groups == MoveToTail(old(groups), tcb[current.value].priority, current.value)
      ensures old(GroupsByPriority()) ==> GroupsByPriority()
    {
      var cur := current.value;
      var p := tcb[cur].priority;
      ghost var before := groups;
      groups := MoveToTail(groups, p, cur);
      forall t | t in groups[p]
        ensures t in before[p]
      {
        assert t in multiset(groups[p]);
      }
    }

    /**
     * The scan of the groups from the hint: the first RUNNABLE task becomes
     * current and RUNNING, or the NMI is raised. A task taken from the group
     * of its priority is in that group.
     */
    method Pick() returns (switched: bool)
      requires Valid()
      modifies this`state, this`highest, this`current, this`nmiPending
      ensures Valid()
      ensures var h := PickGroup(groups, old(state), old(highest));
        && (switched <==> h < NUM_PRIO_GROUPS)
        && (switched ==> var next := groups[h][FirstRunnable(groups[h], old(state))];
              current == Some(next) && state == old(state)[next := Running] && highest == h)
        && (!switched ==> current == old(current) && state == old(state) && highest == NUM_PRIO_GROUPS - 1 && nmiPending)
      ensures GroupsByPriority() && old(CurrentInGroup()) ==> CurrentInGroup()
    {
      var next, last := Scan(groups, state, highest);
      highest := last;
      if next.None? {
        nmiPending := true;
        return false;
      }
      current := next;
      state := state[next.value := Running];
      switched := true;
    }

    /**
     * The PendSV handler with the state change of the newer scheduler:
     * only a RUNNING task becomes RUNNABLE, so a task that delayed or
     * stopped is not picked again; the rotation is the corrected one.
     */
    method PendSv() returns (switched: bool)
      requires Valid() && CurrentInGroup()
      modifies this`state, this`groups, this`highest, this`current, this`pendSv, this`nmiPending
      ensures Valid() && !pendSv
      ensures var cur := old(current).value;
        var g := MoveToTail(old(groups), tcb[cur].priority, cur);
        var st := if old(state)[cur] == Running then old(state)[cur := Runnable] else old(state);
        var h := PickGroup(g, st, old(highest));
        && groups == g
        && (switched <==> h < NUM_PRIO_GROUPS)
        && (switched ==> var next := g[h][FirstRunnable(g[h], st)];
              current == Some(next) && state == st[next := Running] && highest == h)
        && (!switched ==> current == old(current) && state == st && nmiPending)
      ensures old(GroupsByPriority()) ==> GroupsByPriority() && CurrentInGroup()
    {
      ghost var byPriority := GroupsByPriority();
      pendSv := false;
      if state[current.value] == Running {
        state := state[current.value := Runnable];
      }
      assert byPriority == GroupsByPriority();
      switched := Reschedule();
    }

    /**
     * The SysTick handler: counts the tick, wakes the due delayed tasks,
     * makes the current task RUNNABLE, and switches with the corrected
     * rotation.
     */
    method SysTick() returns (switched: bool, ghost woken: seq<Task>)
      requires Valid() && CurrentInGroup()
      modifies this`state, this`groups, this`highest, this`current, this`delayed, this`tick, this`nmiPending
      ensures Valid() && tick == old(tick) + 1
      ensures old(delayed) == woken + delayed && Within(woken, tcb)
      ensures forall i :: 0 <= i < |woken| ==> tcb[woken[i]].wakeupTime <= tick
      ensures forall i :: 0 <= i < |delayed| ==> tcb[delayed[i]].wakeupTime > tick
      ensures groups == MoveToTail(old(groups), tcb[old(current).value].priority, old(current).value)
      ensures switched ==> current.Some? && state[current.value] == Running
      ensures !switched ==> current == old(current) && nmiPending
      ensures old(GroupsByPriority()) ==> GroupsByPriority() && CurrentInGroup()
    {
      ghost var byPriority := GroupsByPriority();
      woken := Tick();
      assert byPriority == GroupsByPriority();
      switched := SwitchAfterTick();
    }

    /**
     * The second half of `SysTick_Handler`: the current task becomes
     * RUNNABLE whatever its state, and the corrected switch follows.
     */
    method SwitchAfterTick() returns (switched: bool)
      requires Valid() && CurrentInGroup()
      modifies this`state, this`groups, this`highest, this`current, this`nmiPending
      ensures Valid()
      ensures var cur := old(current).value;
        var g := MoveToTail(old(groups), tcb[cur].priority, cur);
        var st := old(state)[cur := Runnable];
        var h := PickGroup(g, st, old(highest));
        && groups == g
        && (switched <==> h < NUM_PRIO_GROUPS)
        && (switched ==> var next := g[h][FirstRunnable(g[h], st)];
              current == Some(next) && state == st[next := Running] && highest == h)
        && (!switched ==> current == old(current) && state == st && nmiPending)
      ensures old(GroupsByPriority()) ==> GroupsByPriority() && CurrentInGroup()
    {
      ghost var byPriority := GroupsByPriority();
      state := state[current.value := Runnable];
      assert byPriority == GroupsByPriority();
      switched := Reschedule();
    }

    /** The first half of `SysTick_Handler`: the tick count moves on and the tasks now due wake up. */
    method Tick() returns (ghost woken: seq<Task>)
      requires Valid()
      modifies this`state, this`highest, this`delayed, this`tick
      ensures Valid() && tick == old(tick) + 1
      ensures old(delayed) == woken + delayed && Within(woken, tcb)
      ensures forall i :: 0 <= i < |woken| ==> tcb[woken[i]].wakeupTime <= tick
      ensures forall i :: 0 <= i < |delayed| ==> tcb[delayed[i]].wakeupTime > tick
      ensures forall t :: t in state <==> t in old(state) || t in woken
      ensures forall t :: t in state ==> state[t] == if t in woken then Runnable else old(state)[t]
      ensures highest <= old(highest) && forall i :: 0 <= i < |woken| ==> highest <= tcb[woken[i]].priority
      ensures highest == old(highest) || exists i :: 0 <= i < |woken| && highest == tcb[woken[i]].priority
    {
      tick := tick + 1;
      woken := WakeupTasks();
    }

    /**
     * The end of `__os_task_runner`, once the task function has returned:
     * the task is STOPPED and asks for a switch.
     */
    method Exit()
      requires Valid() && current.Some?
      modifies this`state, this`pendSv
      ensures Valid() && pendSv && state == old(state)[current.value := Stopped]
    {
      state := state[current.value := Stopped];
      pendSv := true;
    }

    /**
     * `os_init`: empties the groups, sets up the idle task of priority 15
     * on the 128-byte stack at `idleStack`, makes it current and puts it at
     * the head of its group.
     */
    method OsInit(idle: Task, idleName: nat, idleFunc: nat, idleStack: nat)
      requires Valid() && idle < Tasks.TWO32 && idle !in delayed
      modifies this`tcb, this`state, this`nextId, this`groups, this`current
      ensures Valid() && CurrentAtHead()
      ensures groups == Scheduler.EmptyGroups()[IDLE_TASK_PRIO := [idle]] && current == Some(idle)
      ensures idle in tcb && tcb[idle].priority == IDLE_TASK_PRIO && state == old(state)[idle := Runnable]
      ensures var wakeup := if idle in old(tcb) then old(tcb)[idle].wakeupTime else 0;
        tcb == old(tcb)[idle := LegacyTcb(idle, idleName, idleStack, IDLE_STACK_SIZE, IDLE_TASK_PRIO, idleFunc, 0, old(nextId), wakeup, blocker, runner)]
      ensures nextId == (old(nextId) + 1) % 256
    {
      for i := 0 to NUM_PRIO_GROUPS
        invariant |groups| == NUM_PRIO_GROUPS && Valid()
        invariant forall p :: 0 <= p < i ==> groups[p] == []
        modifies this`groups
      {
        groups := groups[i := []];
      }
      assert groups == Scheduler.EmptyGroups();
      InitTask(idle, idleName, idleStack, IDLE_STACK_SIZE, IDLE_TASK_PRIO, idleFunc, 0);
      current := Some(idle);
      assert [idle] + groups[IDLE_TASK_PRIO] == [idle];
      groups := groups[IDLE_TASK_PRIO := [idle] + groups[IDLE_TASK_PRIO]];
    }

    /**
     * `os_start_tasks` without the SysTick set-up: the rotation and scan
     * pick the first task, the hint is set to its priority, and its stack
     * pointer moves past the 16-word frame. `started` is false where the
     * source would go on with a null task.
     */
    method StartTasks() returns (started: bool)
      requires Valid() && CurrentAtHead()
      modifies this`tcb, this`groups, this`highest, this`current, this`nmiPending
      ensures Valid()
      ensures var cur := old(current).value;
        var g := Rotate(old(groups), old(tcb)[cur].priority, cur);
        var h := PickGroup(g, state, old(highest));
        && groups == g
        && (started <==> h < NUM_PRIO_GROUPS)
        && (started ==> var t := g[h][FirstRunnable(g[h], state)];
              && current == Some(t) && highest == old(tcb)[t].priority
              && tcb == old(tcb)[t := old(tcb)[t].(stack := old(tcb)[t].stack + Tasks.FRAME_BYTES)])
        && (!started ==> current == old(current) && tcb == old(tcb) && nmiPending)
    {
      var next := GetHighest();
      if next.None? {
        return false;
      }
      Launch(next.value);
      started := true;
    }

    /** `t` becomes current, the hint takes its priority, and its stack pointer skips the frame. */
    method Launch(t: Task)
      requires Valid() && t in tcb && t in state
      modifies this`tcb, this`highest, this`current
      ensures Valid() && current == Some(t) && highest == old(tcb)[t].priority
      ensures tcb == old(tcb)[t := old(tcb)[t].(stack := old(tcb)[t].stack + Tasks.FRAME_BYTES)]
    {
      current := Some(t);
      highest := tcb[t].priority;
      SkipFrame(t);
    }

    /** The stack pointer of `t` moves past the 16-word frame the first switch pops. */
    method SkipFrame(t: Task)
      requires Valid() && t in tcb
      modifies this`tcb
      ensures Valid() && tcb == old(tcb)[t := old(tcb)[t].(stack := old(tcb)[t].stack + Tasks.FRAME_BYTES)]
    {
      var r := tcb[t].(stack := tcb[t].stack + Tasks.FRAME_BYTES);
      assert DelayKeys(delayed, tcb[t := r]) == DelayKeys(delayed, tcb);
      tcb := tcb[t := r];
    }
  }

  /**
   * The kernel after `os_init` with the idle task at 100, the set-up and
   * addition of a task at 200 of priority 0, and `os_start_tasks`, which
   * makes that task current.
   */
  method LegacyStarted() returns (k: LegacyKernel)
    ensures fresh(k) && k.Valid() && k.CurrentAtHead() && k.current == Some(200) && k.delayed == [] && k.highest == 0
    ensures k.groups == Scheduler.EmptyGroups()[IDLE_TASK_PRIO := [100]][0 := [200]]
    ensures k.state == map[100 := Runnable, 200 := Runnable]
    ensures 100 in k.tcb && k.tcb[100].priority == IDLE_TASK_PRIO && 200 in k.tcb && k.tcb[200].priority == 0
  {
    k := LegacyReady();
    assert k.groups[IDLE_TASK_PRIO] == [100] && k.groups[IDLE_TASK_PRIO][1..] + [100] == [100];
    var g := Rotate(k.groups, IDLE_TASK_PRIO, 100);
    assert g == k.groups;
    assert FirstRunnable(g[0], k.state) == 0;
    var started := k.StartTasks();
  }

  /** The kernel after `os_init` with the idle task at 100 and the addition of a task at 200 of priority 0. */
  method LegacyReady() returns (k: LegacyKernel)
    ensures fresh(k) && k.Valid() && k.CurrentAtHead() && k.current == Some(100) && k.delayed == [] && k.highest == 0
    ensures k.groups == Scheduler.EmptyGroups()[IDLE_TASK_PRIO := [100]][0 := [200]]
    ensures k.state == map[100 := Runnable, 200 := Runnable] 
    ensures 100 in k.tcb && k.tcb[100].priority == IDLE_TASK_PRIO && 200 in k.tcb && k.tcb[200].priority == 0
  {
    k := new LegacyKernel(0, 0);
    k.OsInit(100, 0, 0, 1000);
    k.InitTask(200, 0, 2000, 128, 0, 0, 0);
    k.AddTask(200);
    assert [] + [200] == [200];
  }

  /**
   * As written, a task that delays itself is made RUNNABLE again by the
   * PendSV handler it yields to, and is picked at once though it is still
   * on the delay list.
   */
  method DelayScenarioAsWritten() returns (next: Option<Task>, stillDelayed: bool)
    ensures next == Some(200) && stillDelayed
  {
    var k := StartedThenDelayed();
    var g := Rotate(k.groups, 0, 200);
    assert g == k.groups;
    assert FirstRunnable(g[0], k.state[200 := Runnable]) == 0;
    var switched := k.PendSvAsWritten();
    next := k.current;
    stillDelayed := 200 in k.delayed;
  }

  /** With the corrected handler the delayed task stays DELAYED and the idle task runs. */
  method DelayScenario() returns (next: Option<Task>)
    ensures next == Some(100)
  {
    var k := StartedThenDelayed();
    IdleAfterDelay(k.groups, k.state);
    var switched := k.PendSv();
    next := k.current;
  }

  /** With the only task of group 0 DELAYED, the rotation changes nothing and the scan reaches the idle task. */
  lemma IdleAfterDelay(groups: seq<seq<Task>>, state: map<Task, State>)
    requires groups == Scheduler.EmptyGroups()[IDLE_TASK_PRIO := [100]][0 := [200]]
    requires state == map[100 := Runnable, 200 := Delayed]
    ensures MoveToTail(groups, 0, 200) == groups
    ensures PickGroup(groups, state, 0) == IDLE_TASK_PRIO && FirstRunnable(groups[IDLE_TASK_PRIO], state) == 0
  {
    MoveToTailAtHead(groups, 0, 200);
    assert groups[0][1..] + [200] == [200];
    PickSkips(groups, state, 0, IDLE_TASK_PRIO);
  }

  /** The started kernel after the task at 200 delays itself for 10 ticks. */
  method StartedThenDelayed() returns (k: LegacyKernel)
    ensures fresh(k) && k.Valid() && k.CurrentAtHead() && k.current == Some(200) && k.delayed == [200] && k.highest == 0
    ensures k.groups == Scheduler.EmptyGroups()[IDLE_TASK_PRIO := [100]][0 := [200]]
    ensures k.groups[0][1..] + [200] == [200]
    ensures k.state == map[100 := Runnable, 200 := Delayed]
    ensures 100 in k.tcb && k.tcb[100].priority == IDLE_TASK_PRIO && 200 in k.tcb && k.tcb[200].priority == 0
  {
    k := LegacyStarted();
    k.Delay(10);
    assert k.groups[0] == [200] && k.groups[0][1..] + [200] == [200];
  }
}
