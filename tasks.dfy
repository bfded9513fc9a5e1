/**
 * Task management (src/tasks.c): setting up a task control block and its
 * initial stack frame, the doubly linked list of all tasks, and the task
 * state changes a task asks for (suspend, unsuspend, sleep, exit).
 *
 * Addresses are C `uint32_t` values: below 2^32, with the pointer
 * arithmetic of the source done modulo 2^32.
 */
module Tasks {
  import opened Support
  import opened TaskTypes
  import opened Ordered
  import opened Scheduler

  const TWO32: nat := 0x1_0000_0000

  /** `DEFAULT_EXC_RET`: return to thread mode on the process stack, no FPU state. */
  const DEFAULT_EXC_RET: nat := 0xffff_fffd

  /** `IDLE_TASK_STACK_SIZE` on a core without an FPU. */
  const IDLE_TASK_STACK_SIZE: nat := 128

  /** The bytes of the 16-word frame the first switch to a task pops. */
  const FRAME_BYTES: nat := 64

  /** `1 << 24`: the Thumb bit of the EPSR word of the initial frame. */
  const THUMB_BIT: int := 0x100_0000

  /** `(int) x` for a 32-bit address `x`. */
  function Signed32(x: nat): (r: int)
    requires x < TWO32
    ensures -0x8000_0000 <= r < 0x8000_0000
  {
    if x < 0x8000_0000 then x else x - TWO32
  }

  /** `((uint32_t) stack_base + stack_size) & ~0b111`. */
  function StackTop(base: nat, size: nat): (top: nat)
    ensures top % 8 == 0 && top < TWO32
    ensures (base + size) % TWO32 - 8 < top <= (base + size) % TWO32
  {
    var end := (base + size) % TWO32;
    end - end % 8
  }

  /** The 16 words of a new task's initial frame. */
  function InitialFrame(task: Task, runner: nat): (f: seq<int>)
    requires task < TWO32 && runner < TWO32
    ensures |f| == 16
  {
    seq(16, i => if i == 8 then Signed32(task) else if i == 14 then Signed32(runner) else if i == 15 then THUMB_BIT else 0)
  }

  /**
   * The control block `os_task_init` leaves behind: the stack top rounded
   * down to 8 bytes, the usable stack size measured from the base to that
   * top, the stack pointer 64 bytes below the top, where the initial frame
   * is. The wake-up time is a field `os_task_init` does not write.
   */
  function FreshTcb(task: Task, name: nat, base: nat, size: nat, prio: nat, func: nat, params: nat,
                    id: nat, wakeup: nat, runner: nat): Tcb
    requires task < TWO32 && runner < TWO32
  {
    var top := StackTop(base, size);
    Tcb(id, name, func, params, prio, wakeup, base, (top - FRAME_BYTES) % TWO32, (top - base) % TWO32,
        InitialFrame(task, runner), DEFAULT_EXC_RET)
  }

  /**
   * `os_get_stack_max_size`: the size of the stack in bytes, where
   * `StackCurrSize` counts words.
   */
  function StackMaxSize(t: Tcb): (r: nat)
    ensures r == t.stackSize
  {
    t.stackSize
  }

  /**
   * `os_get_stack_curr_size`: the distance from the base to the stack
   * pointer in 4-byte words, cast to `uint32_t`. A distance that is not a
   * whole number of words is truncated toward zero; C leaves the `int *`
   * subtraction undefined there, so below the base that case is the
   * model's choice, not the compiler's.
   */
  function StackCurrSize(t: Tcb): (w: nat)
    ensures w < TWO32
    ensures 0 <= t.stack - t.stackBase < 4 * TWO32 ==> 4 * w <= t.stack - t.stackBase < 4 * w + 4
    ensures 0 < t.stackBase - t.stack < 4 * TWO32 ==> (w + (t.stackBase - t.stack) / 4) % TWO32 == 0
  {
    var bytes := t.stack - t.stackBase;
    var words := if bytes >= 0 then bytes / 4 else -((-bytes) / 4);
    words % TWO32
  }

  /**
   * While the stack pointer lies in the stack, the current size in words
   * is at most the maximum size in words.
   */
  lemma CurrWithinMax(t: Tcb)
    requires t.stackBase <= t.stack <= t.stackBase + StackMaxSize(t) < TWO32
    ensures StackCurrSize(t) <= StackMaxSize(t) / 4
  {
  }

  /**
   * Stack layout of a new task whose stack does not reach the end of the
   * address space: the top is 8-byte aligned, at most 7 bytes of the
   * given stack are cut off, and the recorded size runs from the base to
   * the top, where the initial frame ends.
   */
  lemma StackLayout(task: Task, name: nat, base: nat, size: nat, prio: nat, func: nat, params: nat,
                    id: nat, wakeup: nat, runner: nat)
    requires task < TWO32 && runner < TWO32
    requires base + size < TWO32 && size >= FRAME_BYTES
    ensures var t := FreshTcb(task, name, base, size, prio, func, params, id, wakeup, runner);
      && (t.stackBase + t.stackSize) % 8 == 0
      && size - 8 < StackMaxSize(t) <= size
      && t.stack + FRAME_BYTES == t.stackBase + t.stackSize
  {
  }

  /**
   * When the aligned stack holds the frame, the frame lies inside the
   * stack the caller gave, and a new task's current stack size is the
   * rest of its stack, in words.
   */
  lemma FrameInsideStack(task: Task, name: nat, base: nat, size: nat, prio: nat, func: nat, params: nat,
                         id: nat, wakeup: nat, runner: nat)
    requires task < TWO32 && runner < TWO32 && base + size < TWO32 && size >= FRAME_BYTES
    requires (StackTop(base, size) - base) % TWO32 >= FRAME_BYTES
    ensures var t := FreshTcb(task, name, base, size, prio, func, params, id, wakeup, runner);
      && base <= t.stack && t.stack + FRAME_BYTES <= base + size
      && StackCurrSize(t) == (StackMaxSize(t) - FRAME_BYTES) / 4
  {
    var t := FreshTcb(task, name, base, size, prio, func, params, id, wakeup, runner);
    var top := StackTop(base, size);
    assert base <= top;
    assert t.stack == top - FRAME_BYTES && t.stackSize == top - base;
  }

  /** A stack whose base is 8-byte aligned passes `os_task_init`'s check only if the frame fits it. */
  lemma AlignedBaseFits(base: nat, size: nat)
    requires base % 8 == 0 && base + size < TWO32 && size >= FRAME_BYTES
    ensures (StackTop(base, size) - base) % TWO32 >= FRAME_BYTES
  {
  }

  /** The idle task's 128-byte stack holds its initial frame, whatever its alignment. */
  lemma IdleStackFits(base: nat)
    requires base + IDLE_TASK_STACK_SIZE < TWO32
    ensures (StackTop(base, IDLE_TASK_STACK_SIZE) - base) % TWO32 >= FRAME_BYTES
  {
    var top := StackTop(base, IDLE_TASK_STACK_SIZE);
    assert base + IDLE_TASK_STACK_SIZE - 8 < top;
    assert 0 <= top - base < TWO32;
  }

  /**
   * The loop of `os_task_init` that zeroes the 16 words of the initial
   * frame, then the three words it sets: the task's address, which
   * `__task_runner` receives as its argument, the address of
   * `__task_runner` as the return address, and the Thumb bit of the EPSR.
   */
  method NewFrame(task: Task, runner: nat) returns (f: seq<int>)
    requires task < TWO32 && runner < TWO32
    ensures |f| == 16 && f == InitialFrame(task, runner)
    ensures f[8] == Signed32(task) && f[14] == Signed32(runner) && f[15] == THUMB_BIT
    ensures forall i :: 0 <= i < 8 || 8 < i < 14 ==> f[i] == 0
  {
    var frame := new int[16];
    for i := 0 to 16
      invariant forall j :: 0 <= j < i ==> frame[j] == 0
    {
      frame[i] := 0;
    }
    frame[8] := Signed32(task);
    frame[14] := Signed32(runner);
    frame[15] := THUMB_BIT;
    f := frame[..];
  }

  /**
   * The doubly linked all-tasks list: `all` without repetition, `first` and
   * `last` at its ends, and `prev`/`next` linking each task to its
   * neighbours, with `None` beyond the ends.
   */
  ghost predicate Linked(all: seq<Task>, first: Option<Task>, last: Option<Task>,
                         prev: map<Task, Option<Task>>, next: map<Task, Option<Task>>)
  {
    && (forall i, j :: 0 <= i < j < |all| ==> all[i] != all[j])
    && first == (if all == [] then None else Some(all[0]))
    && last == (if all == [] then None else Some(all[|all| - 1]))
    && (forall i :: 0 <= i < |all| ==> all[i] in prev && all[i] in next)
    && (forall i, j :: 0 <= i && j == i + 1 && j < |all| ==> next[all[i]] == Some(all[j]) && prev[all[j]] == Some(all[i]))
    && (all != [] ==> prev[all[0]] == None && next[all[|all| - 1]] == None)
  }

  /** Linking a new task after `last`, as `os_task_add` does, appends it to the list. */
  lemma LinkedAppend(all: seq<Task>, first: Option<Task>, last: Option<Task>,
                     prev: map<Task, Option<Task>>, next: map<Task, Option<Task>>, t: Task)
    requires Linked(all, first, last, prev, next) && t !in all
    ensures Linked(all + [t], if all == [] then Some(t) else first, Some(t), prev[t := last],
                   (if all == [] then next else next[last.value := Some(t)])[t := None])
  {
    var a: seq<Task> := all + [t];
    var prev': map<Task, Option<Task>> := prev[t := last];
    var next': map<Task, Option<Task>> := (if all == [] then next else next[last.value := Some(t)])[t := None];
    assert forall i :: 0 <= i < |all| ==> a[i] == all[i];
    forall i | 0 < i < |a|
      ensures prev'[a[i]] == Some(a[i - 1])
    {
      if i < |all| {
        assert a[i] == all[i] != t;
      }
    }
    forall i | 0 <= i < |a| - 1
      ensures next'[a[i]] == Some(a[i + 1])
    {
      if i < |all| - 1 {
        assert all[i] != all[|all| - 1];
      }
    }
  }

  /** After unlinking the task at position `i`, each task but the first points back to the one before it. */
  lemma UnlinkedPrev(all: seq<Task>, first: Option<Task>, last: Option<Task>,
                     prev: map<Task, Option<Task>>, next: map<Task, Option<Task>>, i: nat)
    requires Linked(all, first, last, prev, next) && i < |all|
    ensures var t := all[i];
      var n := next[t];
      var prev1 := (if n.Some? then prev[n.value := prev[t]] else prev)[t := None];
      var a := all[..i] + all[i + 1..];
      forall j :: 0 < j < |a| ==> a[j] in prev1 && prev1[a[j]] == Some(a[j - 1])
  {
    var t := all[i];
    var n := next[t];
    var prev1 := (if n.Some? then prev[n.value := prev[t]] else prev)[t := None];
    var a: seq<Task> := all[..i] + all[i + 1..];
    assert prev[t] == if i == 0 then None else Some(all[i - 1]);
    assert n == if i == |all| - 1 then None else Some(all[i + 1]);
    forall j | 0 < j < |a|
      ensures a[j] in prev1 && prev1[a[j]] == Some(a[j - 1])
    {
      if j < i {
        assert a[j] == all[j] && a[j - 1] == all[j - 1];
        assert all[j] != all[i] && (i + 1 < |all| ==> all[j] != all[i + 1]);
      } else if j > i {
        assert a[j] == all[j + 1] && a[j - 1] == all[j];
        assert all[j + 1] != all[i];
      } else {
        assert a[j] == all[j + 1] && a[j - 1] == all[j - 1];
      }
    }
  }

  /** After unlinking the task at position `i`, each task but the last points on to the one after it. */
  lemma UnlinkedNext(all: seq<Task>, first: Option<Task>, last: Option<Task>,
                     prev: map<Task, Option<Task>>, next: map<Task, Option<Task>>, i: nat)
    requires Linked(all, first, last, prev, next) && i < |all|
    ensures var t := all[i];
      var p := prev[t];
      var next1 := (if p.Some? then next[p.value := next[t]] else next)[t := None];
      var a := all[..i] + all[i + 1..];
      forall j :: 0 <= j < |a| - 1 ==> a[j] in next1 && next1[a[j]] == Some(a[j + 1])
  {
    var t := all[i];
    var p := prev[t];
    var next1 := (if p.Some? then next[p.value := next[t]] else next)[t := None];
    var a: seq<Task> := all[..i] + all[i + 1..];
    assert p == if i == 0 then None else Some(all[i - 1]);
    assert next[t] == if i == |all| - 1 then None else Some(all[i + 1]);
    forall j | 0 <= j < |a| - 1
      ensures a[j] in next1 && next1[a[j]] == Some(a[j + 1])
    {
      if j < i - 1 {
        assert a[j] == all[j] && a[j + 1] == all[j + 1];
        assert all[j] != all[i] && all[j] != all[i - 1];
      } else if j >= i {
        assert a[j] == all[j + 1] && a[j + 1] == all[j + 2];
        assert all[j + 1] != all[i] && (i == 0 || all[j + 1] != all[i - 1]);
      } else {
        assert a[j] == all[j] && a[j + 1] == all[j + 2];
      }
    }
  }

  /**
   * Unlinking the task at position `i`, as `__task_runner` does when the
   * task function returns, removes exactly that task from the list.
   */
  lemma LinkedRemove(all: seq<Task>, first: Option<Task>, last: Option<Task>,
                     prev: map<Task, Option<Task>>, next: map<Task, Option<Task>>, i: nat)
    requires Linked(all, first, last, prev, next) && i < |all|
    ensures var t := all[i];
      var p := prev[t];
      var n := next[t];
      var prev1 := if n.Some? then prev[n.value := p] else prev;
      var next1 := if p.Some? then next[p.value := n] else next;
      && t !in all[..i] + all[i + 1..]
      && Linked(all[..i] + all[i + 1..], if p.None? then n else first, if n.None? then p else last,
                prev1[t := None], next1[t := None])
  {
    var t := all[i];
    var p := prev[t];
    var n := next[t];
    var a: seq<Task> := all[..i] + all[i + 1..];
    assert forall j :: 0 <= j < |a| ==> a[j] == if j < i then all[j] else all[j + 1];
    assert p == if i == 0 then None else Some(all[i - 1]);
    assert n == if i == |all| - 1 then None else Some(all[i + 1]);
    UnlinkedPrev(all, first, last, prev, next, i);
    UnlinkedNext(all, first, last, prev, next, i);
    if a != [] {
      if i == 0 {
        assert all[1] != all[0];
      } else {
        assert all[0] != all[i] && (i == 1 || all[0] != all[i - 1]);
      }
      if i == |all| - 1 {
        assert all[|all| - 2] != all[i];
      } else {
        assert all[|all| - 1] != all[i] && (i + 1 == |all| - 1 || all[|all| - 1] != all[i + 1]);
      }
    }
  }

  /**
   * Writes the control block `t` and the state `st` of `task`. The sleep
   * queue keeps its order when `task` keeps its wake-up time or is not
   * asleep.
   */
  method Store(s: Scheduler, task: Task, t: Tcb, st: TaskState)
    requires s.Valid() && t.priority < NUM_PRIO_LEVELS
    requires task !in s.sleepQueue || (task in s.tcb && t.wakeupTime == s.tcb[task].wakeupTime)
    modifies s`tcb, s`state
    ensures s.Valid()
    ensures s.tcb == old(s.tcb)[task := t] && s.state == old(s.state)[task := st]
    ensures Wakeups(s.sleepQueue, s.tcb) == Wakeups(s.sleepQueue, old(s.tcb))
  {
    if task !in s.sleepQueue {
      WakeupsOfOther(s.sleepQueue, s.tcb, task, t);
    } else {
      WakeupsOfUpdate(s.sleepQueue, s.tcb, task, t);
    }
    s.tcb := s.tcb[task := t];
    s.state := s.state[task := st];
  }

  /**
   * `all_tasks`, the doubly linked list of every added task, together with
   * the `tasklist_prev`/`tasklist_next` fields of all control blocks.
   */
  class AllTasks {
    /** `all_tasks.first` and `all_tasks.last`. */
    var first: Option<Task>
    var last: Option<Task>
    /** The `tasklist_prev` and `tasklist_next` field of each control block. */
    var prev: map<Task, Option<Task>>
    var next: map<Task, Option<Task>>
    /** The tasks on the list, first to last. */
    ghost var Tasks: seq<Task>

    ghost predicate Valid()
      reads this
    {
      Linked(Tasks, first, last, prev, next)
    }

    /** The empty list of the zero-initialised globals. */
    constructor ()
      ensures Valid() && Tasks == [] && prev == map[] && next == map[]
    {
      first := None;
      last := None;
      prev := map[];
      next := map[];
      Tasks := [];
    }

    /** `os_task_init`'s clearing of the links of a task that is not on the list. */
    method ClearLinks(task: Task)
      requires Valid() && task !in Tasks
      modifies this`prev, this`next
      ensures Valid()
      ensures prev == old(prev)[task := None] && next == old(next)[task := None]
    {
      prev := prev[task := None];
      next := next[task := None];
    }

    /** The linking half of `os_task_add`: `task` becomes the last of the list. */
    method Append(task: Task)
      requires Valid() && task !in Tasks
      modifies this
      ensures Valid() && Tasks == old(Tasks) + [task]
      ensures first == (if old(first) == None then Some(task) else old(first)) && last == Some(task)
      ensures prev == old(prev)[task := old(last)]
      ensures next == (if old(last) == None then old(next) else old(next)[old(last).value := Some(task)])[task := None]
    {
      LinkedAppend(Tasks, first, last, prev, next, task);
      if first == None {
        first := Some(task);
        last := Some(task);
        next := next[task := None];
        prev := prev[task := None];
      } else {
        next := next[last.value := Some(task)];
        prev := prev[task := last];
        next := next[task := None];
        last := Some(task);
      }
      Tasks := Tasks + [task];
    }

    /**
     * The unlinking in `__task_runner`: mends the neighbours' links, or
     * `first`/`last` where `task` was at an end, and clears the task's own.
     */
    method Unlink(task: Task)
      requires Valid() && task in Tasks
      modifies this
      ensures Valid()
      ensures exists i :: 0 <= i < |old(Tasks)| && old(Tasks)[i] == task && Tasks == old(Tasks)[..i] + old(Tasks)[i + 1..]
      ensures task !in Tasks && task in prev && prev[task] == None && task in next && next[task] == None
    {
      ghost var i :| 0 <= i < |Tasks| && Tasks[i] == task;
      LinkedRemove(Tasks, first, last, prev, next, i);
      var p := prev[task];
      var n := next[task];
      if n == None {
        last := p;
      }
      if p == None {
        first := n;
      }
      if n != None {
        prev := prev[n.value := p];
      }
      if p != None {
        next := next[p.value := n];
      }
      next := next[task := None];
      prev := prev[task := None];
      Tasks := Tasks[..i] + Tasks[i + 1..];
    }
  }

  /**
   * The globals of src/tasks.c and the scheduler they drive: the all-tasks
   * list, the task id counter and `os_is_initialized`.
   */
  class Kernel {
    const sched: Scheduler
    const tasks: AllTasks
    /** The address of `__task_runner`, where every new task starts. */
    const runner: nat
    /** The static `uint8_t task_id` of `os_task_init`. */
    var nextId: nat
    /** `os_is_initialized`. */
    var initialized: bool

    /**
     * The list is well formed, holds known tasks none of which is STOPPED,
     * and is empty until `os_init` has run.
     */
    ghost predicate Valid()
      reads this, tasks, sched`tcb, sched`state, sched`groups, sched`sleepQueue, sched`current, sched`highest
    {
      && sched.Valid()
      && tasks.Valid()
      && runner < TWO32
      && (forall t :: t in tasks.Tasks ==> t in sched.tcb && sched.state[t] != Stopped)
      && (!initialized ==> tasks.Tasks == [])
      && nextId < 256
    }

    /** The kernel before `os_init`: no tasks and a zeroed scheduler. */
    constructor (runner: nat)
      requires runner < TWO32
      ensures Valid() && fresh(sched) && fresh(tasks) && this.runner == runner
      ensures tasks.Tasks == [] && !initialized && nextId == 0
      ensures sched.tcb == map[] && sched.groups == EmptyGroups() && sched.current == None && sched.highest == 0
    {
      sched := new Scheduler();
      tasks := new AllTasks();
      this.runner := runner;
      nextId := 0;
      initialized := false;
    }

    /**
     * The part of `os_task_init` after its argument check: takes the next
     * id, wrapping at 256, clears the links, stores the arguments and the
     * initial frame, and makes the task STOPPED.
     */
    method Fill(task: Task, name: nat, base: nat, size: nat, prio: nat, func: nat, params: nat)
      requires Valid() && task !in tasks.Tasks && task < TWO32 && prio < NUM_PRIO_LEVELS
      modifies this`nextId, tasks`prev, tasks`next, sched`tcb, sched`state
      ensures Valid()
      ensures var wakeup := if task in old(sched.tcb) then old(sched.tcb)[task].wakeupTime else 0;
        && sched.tcb == old(sched.tcb)[task := FreshTcb(task, name, base, size, prio, func, params, old(nextId), wakeup, runner)]
        && sched.state == old(sched.state)[task := Stopped]
        && nextId == (old(nextId) + 1) % 256
        && tasks.prev == old(tasks.prev)[task := None] && tasks.next == old(tasks.next)[task := None]
    {
      var frame := NewFrame(task, runner);
      var top := StackTop(base, size);
      var wakeup := if task in sched.tcb then sched.tcb[task].wakeupTime else 0;
      var t := Tcb(nextId, name, func, params, prio, wakeup, base, (top - FRAME_BYTES) % TWO32, (top - base) % TWO32,
                   frame, DEFAULT_EXC_RET);
      assert t == FreshTcb(task, name, base, size, prio, func, params, nextId, wakeup, runner);
      nextId := (nextId + 1) % 256;
      tasks.ClearLinks(task);
      Store(sched, task, t, Stopped);
    }

    /**
     * `os_task_init` as written: refuses, changing nothing, a priority
     * above 15 or a stack under 64 bytes, and otherwise sets the task up.
     * The size is checked before the top is rounded down, so a stack that
     * passes can hold less than the 64-byte frame.
     */
    method TaskInitAsWritten(task: Task, name: nat, base: nat, size: nat, prio: nat, func: nat, params: nat)
        returns (ok: bool)
      requires Valid() && task !in tasks.Tasks
      requires task < TWO32 && base < TWO32 && size < TWO32 && prio < 256
      modifies this`nextId, tasks`prev, tasks`next, sched`tcb, sched`state
      ensures Valid()
      ensures ok <==> prio < NUM_PRIO_LEVELS && size >= FRAME_BYTES
      ensures ok ==> var wakeup := if task in old(sched.tcb) then old(sched.tcb)[task].wakeupTime else 0;
        && sched.tcb == old(sched.tcb)[task := FreshTcb(task, name, base, size, prio, func, params, old(nextId), wakeup, runner)]
        && sched.state == old(sched.state)[task := Stopped]
        && nextId == (old(nextId) + 1) % 256
        && tasks.prev == old(tasks.prev)[task := None] && tasks.next == old(tasks.next)[task := None]
      ensures !ok ==> (sched.tcb == old(sched.tcb) && sched.state == old(sched.state) && nextId == old(nextId)
        && tasks.prev == old(tasks.prev) && tasks.next == old(tasks.next))
    {
      if prio > NUM_PRIO_LEVELS - 1 || size < FRAME_BYTES {
        return false;
      }
      Fill(task, name, base, size, prio, func, params);
      ok := true;
    }

    /**
     * `os_task_init` with the size checked after rounding: a stack is
     * refused also when its aligned part cannot hold the initial frame, so
     * the frame always lies inside the stack the caller gave.
     */
    method TaskInit(task: Task, name: nat, base: nat, size: nat, prio: nat, func: nat, params: nat)
        returns (ok: bool)
      requires Valid() && task !in tasks.Tasks
      requires task < TWO32 && base < TWO32 && size < TWO32 && prio < 256
      modifies this`nextId, tasks`prev, tasks`next, sched`tcb, sched`state
      ensures Valid()
      ensures ok <==> prio < NUM_PRIO_LEVELS && size >= FRAME_BYTES && (StackTop(base, size) - base) % TWO32 >= FRAME_BYTES
      ensures ok ==> var wakeup := if task in old(sched.tcb) then old(sched.tcb)[task].wakeupTime else 0;
        && sched.tcb == old(sched.tcb)[task := FreshTcb(task, name, base, size, prio, func, params, old(nextId), wakeup, runner)]
        && sched.state == old(sched.state)[task := Stopped]
        && nextId == (old(nextId) + 1) % 256
        && tasks.prev == old(tasks.prev)[task := None] && tasks.next == old(tasks.next)[task := None]
      ensures !ok ==> (sched.tcb == old(sched.tcb) && sched.state == old(sched.state) && nextId == old(nextId)
        && tasks.prev == old(tasks.prev) && tasks.next == old(tasks.next))
    {
      if prio > NUM_PRIO_LEVELS - 1 || size < FRAME_BYTES {
        return false;
      }
      var top := StackTop(base, size);
      if (top - base) % TWO32 < FRAME_BYTES {
        return false;
      }
      Fill(task, name, base, size, prio, func, params);
      ok := true;
    }

    /**
     * `os_task_add`: only a STOPPED task is added. It becomes RUNNABLE, the
     * last task of the all-tasks list and the last of its run queue.
     */
    method TaskAdd(task: Task) returns (ok: bool)
      requires Valid() && initialized && task in sched.tcb
      modifies tasks, sched`state, sched`groups, sched`highest
      ensures Valid()
      ensures ok <==> old(sched.state)[task] == Stopped
      ensures ok ==> var p := sched.tcb[task].priority;
        && tasks.Tasks == old(tasks.Tasks) + [task]
        && sched.state == old(sched.state)[task := Runnable]
        && sched.groups == old(sched.groups)[p := old(sched.groups)[p] + [task]]
        && sched.highest == Min(old(sched.highest), p)
      ensures !ok ==> (tasks.Tasks == old(tasks.Tasks) && sched.state == old(sched.state)
        && sched.groups == old(sched.groups) && sched.highest == old(sched.highest))
    {
      if sched.state[task] != Stopped {
        return false;
      }
      sched.state := sched.state[task := Runnable];
      tasks.Append(task);
      sched.AddToRunqueueTail(task);
      ok := true;
    }

    /**
     * The end of `__task_runner`, once the task function has returned:
     * unlinks the task from the all-tasks list, makes it STOPPED and
     * requests a switch.
     */
    method Exit(task: Task)
      requires Valid() && task in tasks.Tasks
      modifies tasks, sched`state, sched`pendSv
      ensures Valid() && sched.pendSv
      ensures exists i :: (0 <= i < |old(tasks.Tasks)| && old(tasks.Tasks)[i] == task
        && tasks.Tasks == old(tasks.Tasks)[..i] + old(tasks.Tasks)[i + 1..])
      ensures task !in tasks.Tasks
      ensures sched.state == old(sched.state)[task := Stopped]
    {
      tasks.Unlink(task);
      sched.state := sched.state[task := Stopped];
      sched.pendSv := true;
    }

    /** `os_task_suspend_self`: the current task becomes SUSPENDED and asks for a switch. */
    method SuspendSelf()
      requires Valid() && sched.current.Some?
      modifies sched`state, sched`pendSv
      ensures Valid() && sched.pendSv
      ensures sched.state == old(sched.state)[sched.current.value := Suspended]
    {
      sched.state := sched.state[sched.current.value := Suspended];
      sched.pendSv := true;
    }

    /**
     * `os_task_unsuspend`: only a SUSPENDED task is resumed. It becomes
     * RUNNABLE at the tail of its run queue, and a switch is requested
     * (`yielded`) exactly when it outranks the current task.
     */
    method Unsuspend(task: Task) returns (ok: bool, yielded: bool)
      requires Valid() && task in sched.tcb && sched.current.Some?
      modifies sched`state, sched`groups, sched`highest, sched`pendSv
      ensures Valid()
      ensures ok <==> old(sched.state)[task] == Suspended
      ensures ok ==> var p := sched.tcb[task].priority;
        && sched.state == old(sched.state)[task := Runnable]
        && sched.groups == old(sched.groups)[p := old(sched.groups)[p] + [task]]
        && sched.highest == Min(old(sched.highest), p)
        && (yielded <==> sched.tcb[sched.current.value].priority > p)
        && sched.pendSv == (old(sched.pendSv) || yielded)
      ensures !ok ==> (!yielded && sched.state == old(sched.state) && sched.groups == old(sched.groups)
        && sched.highest == old(sched.highest) && sched.pendSv == old(sched.pendSv))
    {
      yielded := false;
      if sched.state[task] != Suspended {
        return false, false;
      }
      sched.state := sched.state[task := Runnable];
      sched.AddToRunqueueTail(task);
      if sched.tcb[sched.current.value].priority > sched.tcb[task].priority {
        sched.pendSv := true;
        yielded := true;
      }
      ok := true;
    }

    /**
     * `os_task_sleep`: the current task, which is not asleep, wakes
     * `ticks` ticks from now; it becomes SLEEPING, joins the sleep queue in
     * wake-up order and asks for a switch.
     */
    method Sleep(ticks: nat)
      requires Valid() && sched.current.Some? && sched.current.value !in sched.sleepQueue
      modifies sched`tcb, sched`state, sched`sleepQueue, sched`pendSv
      ensures Valid() && sched.pendSv
      ensures var cur := sched.current.value;
        var w := old(sched.tick) + ticks;
        var p := UpperBound(Wakeups(old(sched.sleepQueue), old(sched.tcb)), w);
        && sched.tcb == old(sched.tcb)[cur := old(sched.tcb)[cur].(wakeupTime := w)]
        && sched.state == old(sched.state)[cur := Sleeping]
        && sched.sleepQueue == old(sched.sleepQueue)[..p] + [cur] + old(sched.sleepQueue)[p..]
    {
      var cur := sched.current.value;
      var t := sched.tcb[cur].(wakeupTime := sched.tick + ticks);
      Store(sched, cur, t, Sleeping);
      sched.AddToSleepqueue(cur);
      sched.pendSv := true;
    }

    /**
     * `os_init`: empties the run queues, marks the kernel initialised and
     * sets up and adds the idle task, of the lowest priority, whose control
     * block is at `idle` and whose 128-byte stack is at `idleStack`.
     */
    method OsInit(idle: Task, idleName: nat, idleFunc: nat, idleStack: nat)
      requires Valid() && !initialized && idle < TWO32 && idleStack + IDLE_TASK_STACK_SIZE < TWO32
      modifies this`initialized, this`nextId, tasks, sched`tcb, sched`state, sched`groups, sched`highest
      ensures Valid() && initialized && tasks.Tasks == [idle]
      ensures sched.groups == EmptyGroups()[NUM_PRIO_LEVELS - 1 := [idle]]
      ensures idle in sched.tcb && sched.tcb[idle].priority == NUM_PRIO_LEVELS - 1 && sched.state[idle] == Runnable
      ensures var wakeup := if idle in old(sched.tcb) then old(sched.tcb)[idle].wakeupTime else 0;
        sched.tcb == old(sched.tcb)[idle := FreshTcb(idle, idleName, idleStack, IDLE_TASK_STACK_SIZE, NUM_PRIO_LEVELS - 1,
                                                     idleFunc, 0, old(nextId), wakeup, runner)]
      ensures sched.state == old(sched.state)[idle := Runnable] && sched.highest == Min(old(sched.highest), NUM_PRIO_LEVELS - 1)
      ensures nextId == (old(nextId) + 1) % 256
    {
      sched.Init();
      initialized := true;
      assert sched.groups[NUM_PRIO_LEVELS - 1] + [idle] == [idle];
      AddIdleTask(idle, idleName, idleFunc, idleStack);
    }

    /**
     * The last two steps of `os_init`: `os_task_init` of the idle task,
     * which its stack always passes, then `os_task_add`.
     */
    method AddIdleTask(idle: Task, idleName: nat, idleFunc: nat, idleStack: nat)
      requires Valid() && initialized && tasks.Tasks == [] && idle < TWO32 && idleStack + IDLE_TASK_STACK_SIZE < TWO32
      modifies this`nextId, tasks, sched`tcb, sched`state, sched`groups, sched`highest
      ensures Valid() && tasks.Tasks == [idle]
      ensures var p := NUM_PRIO_LEVELS - 1;
        sched.groups == old(sched.groups)[p := old(sched.groups)[p] + [idle]]
      ensures var wakeup := if idle in old(sched.tcb) then old(sched.tcb)[idle].wakeupTime else 0;
        sched.tcb == old(sched.tcb)[idle := FreshTcb(idle, idleName, idleStack, IDLE_TASK_STACK_SIZE, NUM_PRIO_LEVELS - 1,
                                                     idleFunc, 0, old(nextId), wakeup, runner)]
      ensures sched.state == old(sched.state)[idle := Runnable] && sched.highest == Min(old(sched.highest), NUM_PRIO_LEVELS - 1)
      ensures nextId == (old(nextId) + 1) % 256
    {
      IdleStackFits(idleStack);
      var ok := TaskInit(idle, idleName, idleStack, IDLE_TASK_STACK_SIZE, NUM_PRIO_LEVELS - 1, idleFunc, 0);
      ok := TaskAdd(idle);
    }
  }

  /** A kernel right after `os_init`, with the idle task at 100 and its stack at 1000. */
  method InitializedKernel() returns (k: Kernel)
    ensures fresh(k) && fresh(k.sched) && fresh(k.tasks)
    ensures k.Valid() && k.initialized && k.tasks.Tasks == [100] && k.sched.current == None
    ensures k.sched.groups == EmptyGroups()[NUM_PRIO_LEVELS - 1 := [100]]
  {
    k := new Kernel(0);
    k.OsInit(100, 0, 0, 1000);
  }

  /**
   * The kernel after `os_init` and the set-up and addition of a task at
   * 200 of priority 0 with a 128-byte stack at 2000.
   */
  method TwoTaskKernel() returns (k: Kernel)
    ensures fresh(k) && fresh(k.sched) && fresh(k.tasks)
    ensures k.Valid() && k.sched.current == None
    ensures k.sched.groups == EmptyGroups()[NUM_PRIO_LEVELS - 1 := [100]][0 := [200]]
    ensures 200 in k.sched.tcb && k.sched.tcb[200].priority == 0 && k.sched.state[200] == Runnable
  {
    k := InitializedKernel();
    AddSecondTask(k);
  }

  /** The set-up and addition of the task at 200 on a kernel just initialized. */
  method AddSecondTask(k: Kernel)
    requires k.Valid() && k.initialized && k.tasks.Tasks == [100] && k.sched.current == None
    requires k.sched.groups == EmptyGroups()[NUM_PRIO_LEVELS - 1 := [100]]
    modifies k, k.sched, k.tasks
    ensures k.Valid() && k.sched.current == None
    ensures k.sched.groups == EmptyGroups()[NUM_PRIO_LEVELS - 1 := [100]][0 := [200]]
    ensures 200 in k.sched.tcb && k.sched.tcb[200].priority == 0 && k.sched.state[200] == Runnable
  {
    InitSecondTask(k);
    var ok := k.TaskAdd(200);
    assert [] + [200] == [200];
  }

  /** The set-up of the task at 200: priority 0 and a 128-byte stack at 2000, left STOPPED. */
  method InitSecondTask(k: Kernel)
    requires k.Valid() && k.initialized && k.tasks.Tasks == [100]
    modifies k`nextId, k.tasks`prev, k.tasks`next, k.sched`tcb, k.sched`state
    ensures k.Valid() && 200 in k.sched.tcb && k.sched.tcb[200].priority == 0 && k.sched.state[200] == Stopped
  {
    assert StackTop(2000, 128) == 2128;
    var ok := k.TaskInit(200, 0, 2000, 128, 0, 0, 0);
  }

  /**
   * `sched_start_tasks` as written, then a yield of the started task
   * before the first tick: the task is left RUNNABLE on no run queue, and
   * the idle task runs.
   */
  method YieldAfterStartAsWritten(s: Scheduler) returns (next: Option<Task>)
    requires s.Valid() && s.current == None && 200 in s.tcb && s.tcb[200].priority == 0 && s.state[200] == Runnable
    requires s.groups == EmptyGroups()[NUM_PRIO_LEVELS - 1 := [100]][0 := [200]]
    modifies s
    ensures s.Valid() && 200 in s.state
    ensures next == Some(100) && s.state[200] == Runnable
    ensures forall p :: 0 <= p < NUM_PRIO_LEVELS ==> 200 !in s.groups[p]
  {
    var started := s.StartTasksAsWritten();
    HintIsSound(s.groups, NUM_PRIO_LEVELS - 1);
    var switched := s.PendSv();
    next := s.current;
  }

  /** The corrected `sched_start_tasks`, then the same yield: the started task runs on. */
  method YieldAfterStart(s: Scheduler) returns (next: Option<Task>)
    requires s.Valid() && s.current == None && 200 in s.tcb && s.tcb[200].priority == 0 && s.state[200] == Runnable
    requires s.groups == EmptyGroups()[NUM_PRIO_LEVELS - 1 := [100]][0 := [200]]
    modifies s
    ensures s.Valid() && 200 in s.state
    ensures next == Some(200) && s.state[200] == Running
  {
    var started := s.StartTasks();
    var switched := s.PendSv();
    next := s.current;
  }

  /**
   * The first task started by `sched_start_tasks` as written is left
   * RUNNABLE, so when it yields before the first tick, PendSV does not put
   * it back on its run queue: the idle task runs and the started task,
   * though RUNNABLE, is on no run queue. With the start corrected, the
   * same yield finds the task RUNNING, requeues it, and it runs on.
   */
  method StartScenario() returns (asWritten: Option<Task>, corrected: Option<Task>)
    ensures asWritten == Some(100) && corrected == Some(200)
  {
    var k1 := TwoTaskKernel();
    asWritten := YieldAfterStartAsWritten(k1.sched);
    var k2 := TwoTaskKernel();
    corrected := YieldAfterStart(k2.sched);
  }

  /**
   * A 64-byte stack at address 1 passes the size check of `os_task_init`
   * as written, but its top rounds down to 64, so the initial frame starts
   * at 0, below the stack's base.
   */
  method TaskInitScenarioAsWritten() returns (ok: bool, frameBelowBase: bool)
    ensures ok && frameBelowBase
  {
    var k := InitializedKernel();
    assert StackTop(1, 64) == 64;
    ok := k.TaskInitAsWritten(200, 0, 1, 64, 0, 0, 0);
    var t := k.sched.tcb[200];
    assert t.stack == 0 && t.stackBase == 1;
    frameBelowBase := t.stack < t.stackBase;
  }

  /** The corrected check refuses the stack of `TaskInitScenarioAsWritten`. */
  method TaskInitScenario() returns (ok: bool)
    ensures !ok
  {
    var k := InitializedKernel();
    assert StackTop(1, 64) == 64;
    ok := k.TaskInit(200, 0, 1, 64, 0, 0, 0);
  }
}
