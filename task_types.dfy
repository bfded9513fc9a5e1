/**
 * The task control block of the MourOS kernel (include/mouros/tasks.h and
 * the fields src/tasks.c sets). A task is named by the address of its
 * control block; the kernel's view of memory is a map from those
 * addresses to the blocks' contents.
 *
 * The singly linked lists threaded through `next_task` (run queues, the
 * sleep queue, resource wait lists) are held by their owners as the
 * sequence of tasks they link, so `next_task` has no field here. Three
 * fields that other modules rewrite on their own live in maps of those
 * modules, keyed by task: `state` (the scheduler's) and the
 * `tasklist_prev`/`tasklist_next` links of the all-tasks list (the task
 * module's).
 */
module TaskTypes {
  import opened Support

  /** The address of a task control block. */
  type Task = nat

  /** `NUM_PRIO_LEVELS`: priorities 0 (highest) to 15 (lowest, the idle task). */
  const NUM_PRIO_LEVELS: nat := 16

  datatype TaskState = Runnable | WaitingForResource | Sleeping | Suspended | Running | Stopped

  datatype Tcb = Tcb(
    id: nat,
    name: nat,
    taskFunc: nat,
    taskParams: nat,
    priority: nat,
    wakeupTime: nat,
    stackBase: nat,
    stack: nat,
    stackSize: nat,
    /** The 16 words at `stack` that the first context switch pops. */
    frame: seq<int>,
    excRet: nat)

  /** Every task of `q` has a control block in `tcb`. */
  ghost predicate Known(q: seq<Task>, tcb: map<Task, Tcb>)
  {
    forall i :: 0 <= i < |q| ==> q[i] in tcb
  }

  /** The wake-up times of the tasks of `q`, in queue order. */
  function Wakeups(q: seq<Task>, tcb: map<Task, Tcb>): (r: seq<int>)
    requires forall i :: 0 <= i < |q| ==> q[i] in tcb
    ensures |r| == |q|
    ensures forall i :: 0 <= i < |q| ==> r[i] == tcb[q[i]].wakeupTime
  {
    seq(|q|, i requires 0 <= i < |q| => tcb[q[i]].wakeupTime)
  }

  /** The priorities of the tasks of `q`, in queue order. */
  function Priorities(q: seq<Task>, tcb: map<Task, Tcb>): (r: seq<int>)
    requires forall i :: 0 <= i < |q| ==> q[i] in tcb
    ensures |r| == |q|
    ensures forall i :: 0 <= i < |q| ==> r[i] == tcb[q[i]].priority
  {
    seq(|q|, i requires 0 <= i < |q| => tcb[q[i]].priority)
  }

  /** The wake-up times of a queue with `t` spliced in at `p`. */
  lemma WakeupsOfInsert(q: seq<Task>, tcb: map<Task, Tcb>, p: nat, t: Task)
    requires Known(q, tcb) && t in tcb && p <= |q|
    ensures Known(q[..p] + [t] + q[p..], tcb)
    ensures Wakeups(q[..p] + [t] + q[p..], tcb) == Wakeups(q, tcb)[..p] + [tcb[t].wakeupTime] + Wakeups(q, tcb)[p..]
  {
    var r := q[..p] + [t] + q[p..];
    assert forall i :: 0 <= i < |r| ==> r[i] == if i < p then q[i] else if i == p then t else q[i - 1];
  }

  /** The priorities of a queue with `t` spliced in at `p`. */
  lemma PrioritiesOfInsert(q: seq<Task>, tcb: map<Task, Tcb>, p: nat, t: Task)
    requires Known(q, tcb) && t in tcb && p <= |q|
    ensures Known(q[..p] + [t] + q[p..], tcb)
    ensures Priorities(q[..p] + [t] + q[p..], tcb) == Priorities(q, tcb)[..p] + [tcb[t].priority] + Priorities(q, tcb)[p..]
  {
    var r := q[..p] + [t] + q[p..];
    assert forall i :: 0 <= i < |r| ==> r[i] == if i < p then q[i] else if i == p then t else q[i - 1];
  }

  /** Rewriting a control block keeps a queue's wake-up times when it keeps the task's own. */
  lemma WakeupsOfUpdate(q: seq<Task>, tcb: map<Task, Tcb>, t: Task, r: Tcb)
    requires Known(q, tcb)
    requires t in tcb ==> r.wakeupTime == tcb[t].wakeupTime
    ensures Known(q, tcb[t := r]) && Wakeups(q, tcb[t := r]) == Wakeups(q, tcb)
  {
  }

  /** Rewriting the control block of a task outside a queue keeps the queue's wake-up times. */
  lemma WakeupsOfOther(q: seq<Task>, tcb: map<Task, Tcb>, t: Task, r: Tcb)
    requires Known(q, tcb) && t !in q
    ensures Known(q, tcb[t := r]) && Wakeups(q, tcb[t := r]) == Wakeups(q, tcb)
  {
  }

  /** The wake-up times of a queue's tail are the tail of its wake-up times. */
  lemma WakeupsOfSuffix(q: seq<Task>, tcb: map<Task, Tcb>, k: nat)
    requires Known(q, tcb) && k <= |q|
    ensures Known(q[k..], tcb) && Wakeups(q[k..], tcb) == Wakeups(q, tcb)[k..]
  {
  }

  /** The priorities of a queue's tail are the tail of its priorities. */
  lemma PrioritiesOfSuffix(q: seq<Task>, tcb: map<Task, Tcb>, k: nat)
    requires Known(q, tcb) && k <= |q|
    ensures Known(q[k..], tcb) && Priorities(q[k..], tcb) == Priorities(q, tcb)[k..]
  {
  }
}
