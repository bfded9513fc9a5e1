# MourOS kernel bookkeeping in Dafny

MourOS is a small kernel for ARM Cortex-M microcontrollers, written in C
with a thin set of Rust bindings. This project models the sequential
bookkeeping at its core, and proves properties of that model:

- the message mailbox (`src/mailbox.c`), a circular FIFO of fixed-size
  messages in a caller-supplied byte array with one slot kept free;
- the one-byte character buffer built on it (`src/char_buffer.c`);
- the typed Rust mailbox and its single-producer single-consumer split
  (`rust/src/mailbox.rs`);
- the byte ring buffer with an `overflow` flag (`src/buffer.c`);
- the pool allocator, in C (`src/pool_alloc.c`) and in Rust
  (`rust/src/pool_alloc.rs`);
- the PRIMASK critical-section guard of the Rust bindings
  (`rust/src/tasks.rs`);
- the scheduler: per-priority run queues with a `highest_prio_level` hint,
  the sleep queue sorted by wake-up time, and the PendSV and SysTick
  handlers' queue handling (`src/scheduler.c`);
- resources with a wait list sorted by priority (`src/sync.c`);
- task set-up, the doubly linked list of all tasks, and the task state
  changes (`src/tasks.c`);
- the older kernel revision in `src/os.c`, with its delay queue ordered by
  wake-up time then priority and its round-robin task selection.

Each source file becomes one module. Objects whose fields the C code
updates in place (a mailbox, a buffer, a pool, the scheduler, the task
list, a resource) are classes. Byte buffers and the pool's backing memory
are arrays. Linked lists threaded through `next_task`, `tasklist_prev` and
`tasklist_next` pointers become sequences of task addresses. Task control
blocks become a map from a task's address to a `Tcb` value. Every C loop is
a Dafny `while` or `for` loop whose invariants tie the state to a specification
function, for example a mailbox's `Contents`, the sequence of messages it
holds in FIFO order.

The loops that wait for another execution context are given a `fuel`
bound on the number of attempts. These are the blocking character-buffer
calls and the Rust `send`/`recv`. Likewise the scheduler spins forever
when nothing is runnable, and the model returns `None` there.

Where the code and its documentation disagree, the model follows the
code. Where verifying the documented behaviour showed that the code
cannot meet it, both the code as written and a corrected version are
modelled (see "## Findings").

## Model

| member | source | states |
|---|---|---|
| Support.Min | src/mailbox.c:109-122 | the smaller of two values, used for the transfer counts of the multi-message calls |
| Support.Wrap | src/mailbox.c:24-27 | advancing a cursor past the end of a ring returns it to the start, which is the remainder |
| Support.OffsetIsProduct | src/mailbox.c:75 | the byte offset of message `k` is `k * msg_size` |
| Support.OffsetMono | src/mailbox.c:75 | messages at distinct indices occupy disjoint byte ranges |
| Support.OffsetCancel | src/mailbox.c:24-27 | equal byte offsets name equal message indices |
| Support.OffsetDiv | src/mailbox.c:56 | the offset of message `k` is a multiple of the message size, with quotient `k` |
| Support.OffsetOfQuotient | src/mailbox.c:56 | a buffer length divisible by the message size is the offset of its slot count |
| TaskTypes.WakeupsOfInsert | src/scheduler.c:152-179 | inserting a task into a queue inserts its wake-up time at the same place in the queue's wake-up times |
| TaskTypes.PrioritiesOfInsert | src/sync.c:15-44 | inserting a task into a wait list inserts its priority at the same place |
| TaskTypes.WakeupsOfUpdate | src/tasks.c:295-298 | changing a TCB without changing its wake-up time leaves a queue's wake-up times unchanged |
| TaskTypes.WakeupsOfOther | src/tasks.c:295-298 | changing the TCB of a task that is not queued leaves the queue's wake-up times unchanged |
| TaskTypes.WakeupsOfSuffix | src/scheduler.c:52-69 | removing a prefix of the sleep queue removes the same prefix of its wake-up times |
| TaskTypes.PrioritiesOfSuffix | src/sync.c:79-87 | removing the head of the wait list removes the head of its priorities |
| Ordered.UpperBound | src/scheduler.c:152-179 | the insertion point is after every entry not greater than the key and at the first greater one |
| Ordered.UpperBoundSplits | src/scheduler.c:152-179 | in a sorted queue every entry from the insertion point on is greater than the key |
| Ordered.InsertSorted | src/scheduler.c:152-179 | inserting at the insertion point keeps a sorted queue sorted |
| Ordered.UpperBoundUnique | src/sync.c:15-44 | any position with smaller-or-equal entries before it and a greater one at it is the insertion point |
| Ordered.AllAbove | src/scheduler.c:56-59 | in a sorted queue whose head is greater than a key, every entry is |
| Ordered.SortedSuffix | src/scheduler.c:52-69 | removing a prefix keeps a queue sorted |
| Scheduler.EmptyGroups | src/scheduler.c:72-78 | sixteen priority groups, all empty |
| Scheduler.FirstNonEmpty | src/scheduler.c:31-48 | the first non-empty priority group at or after the scan's start, every group before it empty |
| Scheduler.HintIsSound | src/scheduler.c:33-34 | when every group below the `highest_prio_level` hint is empty, scanning from the hint finds the same group as scanning from 0 |
| Scheduler.PushHeads | src/scheduler.c:52-69 | pushing woken tasks onto their run-queue heads leaves sixteen groups |
| Scheduler.Lowered | src/scheduler.c:116-118 | the lowered hint is at most the old one and at most each woken task's priority |
| Scheduler.LoweredIsAttained | src/scheduler.c:116-118 | the lowered hint is the old hint or the priority of a woken task |
| Scheduler.MarkRunnable | src/scheduler.c:64 | marking woken tasks RUNNABLE keeps the set of known tasks |
| Scheduler.MarkRunnableMeans | src/scheduler.c:64 | after waking, a task is RUNNABLE if it was woken, and in its old state otherwise |
| Scheduler.PushHeadsSnoc | src/scheduler.c:52-69 | waking one more task pushes it onto the head of its own group |
| Scheduler.LoweredSnoc | src/scheduler.c:116-118 | waking one more task lowers the hint to the smaller of the two |
| Scheduler.MarkRunnableSnoc | src/scheduler.c:64 | waking one more task marks exactly it RUNNABLE |
| Scheduler.Scheduler.Init | src/scheduler.c:72-78 | every priority group is empty afterwards |
| Scheduler.Scheduler.TakeHighest | src/scheduler.c:31-50 | pops the head of the first non-empty group and sets the hint to that group; with every group empty it finds nothing and changes no group |
| Scheduler.Scheduler.AddToRunqueueHead | src/scheduler.c:112-129 | the task is prepended to its priority's group and the hint is lowered to that priority if smaller |
| Scheduler.Scheduler.AddToRunqueueTail | src/scheduler.c:131-150 | the task is appended to its priority's group and the hint is lowered to that priority if smaller |
| Scheduler.Scheduler.AddToSleepqueue | src/scheduler.c:152-179 | the task is inserted after every task with an equal or earlier wake-up time, so the sleep queue stays sorted |
| Scheduler.Scheduler.WakeupTasks | src/scheduler.c:52-69 | removes exactly the prefix of tasks due by the current tick, marks them RUNNABLE, pushes each onto its run-queue head and lowers the hint |
| Scheduler.Scheduler.WakeHead | src/scheduler.c:56-66 | removes the first sleeping task, marks it RUNNABLE and pushes it onto its run-queue head |
| Scheduler.Scheduler.PendSv | src/scheduler.c:184-201 | requeues the current task at its group's tail only if it was RUNNING, then runs the first task of the first non-empty group and marks it RUNNING |
| Scheduler.Scheduler.Requeue | src/scheduler.c:190-198 | the task is marked RUNNABLE and put back at the tail of its group, and the task run next heads the first non-empty group, of the same or a better priority |
| Scheduler.Scheduler.SysTick | src/scheduler.c:204-222 | advances the tick, wakes the due tasks, requeues the current task and switches to the first task of the best non-empty group |
| Scheduler.Scheduler.StartTasksAsWritten | src/scheduler.c:80-109 | the first task is taken off its run queue as the current one and its saved frame is skipped, but its state is left unchanged |
| Scheduler.Scheduler.StartTasks | src/scheduler.c:80-109 | as `sched_start_tasks`, and the started task is also marked RUNNING |
| Sync.InsertWaiting | src/sync.c:15-44 | the current task is inserted into the wait list after every task of equal or better priority |
| Sync.AcquireStep | src/sync.c:47-67 | a free resource, or one the caller already owns, is taken at once; otherwise the caller waits in priority order and a switch is requested |
| Sync.Release | src/sync.c:69-94 | a non-owner changes nothing; the owner frees the resource, wakes the first waiter onto its run-queue head, and yields iff that waiter outranks it |
| Sync.WakeFirstWaiter | src/sync.c:79-87 | the first waiter leaves the wait list, becomes RUNNABLE and is pushed onto its run-queue head |
| Sync.FirstWaiterOutranks | src/sync.c:15-44 | the first waiter has the best priority of all waiters |
| Tasks.Signed32 | src/tasks.c:185-190 | a 32-bit word read as a signed integer lies in the signed 32-bit range |
| Tasks.StackTop | src/tasks.c:170 | the stack top is `base + size` rounded down to a multiple of 8, within 8 bytes of it |
| Tasks.StackLayout | src/tasks.c:170-183 | a fresh task's stack top is 8-aligned, its recorded size is within 8 bytes of the requested size, and its frame ends at the top |
| Tasks.StackMaxSize | src/tasks.c:327-330 | the stack's size in bytes, as stored in the task; `StackCurrSize` counts words, and `CurrWithinMax` bridges the two by dividing by 4 |
| Tasks.StackCurrSize | src/tasks.c:332-335 | a stack pointer at or above the base gives its distance from the base in whole words, one below it the 32-bit negation of that count truncated toward zero |
| Tasks.CurrWithinMax | src/tasks.c:327-335 | while the stack pointer lies in the stack, the current size in words is at most the maximum size in words |
| Tasks.FrameInsideStack | src/tasks.c:170-183 | when the aligned stack holds a frame, the frame lies inside the stack and the current stack size is the rest in words |
| Tasks.AlignedBaseFits | src/tasks.c:146-170 | an 8-aligned stack base never loses bytes to the top's alignment |
| Tasks.NewFrame | src/tasks.c:185-190 | the initial frame is sixteen words, zero except the task argument, the runner's address and the Thumb bit |
| Tasks.LinkedAppend | src/tasks.c:214-227 | appending a task as the new last keeps the first/last and prev/next links consistent with the list |
| Tasks.UnlinkedPrev | src/tasks.c:89-105 | after the unlink every remaining task's prev link names its predecessor |
| Tasks.UnlinkedNext | src/tasks.c:89-105 | after the unlink every remaining task's next link names its successor |
| Tasks.LinkedRemove | src/tasks.c:89-108 | the unlink removes the task from the list, fixes first, last and both neighbours, and clears the task's links |
| Tasks.Store | src/tasks.c:156-192 | writing a TCB that keeps its wake-up time keeps the sleep queue's order |
| Tasks.AllTasks.ClearLinks | src/tasks.c:156-157 | the task's prev and next links are cleared |
| Tasks.AllTasks.Append | src/tasks.c:214-227 | the task becomes the new last of the list, linked to the old last |
| Tasks.AllTasks.Unlink | src/tasks.c:89-108 | the task is removed from its place in the list and its links are cleared |
| Tasks.Kernel.Fill | src/tasks.c:150-192 | fills the TCB with the aligned stack, the initial frame, the next id from the 8-bit counter and the STOPPED state |
| Tasks.Kernel.TaskInitAsWritten | src/tasks.c:138-197 | fails with nothing changed iff the priority or the stack size is out of range, and otherwise fills the TCB |
| Tasks.Kernel.TaskInit | src/tasks.c:138-197 | as `os_task_init`, and fails also when the frame does not fit above the base once the top is aligned |
| Tasks.Kernel.TaskAdd | src/tasks.c:200-233 | fails iff the task is not STOPPED; otherwise it becomes RUNNABLE, the last of the task list and the tail of its run queue |
| Tasks.Kernel.Exit | src/tasks.c:84-115 | the task is removed from the task list, marked STOPPED and a switch is requested |
| Tasks.Kernel.SuspendSelf | src/tasks.c:265-270 | the current task is marked SUSPENDED and a switch is requested |
| Tasks.Kernel.Unsuspend | src/tasks.c:272-289 | fails iff the task is not SUSPENDED; otherwise it becomes RUNNABLE at its run-queue tail and a yield happens iff it outranks the current task |
| Tasks.Kernel.Sleep | src/tasks.c:291-301 | the current task's wake-up time becomes tick plus the delay, it is marked SLEEPING and enters the sleep queue in order |
| Tasks.Kernel.OsInit | src/tasks.c:118-135 | afterwards the idle task is the only task, RUNNABLE, alone in the lowest-priority group; its control block is the one `os_task_init` fills in with the next id, the id counter moves on, the hint drops to at most 15, and no other task's control block or state changes |
| Tasks.Kernel.AddIdleTask | src/tasks.c:129-133 | the idle task's set-up always succeeds; it is filled in, made RUNNABLE and appended to the all-tasks list and to group 15, and nothing else changes |
| Tasks.IdleStackFits | src/tasks.c:129-130 | the 128-byte idle stack holds the 64-byte initial frame at any alignment |
| Tasks.InitializedKernel | src/tasks.c:118-135 | a kernel after `os_init` holds only the idle task |
| Tasks.TwoTaskKernel | src/tasks.c:138-233 | a kernel with the idle task and one more task at priority 0, both queued |
| Tasks.AddSecondTask | src/tasks.c:200-233 | adding an initialised priority-0 task queues it in group 0 |
| Tasks.InitSecondTask | src/tasks.c:138-197 | initialising a priority-0 task with an aligned stack succeeds and leaves it STOPPED |
| Tasks.YieldAfterStartAsWritten | src/scheduler.c:80-109 | after the start as written, a yield of the started task runs the idle task and leaves the started task RUNNABLE on no run queue |
| Tasks.YieldAfterStart | src/scheduler.c:184-201 | after the corrected start, the same yield keeps the started task running |
| Tasks.StartScenario | src/scheduler.c:80-109 | the idle task runs after the start as written, the started task after the corrected one |
| Tasks.TaskInitScenarioAsWritten | src/tasks.c:146-183 | a 64-byte stack at address 1 is accepted and its frame starts below the base |
| Tasks.TaskInitScenario | src/tasks.c:146-183 | the corrected check refuses that stack |
| Legacy.KeyOrder | src/os.c:244-269 | a task sorts after another iff its delay key, wake-up time then priority, is greater |
| Legacy.DelayKeys | src/os.c:244-269 | the delay keys of a queue, one per task |
| Legacy.DelayKeysOfInsert | src/os.c:244-269 | inserting a task inserts its key at the same place in the queue's keys |
| Legacy.NoneDueAfter | src/os.c:104-118 | in a sorted delay queue whose head is not due, no task is due |
| Legacy.FirstRunnable | src/os.c:125-141 | the index of the first RUNNABLE task of a group, every task before it not RUNNABLE |
| Legacy.PickGroup | src/os.c:125-141 | the first group at or after the scan's start that holds a RUNNABLE task, every group before it holding none |
| Legacy.PickSkips | src/os.c:125-141 | groups without a RUNNABLE task can be skipped without changing the group picked |
| Legacy.Rotate | src/os.c:125-131 | moving the current task from the head of its group to its tail keeps the other tasks in order and every other group unchanged |
| Legacy.MoveToTail | src/os.c:125-127 | the corrected rotation takes the current task out of its group wherever it sits and appends it: the tasks before it keep their places, those after it move up by one, the group keeps the same tasks and every other group is unchanged |
| Legacy.MoveToTailAtHead | src/os.c:125-127 | where the current task heads its group, the corrected rotation is the written `STAILQ_REMOVE_HEAD` rotation |
| Legacy.LegacyFrameAtEnd | src/os.c:209-214 | the initial frame is the last 64 bytes of the stack, with no alignment |
| Legacy.NewLegacyFrame | src/os.c:216-222 | the initial frame is sixteen words, zero except the task argument, the blocker's address, the runner's address and the Thumb bit |
| Legacy.ScanGroup | src/os.c:133-139 | the scan of a group stops at its first RUNNABLE task |
| Legacy.Scan | src/os.c:121-147 | the scan returns the first RUNNABLE task of the group picked, and records the last group scanned when it finds none |
| Legacy.LegacyKernel.InitTask | src/os.c:189-223 | returns without change when the priority exceeds 15 or the stack is under 64 bytes; otherwise fills the TCB and marks it RUNNABLE |
| Legacy.LegacyKernel.AddTask | src/os.c:226-231 | the task is appended to its priority's group |
| Legacy.LegacyKernel.InsertDelayed | src/os.c:244-269 | the task goes before the first task with a greater wake-up time, or an equal one and a greater priority number |
| Legacy.LegacyKernel.Delay | src/os.c:238-274 | the current task's wake-up time becomes tick plus the delay, it is marked DELAYED and enters the delay queue in order |
| Legacy.LegacyKernel.WakeupTasks | src/os.c:102-119 | removes exactly the due prefix of the delay queue, marks those tasks RUNNABLE and lowers the hint to their best priority |
| Legacy.LegacyKernel.WakeHead | src/os.c:106-117 | removes the first delayed task, marks it RUNNABLE and lowers the hint to its priority |
| Legacy.LegacyKernel.GetHighest | src/os.c:121-147 | rotates the current task to the tail of its group, then picks the first RUNNABLE task from the hint on |
| Legacy.LegacyKernel.Switch | src/os.c:158-160 | runs the task picked after the rotation and marks it RUNNING |
| Legacy.LegacyKernel.PendSvAsWritten | src/os.c:150-166 | marks the current task RUNNABLE whatever its state, then switches |
| Legacy.LegacyKernel.Reschedule | src/os.c:121-160 | the corrected rotation, then the first RUNNABLE task from the hint on becomes current and RUNNING; tasks kept in the groups of their priorities stay so, and the current task stays in its group |
| Legacy.LegacyKernel.MoveCurrentToTail | src/os.c:125-127 | the current task moves to its group's tail from wherever it sits and stays in its group |
| Legacy.LegacyKernel.Pick | src/os.c:130-160 | the first RUNNABLE task from the hint on becomes current and RUNNING, or the NMI is raised; a task taken from the group of its priority is in its group |
| Legacy.LegacyKernel.PendSv | src/os.c:150-166 | marks the current task RUNNABLE only if it was RUNNING, then switches with the corrected rotation; while every task sits in the group of its priority, the new current task is again in its group, so the handler can run again |
| Legacy.LegacyKernel.SysTick | src/os.c:168-186 | advances the tick, wakes exactly the due tasks, rotates the current task with the corrected rotation and switches to a RUNNING task; while every task sits in the group of its priority, the new current task is again in its group |
| Legacy.LegacyKernel.SwitchAfterTick | src/os.c:176-180 | marks the current task RUNNABLE whatever its state, then switches with the corrected rotation to the first RUNNABLE task from the hint on |
| Legacy.LegacyKernel.Tick | src/os.c:172-174 | advances the tick, wakes exactly the due tasks, marks exactly them RUNNABLE and lowers the hint to the best of their priorities |
| Legacy.LegacyKernel.Exit | src/os.c:60-65 | the current task is marked STOPPED and a switch is requested |
| Legacy.LegacyKernel.OsInit | src/os.c:276-290 | the idle task is alone at the head of group 15 and is the current task; its control block is the one `os_task_init` fills in with the next id, the id counter moves on, and no other task's control block or state changes |
| Legacy.LegacyKernel.StartTasks | src/os.c:292-314 | rotates the idle task, picks the first RUNNABLE task, makes it current and skips its saved frame |
| Legacy.LegacyKernel.Launch | src/os.c:298-302 | the picked task becomes current, the hint becomes its priority and its saved frame is skipped |
| Legacy.LegacyKernel.SkipFrame | src/os.c:302 | the task's stack pointer moves past its 64-byte frame |
| Legacy.LegacyReady | src/os.c:276-290 | after `os_init` and the set-up of a priority-0 task, both tasks are RUNNABLE and queued |
| Legacy.LegacyStarted | src/os.c:292-314 | starting that kernel runs the priority-0 task |
| Legacy.StartedThenDelayed | src/os.c:238-274 | the running task delays itself and is the only delayed task |
| Legacy.DelayScenarioAsWritten | src/os.c:150-166 | the PendSV handler as written runs the delayed task again while it is still in the delay queue |
| Legacy.DelayScenario | src/os.c:150-166 | the corrected handler runs the idle task instead |
| Legacy.IdleAfterDelay | src/os.c:130-141 | with the only priority-0 task DELAYED, the rotation changes nothing and the scan reaches the idle task at the head of group 15 |
| Mailbox.SlotsIsQuotient | src/mailbox.c:56 | the ring has `msg_buf_len / msg_size` slots |
| Mailbox.SlotsOfOffset | src/mailbox.c:24-27 | a ring of `k` messages' bytes has `k` slots |
| Mailbox.Overwrite | src/mailbox.c:30-32 | copying a message changes exactly its bytes |
| Mailbox.ChunkOverwriteBefore | src/mailbox.c:30-32 | writing a slot leaves every earlier slot unchanged |
| Mailbox.ChunkOverwriteAfter | src/mailbox.c:30-32 | writing a slot leaves every later slot unchanged |
| Mailbox.ChunkOverwrite | src/mailbox.c:30-32 | writing a slot puts the message there and changes no other slot |
| Mailbox.HoldsPush | src/mailbox.c:29-36 | writing the free slot after the last message adds that message at the end of the contents |
| Mailbox.ChunkOfPrefix | src/mailbox.c:92-94 | a message lies wholly within any prefix that reaches its end |
| Mailbox.ChunksKeep | src/mailbox.c:115-119 | two buffers with the same first `n` messages' bytes hold the same first `n` messages |
| Mailbox.HoldsSizes | src/mailbox.c:30-32 | every held message is `msg_size` bytes |
| Mailbox.Fill | src/mailbox.c:115-119 | reading messages into an output buffer keeps its length |
| Mailbox.FillThenChunks | src/mailbox.c:115-119 | messages copied one after another into a buffer read back in the same order, with the rest unchanged |
| Mailbox.ReadBack | src/mailbox.c:109-122 | the first `n` messages read out of the mailbox are its first `n` messages, in order |
| Mailbox.ChunksExtend | src/mailbox.c:75 | the next message starts where the previous one ends |
| Mailbox.RingShape | src/mailbox.c:24-27 | the mailbox holds at most `msg_buf_len / msg_size - 1` messages, and each cursor has a whole message after it |
| Mailbox.RingCursors | src/mailbox.c:24-34 | both cursors are multiples of `msg_size` below `msg_buf_len` |
| Mailbox.Advance | src/mailbox.c:24-27 | a cursor moves `msg_size` bytes on, or back to 0 when that lands on `msg_buf_len`; with a positive message size it stays inside the buffer |
| Mailbox.AdvanceIsNextSlot | src/mailbox.c:24-27 | advancing a cursor moves it to the next slot, wrapping to 0 exactly at `msg_buf_len` |
| Mailbox.RingFull | src/mailbox.c:24-29 | the advanced write cursor equals the read cursor iff the mailbox is full |
| Mailbox.RingEmpty | src/mailbox.c:90 | the cursors are equal iff the mailbox is empty |
| Mailbox.RingPush | src/mailbox.c:29-36 | writing at the write cursor and advancing it appends the message |
| Mailbox.RingPop | src/mailbox.c:90-101 | the bytes at the read cursor are the oldest message, and advancing it removes that message |
| Mailbox.CopyBytes | src/mailbox.c:30-32 | copies the message into the buffer at the given offset, changing nothing else |
| Mailbox.Mailbox.Init | src/mailbox.c:42-57 | both cursors are 0 and the mailbox is empty; it is a ring, holding at most `msg_buf_len / msg_size - 1` messages, iff the length is positive; with length 0 the first write passes the full test and stores past the end |
| Mailbox.Mailbox.WriteMsg | src/mailbox.c:22-40 | fails with nothing changed iff the advanced write cursor equals the read cursor, that is iff the mailbox is full; otherwise copies the message and advances only the write cursor |
| Mailbox.Mailbox.Write | src/mailbox.c:59-67 | appends the message iff the mailbox is not full, and notifies once iff it did |
| Mailbox.Mailbox.WriteMultiple | src/mailbox.c:69-86 | appends as many of the messages as fit, in order, returns that count, and notifies once iff it is positive |
| Mailbox.Mailbox.Read | src/mailbox.c:88-107 | fails with nothing changed iff the mailbox is empty; otherwise yields the oldest message and advances only the read cursor |
| Mailbox.Mailbox.ReadMultiple | src/mailbox.c:109-122 | reads the oldest messages, as many as are held or asked for, into the output in order |
| Mailbox.FifoScenario | src/mailbox.c:22-107 | three messages come back in the order written; a fourth write to a three-slot ring fails, and so does a fourth read |
| Mailbox.FillThree | src/mailbox.c:59-67 | three writes to a ring with room for three fill it, and a fourth fails |
| CharBuffer.Chars | src/char_buffer.c:30-35 | a byte string as one-character messages, one per byte |
| CharBuffer.CharsAt | src/char_buffer.c:20-23 | the `i`th message of a string is its `i`th byte |
| CharBuffer.CharsSnoc | src/char_buffer.c:48-60 | one more character written adds one more message |
| CharBuffer.ChunksOfOne | src/char_buffer.c:30-35 | one-byte messages read from a buffer are its bytes, in order |
| CharBuffer.StrLen | src/char_buffer.c:48-60 | the length of a string is the index of its first NUL byte |
| CharBuffer.CharsConcat | src/char_buffer.c:37-46 | the characters of two strings written one after the other are the characters of their concatenation |
| CharBuffer.CharsAppend | src/char_buffer.c:37-46 | the characters written so far plus the next batch are the characters of the longer prefix |
| CharBuffer.Init | src/char_buffer.c:12-18 | a mailbox of one-byte messages, empty; a ring holding at most `buf_len - 1` characters iff the length is positive; with length 0 the first character is stored at the end |
| CharBuffer.WriteCh | src/char_buffer.c:20-23 | appends the character iff the buffer is not full; `data_added` is left as it was and is signalled once iff the character went in while it is set |
| CharBuffer.WriteChBlocking | src/char_buffer.c:25-28 | retries until the character is appended; `data_added` is left as it was and is signalled once when the character goes in while it is set |
| CharBuffer.WriteBuf | src/char_buffer.c:30-35 | appends as many characters as fit, in order, and returns that count; `data_added` is signalled once iff the count is positive and it is set |
| CharBuffer.WriteBufBlockingAsWritten | src/char_buffer.c:37-46 | writes the whole buffer in order but never leaves the loop; `data_added` is signalled once iff something was written and it is set |
| CharBuffer.WriteBufBlocking | src/char_buffer.c:37-46 | writes the buffer in order and returns once it is all written; after one attempt it has written as many as fit; `data_added` is signalled once iff something was written and it is set |
| CharBuffer.WriteStr | src/char_buffer.c:48-60 | appends the string's characters up to its NUL in order until one does not fit, and returns the count; `data_added`, when set, is signalled once per character written |
| CharBuffer.WriteStrBlockingAsWritten | src/char_buffer.c:62-70 | writes the first character over and over, never advancing, and leaves only when it is the NUL; `data_added`, when set, is signalled once per character appended |
| CharBuffer.WriteStrBlocking | src/char_buffer.c:62-70 | writes the string's characters in order and returns once it reaches the NUL; `data_added`, when set, is signalled once per character written |
| CharBuffer.ReadCh | src/char_buffer.c:72-75 | yields the oldest character iff the buffer is not empty; `data_added` is neither changed nor signalled |
| CharBuffer.ReadChBlocking | src/char_buffer.c:77-83 | retries until it yields the oldest character; `data_added` is neither changed nor signalled |
| CharBuffer.ReadBuf | src/char_buffer.c:85-90 | reads the oldest characters, as many as are held or asked for, in order; `data_added` is neither changed nor signalled |
| CharBuffer.ReadBufRound | src/char_buffer.c:96-97 | one read of the loop fills the output from the current position with the oldest characters; `data_added` is neither changed nor signalled |
| CharBuffer.ReadBufBlockingAsWritten | src/char_buffer.c:92-101 | reads the buffer's length of characters in order but never leaves the loop; `data_added` is neither changed nor signalled |
| CharBuffer.ReadBufBlocking | src/char_buffer.c:92-101 | reads characters in order and returns once the output is full; `data_added` is neither changed nor signalled |
| CharBuffer.ReadBufStep | src/char_buffer.c:96-97 | one round of the loop extends the characters read so far; `data_added` is neither changed nor signalled |
| CharBuffer.WriteBufStep | src/char_buffer.c:43 | one round of the loop appends the next characters, as many as fit, and extends the characters written so far; `data_added` is signalled once iff something was written and it is set |
| CharBuffer.BufBlockingScenario | src/char_buffer.c:43 | writing two characters, the loop as written is still running after five rounds, the corrected one has returned |
| CharBuffer.StrBlockingScenario | src/char_buffer.c:65-67 | writing "ab", the loop as written is still running after five attempts, the corrected one has returned having written 2 |
| RustMailbox.Copies | rust/src/mailbox.rs:164 | `n` copies of one message |
| RustMailbox.OffsetAtLeast | rust/src/mailbox.rs:65-71 | an element count is at most the byte length of that many elements |
| RustMailbox.OffsetMonoEq | rust/src/mailbox.rs:103-111 | fewer messages take no more bytes |
| RustMailbox.TypedMailbox.NewAsWritten | rust/src/mailbox.rs:61-75 | the raw mailbox spans `buf.len()` bytes, so it holds `buf.len() / size_of::<T>() - 1` messages; an empty slice gives a raw mailbox of length 0, no ring, whose first write lands past the end |
| RustMailbox.TypedMailbox.New | rust/src/mailbox.rs:61-75 | with the length in bytes, the mailbox holds `buf.len() - 1` messages; an empty slice gives a raw mailbox of length 0, no ring, whose first write lands past the end |
| RustMailbox.TypedMailbox.Write | rust/src/mailbox.rs:77-79 | true iff the message was appended |
| RustMailbox.TypedMailbox.WriteMultiple | rust/src/mailbox.rs:81-89 | appends as many of the messages as fit, in order, and returns that count |
| RustMailbox.TypedMailbox.Read | rust/src/mailbox.rs:91-101 | the oldest message iff the mailbox was not empty, otherwise nothing and no change |
| RustMailbox.TypedMailbox.ReadMultiple | rust/src/mailbox.rs:103-111 | reads the oldest messages, as many as are held or fit, in order |
| RustMailbox.RxChannelSpsc.TryRecv | rust/src/mailbox.rs:138-148 | `Ok` with the oldest message iff one was held, `Err(RecvError)` with no change otherwise |
| RustMailbox.RxChannelSpsc.RecvAsWritten | rust/src/mailbox.rs:128-136 | keeps reading while reads succeed, draining the mailbox, and returns the last message read |
| RustMailbox.RxChannelSpsc.Recv | rust/src/mailbox.rs:128-136 | waits for a message and returns the oldest one |
| RustMailbox.TxChannelSpsc.TrySend | rust/src/mailbox.rs:168-176 | `Ok` iff the message was appended, otherwise `Err` handing the message back, with no change |
| RustMailbox.TxChannelSpsc.SendAsWritten | rust/src/mailbox.rs:162-166 | keeps writing while writes succeed, filling the mailbox with copies of the message |
| RustMailbox.TxChannelSpsc.Send | rust/src/mailbox.rs:162-166 | waits for room and appends the message once |
| RustMailbox.ChannelSpsc | rust/src/mailbox.rs:184-199 | one receiving and one sending handle, both over the same raw mailbox |
| RustMailbox.NewScenario | rust/src/mailbox.rs:65-71 | a mailbox over four 4-byte values refuses its first write as written, and accepts it with the byte length |
| RustMailbox.RecvScenario | rust/src/mailbox.rs:132 | with two messages queued, `recv` as written returns the second, the corrected one the first |
| RustMailbox.SendScenario | rust/src/mailbox.rs:164 | one `send` into a channel with room for two enqueues two copies as written, one when corrected |
| ByteBuffer.RingOccupancy | src/buffer.c:28-35 | the buffer holds `(write_pos - read_pos) mod data_len` bytes, or `data_len` when `overflow` is set, and `overflow` implies equal cursors |
| ByteBuffer.RingEmpty | src/buffer.c:84 | the buffer is empty iff the cursors are equal and `overflow` is clear |
| ByteBuffer.RingPush | src/buffer.c:28-35 | storing at the write cursor and advancing it appends the byte, with `overflow` set iff the cursors meet |
| ByteBuffer.RingPop | src/buffer.c:86-95 | the byte at the read cursor is the oldest, and advancing the cursor removes it and clears `overflow` |
| ByteBuffer.Buffer.Init | src/buffer.c:43-54 | both cursors are 0, `overflow` is clear and the buffer is empty; it is a ring iff the length is positive; with length 0 the first `write_char` stores at the write cursor, which equals the length |
| ByteBuffer.Buffer.WriteChar | src/buffer.c:21-41 | fails with nothing changed iff `overflow` is set, that is iff the buffer holds `data_len` bytes; otherwise stores at the write cursor, advances it with wrap and sets `overflow` iff it meets the read cursor |
| ByteBuffer.Buffer.WriteByte | src/buffer.c:56-64 | appends the byte iff the buffer is not full, and notifies once iff it did |
| ByteBuffer.Buffer.WriteAsWritten | src/buffer.c:66-80 | appends at most the first byte, and returns 0 when it succeeds and the full length when it fails |
| ByteBuffer.Buffer.Write | src/buffer.c:66-80 | appends as many bytes as fit, in order, and returns that count |
| ByteBuffer.Buffer.ReadCh | src/buffer.c:82-101 | succeeds iff the cursors differ or `overflow` is set, that is iff the buffer is not empty; yields the oldest byte, advances the read cursor and clears `overflow` |
| ByteBuffer.Buffer.ReadAsWritten | src/buffer.c:103-113 | reads at most the oldest byte, and returns 0 when it succeeds and the full length when it fails |
| ByteBuffer.Buffer.Read | src/buffer.c:103-113 | reads the oldest bytes, as many as are held or fit, in order, and returns that count |
| ByteBuffer.WriteReadScenario | src/buffer.c:66-113 | two bytes written and read back: as written one byte each way and a count of 0, corrected both bytes and a count of 2 |
| PoolAlloc.Range | src/pool_alloc.c:30-38 | the block indices `lo` to `hi - 1` in order |
| PoolAlloc.Down | src/pool_alloc.c:53-58 | the block indices `k - 1` down to 0 |
| PoolAlloc.ChainInBounds | src/pool_alloc.c:41-51 | every block on the free list lies within the backing memory |
| PoolAlloc.ChainFrame | src/pool_alloc.c:53-58 | writing the link of a block not on the free list keeps the list |
| PoolAlloc.LinkedRun | src/pool_alloc.c:25-38 | blocks linked each to the next, the last to NULL, form the free list of all of them in index order |
| PoolAlloc.Pool.Init | src/pool_alloc.c:16-39 | block `i` links to block `i + 1`, the last links to NULL, and the head is block 0 |
| PoolAlloc.Pool.Take | src/pool_alloc.c:41-51 | returns the head and moves the head to the link stored in it; on an empty list returns NULL and changes nothing |
| PoolAlloc.Pool.Give | src/pool_alloc.c:53-58 | the block's link becomes the old head and the block becomes the head |
| PoolAlloc.Reverse | src/pool_alloc.c:53-58 | a sequence in reverse order |
| PoolAlloc.ReverseStep | src/pool_alloc.c:53-58 | giving back one more block puts it in front of those given back before |
| PoolAlloc.TakeAll | src/pool_alloc.c:41-51 | taking until NULL returns the free list in order and empties it |
| PoolAlloc.GiveNext | src/pool_alloc.c:53-58 | giving back the next block puts it at the head of the free list |
| PoolAlloc.GiveAll | src/pool_alloc.c:53-58 | giving back blocks one by one leaves them on the free list in reverse order, ahead of the blocks already there |
| PoolAlloc.AllocDealloc | src/pool_alloc.c:16-58 | after init, `n` takes return blocks 0 to `n - 1` and the next finds none; after giving them back, `n` takes return `n - 1` down to 0 |
| RustPool.Pool.New | rust/src/pool_alloc.rs:11-31 | slot `pos` links to slot `pos + 1`, the last to null, and the head is slot 0 |
| RustPool.TryNew | rust/src/pool_alloc.rs:11-31 | an empty slice panics with nothing written and no pool; any other slice gives the pool `Pool.New` builds |
| RustPool.Pool.Take | rust/src/pool_alloc.rs:33-44 | `None` iff the head is null, with no change; otherwise the head slot, and the head moves to the link stored in it |
| RustPool.Pool.Give | rust/src/pool_alloc.rs:46-53 | the block becomes the head and its link is the old head |
| RustPool.NewTakeGive | rust/src/pool_alloc.rs:11-53 | after `new` over `n` slots, `n` takes return slots 0 to `n - 1` and the next returns `None`; a block given back is taken next |
| RustTasks.MaskInterrupts | rust/src/tasks.rs:38-46 | returns the previous PRIMASK and leaves PRIMASK equal to bit 0 of the mask |
| RustTasks.Start | rust/src/tasks.rs:48-52 | PRIMASK becomes 1 and the guard holds its previous value |
| RustTasks.Drop | rust/src/tasks.rs:54-60 | PRIMASK becomes the value the guard saved |
| RustTasks.Critical | rust/src/tasks.rs:62-69 | the block runs with PRIMASK 1, its value is the result, and PRIMASK is restored afterwards |
| RustTasks.Nested | rust/src/tasks.rs:48-60 | after start, start and the inner drop PRIMASK is still 1; after the outer drop it is back to its first value |
| RustTasks.NestedSections | rust/src/tasks.rs:48-60 | with guards nested `d` deep, PRIMASK is 1 innermost and after each of the first `d - 1` drops, and is back to its value on entry after the last |
| RustTasks.NestedAt | rust/src/tasks.rs:48-60 | the same over a fresh core whose PRIMASK was `p` |

## Left out

- Context save and restore, exception return and the inline assembly of the start and PendSV code (`src/stack_m0.h`, `src/stack_m4f.h`, `src/stack_mx.h`, `push_prg_stack`/`pop_prg_stack` in `src/os.c`): a context switch is one step that changes the current task and its stack pointer.
- `src/syscalls.c`, `src/bsp.c` and `include/bsp.h`: newlib stubs and GPIO/EXTI access, not kernel bookkeeping.
- SysTick and NVIC set-up in `os_tasks_start` and `os_start_tasks`, and `os_task_wait_us`: hardware registers and a busy wait on a hardware counter.
- Stack painting and `os_get_stack_max_usage`, and `os_set_diagnostics`: they read memory contents the model does not hold.
- Newlib re-entrancy set-up (`_REENT_INIT_PTR`, `_impure_ptr`) in task set-up: no kernel logic.
- The task's name, function and parameters are kept as opaque numbers; calling the task function is out of scope, so the runner's exit path starts after it returns.
- The `data_added` callbacks: a counter of notifications stands for the call of arbitrary code.
- `CM_ATOMIC_CONTEXT` and `CM_ATOMIC_BLOCK`, and interrupt preemption: each operation is one atomic sequential step.
- `cm3_assert` checks become preconditions: `msg_buf_len % msg_size == 0` in the mailbox, `block_size >= sizeof(uintptr_t)` in the pool, `os_init` running once, and `os_is_initialized` in `os_task_add`.
- The Rust `yield_cpu`, `suspend_self`, `unsuspend` and `sleep` wrappers: plain calls into the C functions modelled here.
- Tick counts are unbounded integers: the 64-bit wrap of `os_tick_count` in a wake-up time is not modelled.
- Scheduler.Scheduler.AddToRunqueueHead: the `next_task` link that `sched_add_to_runqueue_head` leaves stale on an empty group is not modelled, because run queues are sequences.
- Scheduler.Scheduler.TakeHighest: the endless spin when every group is empty becomes a `None` result.
- Sync.AcquireStep: models one round of the retry loop of `os_resource_acquire`; the yield between rounds is a context switch.
- Tasks.Kernel.Sleep: requires that the current task is not already in the sleep queue, which the source guarantees: its PendSV handler requeues only a RUNNING task, so a sleeping task is never picked again before it wakes.
- Legacy.LegacyKernel.Delay: requires that the current task is not already in the delay queue. The as-written PendSV handler (`src/os.c:156`) breaks this: Legacy.DelayScenarioAsWritten ends with the current task still queued. A second `os_task_delay` from there reaches `SLIST_INSERT_AFTER` of the task after itself (`src/os.c:254-262`), which links the task to itself; at the next due tick `wakeup_tasks` (`src/os.c:106-117`) removes the head and finds the same task again, forever. A self-linked list is not a sequence, so that double insertion is excluded rather than modelled.
- Tasks.Kernel.TaskInit and Tasks.Kernel.TaskInitAsWritten: require that the task is not on the all-tasks list; re-initialising a listed task would corrupt the list in the source too.
- Tasks.Kernel.Fill: a fresh TCB's wake-up time is kept from the address's previous TCB, or 0; the source leaves the field as the caller's memory had it.
- Legacy.LegacyKernel.InitTask: requires that the task is not in the delay queue, as the source assumes of a task being set up.
- Legacy.LegacyKernel.GetHighest, Legacy.LegacyKernel.Switch, Legacy.LegacyKernel.PendSvAsWritten and Legacy.LegacyKernel.StartTasks: require the current task at the head of its group, as `STAILQ_REMOVE_HEAD` takes for granted. As written, both handlers make the task switched out RUNNABLE, so no task of a group waits ahead of the one picked and this holds. Under the corrected PendSV handler a DELAYED task can stay ahead of the current one, and the written rotation would then drop it, so Legacy.LegacyKernel.PendSv and Legacy.LegacyKernel.SysTick rotate with Legacy.MoveToTail, which agrees with the written rotation whenever the current task heads its group (Legacy.MoveToTailAtHead).
- Legacy.LegacyKernel.AddTask: `os_add_task` does not lower `highest_prio_group`, and neither does the model.
- Legacy.LegacyKernel.SysTick: states what the tick and the wake-up do, the rotation, and that the task switched to is RUNNING, not which task is picked; Legacy.LegacyKernel.Tick and Legacy.LegacyKernel.SwitchAfterTick state its two halves exactly.
- Scheduler.Scheduler.StartTasks and Legacy.LegacyKernel.StartTasks: the `stack += 16` step is an unbounded addition, not taken modulo 2^32.
- RustPool.Pool.New: gives every element its own link cell, which assumes `size_of::<T>()` is at least the size of a `usize`; `new` writes a `usize` into every element without checking, so for a narrower or zero-sized `T` the links overlap and the last write runs past the slice, which the model does not capture.
- RustMailbox.TypedMailbox.New and RustMailbox.TypedMailbox.NewAsWritten: require `0 < size_of::<T>() < 256`; `new` passes the size to the C mailbox's `uint8_t msg_size`, so a `T` of 256 bytes or more has its size truncated modulo 256, and a zero-sized `T` divides by zero in `cm3_assert(msg_buf_len % msg_size == 0)`; neither is modelled.
- Mailbox.Mailbox.Init, CharBuffer.Init, RustMailbox.TypedMailbox.New and RustMailbox.TypedMailbox.NewAsWritten: accept a length of 0, as `os_mailbox_init` does (`0 % msg_size == 0` passes its assertion), but the mailbox is then no ring and no operation on it is modelled; the source's first write stores a whole message at `msg_buf[0..msg_size)`, past the end, because `0 + msg_size != 0` (`src/mailbox.c:24-32`).
- ByteBuffer.Buffer.Init: accepts a length of 0, as `os_buffer_init` does, but no operation on that buffer is modelled; the source's first `write_char` stores at `data[0]`, past the end (`src/buffer.c:24`).
- RustPool.Pool.New: requires a non-empty slice; RustPool.TryNew covers the empty one, on which `new` panics at `backing_mem.len() - 1` (`rust/src/pool_alloc.rs:13`) or, without overflow checks, at `backing_mem[0]`.
- PoolAlloc.Pool.Init: requires at least one block; with `num_blocks == 0` the bound `num_blocks - 1` of the linking loop at `src/pool_alloc.c:30` wraps to 2^32 - 1 and the loop writes far past the pool.
- Addresses of tasks, stacks and functions are numbers below 2^32; the addresses of distinct TCBs are distinct map keys.
- The blocking calls (CharBuffer.WriteChBlocking, CharBuffer.WriteBufBlocking, CharBuffer.WriteStrBlocking, CharBuffer.ReadChBlocking, CharBuffer.ReadBufBlocking, RustMailbox.RxChannelSpsc.Recv, RustMailbox.TxChannelSpsc.Send and their as-written forms): take a `fuel` bound on the number of attempts, since progress depends on another context.
- The header of `os_mailbox_write_multiple` speaks of a byte count; the code returns a message count, and the model follows the code.
- The header `include/os.h` is out of date with `src/os.c`; the legacy model follows `src/os.c`.

## Findings

| source | as written | input that shows it | evidently intended | confidence | as-written member | corrected member |
|---|---|---|---|---|---|---|
| src/buffer.c:70,107 | `os_buffer_write` and `os_buffer_read` break on the first successful byte | two bytes written into an empty four-byte buffer: one is taken and 0 returned | transfer bytes until one fails and return how many | high, not executed | ByteBuffer.Buffer.WriteAsWritten, ByteBuffer.Buffer.ReadAsWritten, ByteBuffer.WriteReadScenario | ByteBuffer.Buffer.Write, ByteBuffer.Buffer.Read |
| src/char_buffer.c:43,98 | the blocking buffer loops run while `pos <= buf_len` | two characters into an empty four-byte buffer: the loop keeps running after both are written | return once `pos == buf_len` | high, not executed | CharBuffer.WriteBufBlockingAsWritten, CharBuffer.ReadBufBlockingAsWritten, CharBuffer.BufBlockingScenario | CharBuffer.WriteBufBlocking, CharBuffer.ReadBufBlocking |
| src/char_buffer.c:65-67 | `write_str_blocking` never increments `num_chars` | "ab" into an empty four-byte buffer: "a" is written again and again | write each character once and return at the NUL | high, not executed | CharBuffer.WriteStrBlockingAsWritten, CharBuffer.StrBlockingScenario | CharBuffer.WriteStrBlocking |
| rust/src/mailbox.rs:68 | `Mailbox::new` passes the element count as the byte length | a slice of four 4-byte values: the ring has one slot and refuses the first write | pass the slice's length in bytes | high, not executed | RustMailbox.TypedMailbox.NewAsWritten, RustMailbox.NewScenario | RustMailbox.TypedMailbox.New |
| rust/src/mailbox.rs:132,164 | `recv` loops while reads succeed and `send` while writes succeed | two messages queued: `recv` drains both and returns the second; one `send` into room for two enqueues two copies | loop while the call fails, then return | high, not executed | RustMailbox.RxChannelSpsc.RecvAsWritten, RustMailbox.TxChannelSpsc.SendAsWritten, RustMailbox.RecvScenario, RustMailbox.SendScenario | RustMailbox.RxChannelSpsc.Recv, RustMailbox.TxChannelSpsc.Send |
| src/scheduler.c:80-109 | `sched_start_tasks` leaves the first task RUNNABLE instead of RUNNING | the started task yields before the first tick: PendSV does not requeue it, the idle task runs, and the task is on no run queue | mark the started task RUNNING | medium, not executed | Scheduler.Scheduler.StartTasksAsWritten, Tasks.YieldAfterStartAsWritten, Tasks.StartScenario | Scheduler.Scheduler.StartTasks, Tasks.YieldAfterStart |
| src/tasks.c:146-170 | the stack size is checked before the top is aligned down | a 64-byte stack at address 1: the top becomes 64 and the frame starts at 0, below the base | check the size left after alignment | medium, not executed | Tasks.Kernel.TaskInitAsWritten, Tasks.TaskInitScenarioAsWritten | Tasks.Kernel.TaskInit, Tasks.TaskInitScenario |
| src/os.c:156 | the PendSV handler marks the current task RUNNABLE whatever its state | a task delays itself: at the switch it is made RUNNABLE and picked again while still in the delay queue | requeue only a RUNNING task, as `src/scheduler.c` does, and take the current task out of its group wherever it sits; as written, a second delay of the re-picked task links it to itself in the delay list and the next due tick never leaves `wakeup_tasks` | high, not executed | Legacy.LegacyKernel.PendSvAsWritten, Legacy.DelayScenarioAsWritten | Legacy.LegacyKernel.PendSv, Legacy.DelayScenario |
