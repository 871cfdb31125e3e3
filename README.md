# taskette kernel core in Dafny

This project models the kernel of taskette, a small preemptive real-time
kernel for Cortex-M and ESP32 RISC-V microcontrollers, and proves properties
of the model. It covers these parts:

- **Scheduler.** The scheduler's bookkeeping:
  - a task table of at most 16 tasks;
  - eleven FIFO ready queues, one per priority;
  - the 32-bit bitmap of non-empty levels;
  - the current task, the last allocated id and the started flag.

  Its operations are `init`, `spawn`, the context-switch decision
  `select_task`, `block_task`, `unblock_task`, `remove_task`, the queue
  primitives and the stack canary.
- **Futex.** A value plus a FIFO wait queue, with `wait` and `wake`.
- **Tick timer.** A tick counter plus a min-heap of one-shot wakeups, with
  `tick`, `wait_task_until`, `wait_until` and `current_time`.
- **`block_on` bridge.** `block_on`, which drives a future, and its raw
  waker.
- **Delay.** The sleeping `Delay` and its tick conversions.
- **Port code.** The ports' `push_to_stack`, the Cortex-M initial
  stack frame that PendSV restores, and the ESP32 idle stack and tick
  period.

Every critical section of the source is one atomic step, as on the
single-core targets. The scheduler, futex, timer and ESP32 statics are
classes whose methods update their fields in place. Each method is proved to
leave exactly the state that a pure function of the old state describes
(`SchedulerState.Block`, `Futex.WakeFrom`, `Timer.AtomicWait`, and so on). The
properties the kernel relies on are proved about those functions.

- Every method keeps two invariants: the bitmap matches queue emptiness, and
  queued tasks are runnable at their own priority.
- Every runnable task other than the running one waits in its queue. Each
  successful operation keeps this. An `unblock_task` that fails with
  `TaskFull` breaks it (`SchedulerState.UnblockOutcome`). A `spawn` whose
  level is full also breaks it, because the new task stays in the table but
  in no queue. A `spawn` into a full table changes only `last_task_id`
  (`SchedulerState.SpawnFailure`).
- The idle task is runnable and either running or queued at priority 0.
  Every operation keeps this, except blocking or removing the idle task
  itself. It is what makes `select_task` always find a task.

Memory is an `array<bv32>` of words for the stack canary, and an `array<bv8>`
of bytes indexed by address for stack frames. Calls that leave the modelled
code are parameters:

- the result of `task::current`;
- the outcome of each `park`;
- the future's successive poll results;
- whether the hardware timer accepts a period;
- whether the tick interrupt falls inside `wait_task_until`.

## Model

| member | source | states |
|---|---|---|
| `Task.DefaultConfig` | taskette/src/task.rs:24-28 | The default priority is 1, a valid user priority, so a default `spawn` never fails with `InvalidPriority`. |
| `Task.WithPriority` | taskette/src/task.rs:19-21 | The result has the given priority and is otherwise the input configuration. |
| `Task.Id` | taskette/src/task.rs:7-9 | The id is the one the handle was built from. |
| `SchedulerState.DefaultSchedulerConfig` | taskette/src/scheduler.rs:68-72 | The default tick frequency is 1000 Hz. |
| `SchedulerState.WithTickFreq` | taskette/src/scheduler.rs:62-66 | The result has the given tick frequency and is otherwise the input. |
| `PriorityMap.LowBit` | taskette/src/scheduler.rs:132 | The word `0b1`: bit 0 set, all other bits clear. |
| `PriorityMap.SetBit` | taskette/src/scheduler.rs:467 | Bit `n` is set and every other bit is unchanged. |
| `PriorityMap.ClearBit` | taskette/src/scheduler.rs:480 | Bit `n` is clear and every other bit is unchanged. |
| `PriorityMap.LeadingZeros` | taskette/src/scheduler.rs:332 | The result is 32 exactly when no bit is set; otherwise bit `31 - n` is set and every higher bit is clear. |
| `SchedulerState.Without` | taskette/src/scheduler.rs:492 | `retain`: the multiset of entries loses exactly the copies of `id`, every other element keeps its multiplicity, and a queue without `id` is unchanged. |
| `SchedulerState.WithoutConcat` | taskette/src/scheduler.rs:492 | `retain` keeps order: filtering a concatenation filters each part in place. |
| `SchedulerState.Enqueue` | taskette/src/scheduler.rs:457-470 | `TaskFull` exactly when the queue is at capacity, with nothing changed. Otherwise `id` goes at the tail and only the queues and bitmap change. The bitmap invariant is preserved. |
| `SchedulerState.Dequeue` | taskette/src/scheduler.rs:472-484 | Returns the front exactly when the queue is non-empty and removes it. Only the queues and bitmap change, and the bitmap invariant is preserved. |
| `SchedulerState.RemoveFromQueue` | taskette/src/scheduler.rs:486-497 | The queue loses every occurrence of `id`. Only the queues and bitmap change, and the bitmap invariant is preserved. |
| `SchedulerState.InitialState` | taskette/src/scheduler.rs:102-135 | Only the idle task 0 exists, unblocked, current and alone in queue 0. Every other queue is empty, `last_task_id` is 0 and the scheduler is not started. The invariant holds. |
| `SchedulerState.NextTaskId` | taskette/src/scheduler.rs:246-252 | The new id is never the idle id. It is `last + 1` below the `usize` limit and wraps to 1. |
| `SchedulerState.Spawn` | taskette/src/scheduler.rs:232-264 | The critical section of `spawn` keeps the scheduler invariant. |
| `SchedulerState.Admit` | taskette/src/scheduler.rs:238-261 | Inserting an unused, non-idle id with a valid priority and queueing it keeps the invariant. |
| `SchedulerState.SpawnEffect` | taskette/src/scheduler.rs:246-264 | `last_task_id` becomes `last + 1` even on failure. The spawn succeeds exactly when the table and the level's queue have room, and otherwise fails with `TaskFull`. On success the new id was unused, the task is unblocked at the tail of its queue and the current task is unchanged. On success every runnable task stays queued. |
| `SchedulerState.SpawnFailure` | taskette/src/scheduler.rs:246-261 | A spawn into a full table changes only `last_task_id`. A spawn whose level is full leaves the new task in the table, runnable and in no queue, and changes nothing else but `last_task_id`. |
| `SchedulerState.Block` | taskette/src/scheduler.rs:354-387 | `NotFound` exactly for an unknown id, with nothing changed. An already blocked task is a no-op. Otherwise the task is blocked, it is in no queue, no other task changes and the invariants are kept. |
| `SchedulerState.BlockEffect` | taskette/src/scheduler.rs:370-383 | Blocking a runnable task removes exactly its entries from its own level, in order, and leaves the other levels alone. It sets the reschedule request, and the current task and id counter stay as they were. |
| `SchedulerState.Unblock` | taskette/src/scheduler.rs:389-422 | `unblock_task` keeps the scheduler invariant. |
| `SchedulerState.UnblockEffect` | taskette/src/scheduler.rs:396-418 | `NotFound` exactly for an unknown id, with nothing changed. A runnable task is a no-op. Otherwise only its blocked flag clears. On success it is appended to its level's tail, and the only error besides `NotFound` is `TaskFull`. On success every runnable task stays queued. |
| `SchedulerState.UnblockOutcome` | taskette/src/scheduler.rs:405-418 | Unblocking a blocked task succeeds exactly when its level has room, and then requests a reschedule. On `TaskFull` only the blocked flag has changed: the task is left runnable and in no queue. |
| `SchedulerState.Remove` | taskette/src/scheduler.rs:435-455 | `NotFound` exactly for an unknown id, with nothing changed. Otherwise the control block is gone and its level becomes `Without` the id. The other levels, the current task, the id counter and the reschedule flag are unchanged, and the invariants are kept. |
| `SchedulerState.SpawnKeepsIdleReady` | taskette/src/scheduler.rs:232-264 | `spawn` keeps the idle task ready. |
| `SchedulerState.UnblockKeepsIdleReady` | taskette/src/scheduler.rs:389-422 | `unblock_task` keeps the idle task ready. |
| `SchedulerState.BlockKeepsIdleReady` | taskette/src/scheduler.rs:354-387 | Blocking any task but the idle one keeps the idle task ready. |
| `SchedulerState.RemoveKeepsIdleReady` | taskette/src/scheduler.rs:435-455 | Removing any task but the idle one keeps the idle task ready. |
| `SchedulerState.IdleKeepsSomeRunnable` | taskette/src/scheduler.rs:110-133 | While the idle task is ready (running or queued at priority 0), `select_task` always finds a task. |
| `SchedulerState.Requeue` | taskette/src/scheduler.rs:306-328 | `TaskFull` exactly when the outgoing task is runnable and its level is full. Otherwise a live outgoing task gets `orig_sp` saved whether or not it is blocked, and a runnable one is appended to the tail of its own queue. Afterwards every runnable task is queued, and some level is non-empty. |
| `SchedulerState.HighestLevel` | taskette/src/scheduler.rs:330-332 | `31 - leading_zeros` is a non-empty level with every higher level empty. |
| `SchedulerState.Pick` | taskette/src/scheduler.rs:334-345 | The chosen task is runnable and is the front of the highest non-empty level, which it leaves. It becomes current, and the task table is unchanged. |
| `SchedulerState.PickKeepsQueued` | taskette/src/scheduler.rs:334-340 | If every runnable task is queued before the pop, every runnable task other than the new current one is queued after it. |
| `SchedulerState.Select` | taskette/src/scheduler.rs:298-346 | Stack overflow exactly when the outgoing task is runnable and its canary is damaged. A full queue on the re-queue exactly when the canary is intact and the outgoing task's level is full. Both name the outgoing task. Otherwise the new current task is runnable, its saved stack pointer is returned and the invariants are kept. |
| `SchedulerState.SelectPicksHighestPriority` | taskette/src/scheduler.rs:298-346 | When every runnable task is queued, no runnable task after a switch has a priority above the new current task's. |
| `SchedulerState.PickIsHighest` | taskette/src/scheduler.rs:330-340 | The popped task has the highest priority among runnable tasks when all of them are queued. |
| `SchedulerState.SelectRoundRobin` | taskette/src/scheduler.rs:306-345 | Round robin: when no higher level has work, the switch takes the front of the outgoing task's level and puts the outgoing task at that level's tail. Only the outgoing task's stack pointer changes in the task table. |
| `SchedulerState.SelectKeepsIdleReady` | taskette/src/scheduler.rs:306-345 | A context switch keeps the idle task ready. |
| `SchedulerState.RequeueQueuesIdle` | taskette/src/scheduler.rs:306-328 | After a successful re-queue the idle task is runnable and queued at level 0. |
| `SchedulerState.PickKeepsIdleQueued` | taskette/src/scheduler.rs:330-340 | The pop either runs the idle task or leaves it queued at level 0. |
| `SchedulerState.SaveSp` | taskette/src/scheduler.rs:325-327 | Saving `orig_sp` changes no queue, no key, no priority, no blocked flag and no stack limit. |
| `SchedulerState.PutBack` | taskette/src/scheduler.rs:316-322 | Re-queueing a runnable task fails exactly when its level is full, and otherwise changes only the queues and bitmap. |
| `SchedulerState.SelectDequeueFirst` | taskette/src/scheduler.rs:298-346 | `select_task` with the re-queue after the dequeue, as its comment at line 315 describes. It panics on a damaged canary exactly as `Select` does; a switch goes to a runnable task and keeps the invariants. |
| `SchedulerState.DequeueFirstRequeues` | taskette/src/scheduler.rs:315-323 | With the dequeue first, a runnable outgoing task with an intact canary and no higher level with work is always switched from, even when its level is full. |
| `SchedulerState.DequeueFirstPopsFirst` | taskette/src/scheduler.rs:315-340 | The same when some level has work: the re-queue after the pop finds room. |
| `SchedulerState.PickLeavesRoom` | taskette/src/scheduler.rs:330-340 | When no level above `p` has work, the pop leaves level `p` below capacity. |
| `SchedulerState.IdleLevelSpawn` | taskette/src/scheduler.rs:232-264 | A spawn at priority 0 appends the next id to level 0. |
| `SchedulerState.IdleLevelReady` | taskette/src/scheduler.rs:102-135 | With only level 0 in use and the idle task running, every runnable task is queued and the idle task is ready. |
| `SchedulerState.IdleLevelInit` | taskette/src/scheduler.rs:102-135 | `init` leaves the idle task alone in level 0. |
| `SchedulerState.SpawnedAtIdleLevel` | taskette/src/scheduler.rs:102-264 | `init` followed by `k` spawns at priority 0 queues tasks `0..k` in id order at level 0. |
| `SchedulerState.ScenarioFirstSwitch` | taskette/src/scheduler.rs:306-345 | From that state with 15 spawns, a switch puts the idle task at the tail and runs it again from the front. Task 1 is left at the front of a 16-entry level 0. |
| `SchedulerState.RotatedIdleQueue` | taskette/src/scheduler.rs:316-340 | Moving the idle task from the front of `0..15` to its back puts task 1 at the front and nowhere else. |
| `SchedulerState.ScenarioSecondSwitch` | taskette/src/scheduler.rs:306-345 | The next switch queues the idle task a second time, leaving 16 entries at level 0. |
| `SchedulerState.ScenarioBlock` | taskette/src/scheduler.rs:354-387 | Task 1, running and in no queue, blocks without any queue change. |
| `SchedulerState.ScenarioUnblock` | taskette/src/scheduler.rs:389-422 | An unblock of task 1 before its switch fills level 0 to its 17 entries while task 1 still runs. |
| `SchedulerState.RequeueOverflowReachable` | taskette/src/scheduler.rs:316-323 | The steps `init`, 15 spawns, two switches, `block_task(1)` and `unblock_task(1)` keep every invariant. They reach a state where the next `select_task` as written panics at `unreachable!()`, while the dequeue-first order switches. |
| `Scheduler.FillStackCanary` | taskette/src/scheduler.rs:509-518 | The four canary words hold `0xABCD1234` and no other word changes. |
| `Scheduler.CheckStackCanary` | taskette/src/scheduler.rs:499-507 | Reports an overflow exactly when one of the four canary words differs. |
| `Scheduler.Scheduler.constructor` | taskette/src/scheduler.rs:30-31 | Before `init` there is no configuration and no state. |
| `Scheduler.Scheduler.ReplaceConfig` | taskette/src/scheduler.rs:89 | The stored configuration is the given one. |
| `Scheduler.Scheduler.GetConfig` | taskette/src/scheduler.rs:195-198 | Returns the stored configuration, or `NotInitialized`. |
| `Scheduler.Scheduler.InstallState` | taskette/src/scheduler.rs:102-136 | Fails without change if the state exists. Otherwise it installs `InitialState`. |
| `Scheduler.Scheduler.MarkStarted` | taskette/src/scheduler.rs:163-168 | Sets `started` when the state exists. |
| `Scheduler.Scheduler.EnqueueTask` | taskette/src/scheduler.rs:457-470 | Leaves the state `Enqueue` gives, or changes nothing on `TaskFull`. |
| `Scheduler.Scheduler.DequeueTask` | taskette/src/scheduler.rs:472-484 | Returns what `Dequeue` returns and leaves the state it gives. |
| `Scheduler.Scheduler.RemoveTaskFromQueue` | taskette/src/scheduler.rs:486-497 | Leaves the state `RemoveFromQueue` gives. |
| `Scheduler.Scheduler.Spawn` | taskette/src/scheduler.rs:201-286 | Priority above 10 gives `InvalidPriority` with nothing changed. Otherwise the canary is written first. Before `init` the result is `NotInitialized`; after it, the state and handle are those of `SchedulerState.Spawn`. |
| `Scheduler.Scheduler.SpawnLocked` | taskette/src/scheduler.rs:232-264 | Leaves the state and result of `SchedulerState.Spawn`. |
| `Scheduler.Scheduler.SelectTask` | taskette/src/scheduler.rs:298-352 | Panics before `init`. Panics with the outgoing id on a damaged canary, or at `unreachable!()` when its level is full; either way nothing changes. Otherwise it returns the stack pointer and state of `Select`. |
| `Scheduler.Scheduler.RequeueOutgoing` | taskette/src/scheduler.rs:306-328 | Reports a stack overflow exactly for a runnable outgoing task with a damaged canary, and otherwise the `unreachable!()` exactly when the re-queue finds the level full. Either way nothing changes. Otherwise it leaves the state `Requeue` gives. |
| `Scheduler.Scheduler.PickNext` | taskette/src/scheduler.rs:330-345 | Leaves the state `Pick` gives and returns the new current task's saved stack pointer. |
| `Scheduler.Scheduler.BlockTask` | taskette/src/scheduler.rs:354-387 | `NotInitialized` before `init`. Otherwise the result and state of `Block`. |
| `Scheduler.Scheduler.UnblockTask` | taskette/src/scheduler.rs:389-422 | `NotInitialized` before `init`. Otherwise the result and state of `Unblock`. |
| `Scheduler.Scheduler.YieldNow` | taskette/src/scheduler.rs:381 | A context switch is requested. |
| `Scheduler.Scheduler.CurrentTaskId` | taskette/src/scheduler.rs:424-433 | The current task, or `NotInitialized`. |
| `Scheduler.Scheduler.RemoveTask` | taskette/src/scheduler.rs:435-455 | Panics before `init`. Otherwise the result and state of `Remove`. |
| `Kernel.Init` | taskette/src/scheduler.rs:88-151 | The configuration is always stored. Without an idle stack the result is `None`. Otherwise the canary is written at the idle stack's bottom. A second `init` is `None` and leaves scheduler and timer alone. A first one installs `InitialState`, resets the timer to time 0 with no registrations, and returns the handle. |
| `Kernel.HandleTick` | taskette/src/scheduler.rs:289-295 | One timer tick, exactly as `Timer.Timer.Tick`, then a reschedule request. |
| `Futex.WakeFrom` | taskette/src/futex.rs:59-73 | A successful wake pops exactly `min(num, waiters)` ids. A failed one pops at least one and no more than that. The invariant is kept. |
| `Futex.MarkUnblockedEffect` | taskette/src/futex.rs:64-65 | After unblocking a run of waiters, a task among them is runnable with nothing else changed, and any other task is as before. |
| `Futex.WakeFromStep` | taskette/src/futex.rs:61-68 | One round of the loop: pop the front waiter, unblock it, stop on error. |
| `Futex.MarkUnblockedSnoc` | taskette/src/futex.rs:61-68 | Waking one more waiter adds one `unblock_task` effect at the end. |
| `Futex.WakeFromTasks` | taskette/src/futex.rs:59-73 | Waking changes the task table only by `unblock_task` on the popped waiters. |
| `Futex.WakeFromLive` | taskette/src/futex.rs:64-65 | A successful wake popped only live task ids. |
| `Futex.WakeFromError` | taskette/src/futex.rs:64-66 | A wake fails only with `NotFound` or `TaskFull`, the errors of `unblock_task`. |
| `Futex.WakeFromEffect` | taskette/src/futex.rs:59-73 | After a wake, each live popped waiter is runnable with nothing else changed, and every other task is as before. |
| `Futex.WaitThenWakeAll` | taskette/src/futex.rs:38-83 | No lost wakeup: once `wait` has queued and blocked the current task, a successful `wake(num)` with `num` above the number of earlier waiters leaves it runnable. `wake_all`'s `wake(16)` is such a wake, since fewer than 16 tasks wait before the append. |
| `Futex.Futex.constructor` | taskette/src/futex.rs:25-30 | The given value, with nobody waiting. |
| `Futex.Futex.Load` | taskette/src/futex.rs:86-90 | Reads the value. |
| `Futex.Futex.Store` | taskette/src/futex.rs:86-90 | The only way the value changes. |
| `Futex.Futex.Wait` | taskette/src/futex.rs:35-56 | A value mismatch returns Ok with nothing queued or blocked. A match before `init` is `NotInitialized`. Otherwise the current task is appended to the queue and the result and state are those of `Block`. The value is never written. |
| `Futex.Futex.WaitLocked` | taskette/src/futex.rs:38-52 | The re-check, the append and the block happen in one critical section, with the same outcomes as `Wait`. |
| `Futex.Futex.Wake` | taskette/src/futex.rs:59-73 | The result and state of `WakeFrom`, with the queue losing exactly its popped front. Before `init` an empty queue gives Ok, and a non-empty one loses its front and fails with `NotInitialized`. |
| `Futex.Futex.WakeOne` | taskette/src/futex.rs:76-78 | `wake(1)`. |
| `Futex.Futex.WakeAll` | taskette/src/futex.rs:81-83 | `wake(16)`. |
| `Timer.Compare` | taskette/src/timer.rs:26-30 | `Less`, `Equal` and `Greater` exactly when the first time is earlier than, equal to or later than the second. |
| `Timer.CompareIsTimeOrder` | taskette/src/timer.rs:26-43 | The order is antisymmetric and ignores task ids. |
| `Timer.EarliestExists` | taskette/src/timer.rs:73 | A non-empty heap has a top. |
| `Timer.FiresTotal` | taskette/src/timer.rs:71-79 | Every timer allows some tick outcome. |
| `Timer.Advance` | taskette/src/timer.rs:71-79 | A tick adds exactly 1 to the time. It removes one registration exactly when one fires, and keeps every registration not yet due. |
| `Timer.Release` | taskette/src/timer.rs:77 | Unblocking the fired task keeps the scheduler invariant. |
| `Timer.ReleaseEffect` | taskette/src/timer.rs:73-78 | The released task becomes runnable and no other task changes. |
| `Timer.Register` | taskette/src/timer.rs:87-101 | A time already reached needs no wait and no push. A full heap gives `TimerFull` with no change. Otherwise the registration is added. The time is unchanged. |
| `Timer.AtomicWait` | taskette/src/timer.rs:84-108 | The corrected wait, with push and block in one critical section, keeps the invariants. |
| `Timer.SplitWait` | taskette/src/timer.rs:84-108 | The wait as written, with a tick between push and block, keeps the scheduler invariant. |
| `Timer.AtomicWaitArms` | taskette/src/timer.rs:87-105 | After the corrected wait, a blocked waiter always has its registration in the heap. |
| `Timer.TickKeepsArmed` | taskette/src/timer.rs:64-81 | Ticks keep a wakeup armed. |
| `Timer.SplitWaitLosesWakeup` | taskette/src/timer.rs:98-104 | As written, a tick between the sections leaves the task blocked, the heap empty and the wakeup lost for good. |
| `Timer.Timer.constructor` | taskette/src/timer.rs:19 | No timer before `init`. |
| `Timer.Timer.Init` | taskette/src/timer.rs:52-62 | Time 0 and an empty heap. |
| `Timer.Timer.Tick` | taskette/src/timer.rs:64-81 | A no-op before `init`. Otherwise it moves the timer by `Advance` and the scheduler by `Release`. |
| `Timer.Timer.ReleaseDue` | taskette/src/timer.rs:73-79 | Pops a due top, if there is one, and unblocks its task, ignoring any error. |
| `Timer.Timer.RegisterTimeout` | taskette/src/timer.rs:87-101 | `NotInitialized` before `init`, otherwise `Register`. |
| `Timer.Timer.WaitTaskUntil` | taskette/src/timer.rs:84-108 | As written: `AtomicWait` when no tick intervenes, `SplitWait` when one does. |
| `Timer.Timer.WaitTaskUntilAtomic` | taskette/src/timer.rs:84-108 | The corrected wait; leaves `AtomicWait`'s outcome. |
| `Timer.Timer.WaitUntil` | taskette/src/timer.rs:111-113 | `NotInitialized` with nothing changed before `init`. Otherwise `wait_task_until` as written for the current task: `AtomicWait` when no tick intervenes, `SplitWait` when one does. |
| `Timer.Timer.CurrentTime` | taskette/src/timer.rs:116-125 | The time, unchanged, or `NotInitialized`. |
| `Futures.WakerClone` | taskette-utils/src/futures.rs:42-44 | Same data, same vtable. |
| `Futures.WakerWake` | taskette-utils/src/futures.rs:46-49 | Unparks the task the data designates. |
| `Futures.WakerWakeByRef` | taskette-utils/src/futures.rs:51-54 | The same as `wake`. |
| `Futures.WakerDrop` | taskette-utils/src/futures.rs:56-58 | No effect. |
| `Futures.ExpectUnparked` | taskette-utils/src/futures.rs:48 | A failed unpark is a panic. |
| `Futures.ClonedWakerUnparksCaller` | taskette-utils/src/futures.rs:42-54 | Any clone, woken by value or by reference, unparks the caller of `block_on`. |
| `Futures.FirstReady` | taskette-utils/src/futures.rs:34-39 | The first `Ready` poll, all earlier ones `Pending`. |
| `Futures.PollPark` | taskette-utils/src/futures.rs:35-37 | A run of `k` poll-park pairs. |
| `Futures.RunCompletes` | taskette-utils/src/futures.rs:34-39 | With no park failing, `block_on` returns the first `Ready` value. Its trace is one park per `Pending`, then a final poll and nothing after. |
| `Futures.RunPanics` | taskette-utils/src/futures.rs:37 | The first failing park panics right after itself. |
| `Futures.BlockOn` | taskette-utils/src/futures.rs:20-40 | Panics with no current task. Otherwise the waker's data is the current task's handle, and the result and trace are those of the loop. |
| `Delay.DivCeil` | taskette-utils/src/delay.rs:25 | `q*d >= n` and `q*d < n + d`. |
| `Delay.DivCeilIsLeast` | taskette-utils/src/delay.rs:25 | The ceiling is the least such `q`. |
| `Delay.Ticks` | taskette-utils/src/delay.rs:24-34 | The least tick count lasting at least the duration: `k*perSecond >= amount*tickFreq > k*perSecond - perSecond`. |
| `Delay.TicksMonotone` | taskette-utils/src/delay.rs:24-34 | A longer duration never gives fewer ticks, and zero gives zero. |
| `Delay.AsWrittenAgreesWithoutOverflow` | taskette-utils/src/delay.rs:25-33 | While the product fits in 32 bits the source's tick count is the intended one. |
| `Delay.DelayNsOverflow` | taskette-utils/src/delay.rs:25 | The counterexample: 5 ms in ns at 1000 Hz gives 1 tick, not 5. |
| `Delay.NewDelay` | taskette-utils/src/delay.rs:11-15 | The configured tick frequency, or `NotInitialized`. |
| `Delay.Deadline` | taskette-utils/src/delay.rs:19 | `now + ticks` when that fits in `u64`. |
| `Delay.WaitPanics` | taskette-utils/src/delay.rs:19 | A delay ends normally exactly when its wait succeeded, and otherwise panics with the wait's error. |
| `Delay.DelayTicks` | taskette-utils/src/delay.rs:17-20 | A panic before the timer exists. Otherwise `wait_until` as written for the deadline and the current task, with or without a tick inside it, panicking on its error. |
| `Delay.DelayFor` | taskette-utils/src/delay.rs:24-34 | `delay_ns`/`us`/`ms` as written: the wait for `TicksAsWritten` of the duration, with the product wrapped to `u32`. |
| `StackPush.RoundUp` | taskette-cortex-m/src/lib.rs:176-182 | A multiple of the alignment, less than one alignment above the size, and equal to the size exactly when the size is a multiple. |
| `StackPush.RoundUpIsLeast` | taskette-cortex-m/src/lib.rs:176-182 | The least multiple not below the size. |
| `StackPush.PushToStack` | taskette-cortex-m/src/lib.rs:174-188 | Returns `sp - rounded`, with the object's bytes there and nothing else written. An aligned `sp` stays aligned. |
| `StackPush.AlignedDifference` | taskette-cortex-m/src/lib.rs:184 | The difference of two multiples of the alignment is one. |
| `CortexM.FromPcAndR0` | taskette-cortex-m/src/lib.rs:24-35 | `pc` and `r0` as given, `xpsr = 1 << 24`, and every other register zero. |
| `CortexM.NewSoftwareFrame` | taskette-cortex-m/src/lib.rs:53-64 | r4-r11 are all zero. |
| `CortexM.LoadStoredWord` | taskette-cortex-m/src/lib.rs:83-89 | A stored little-endian word loads back. |
| `CortexM.LoadStoredWordAt` | taskette-cortex-m/src/lib.rs:83-89 | Each word of a stored sequence loads back. |
| `CortexM.LoadStoredWords` | taskette-cortex-m/src/lib.rs:83-89 | `ldmia` over stored words gives the words back. |
| `CortexM.RestoreFrames` | taskette-cortex-m/src/lib.rs:83-89 | Frames laid out one above the other are exactly what PendSV and the exception return restore. |
| `CortexM.InitStack` | taskette-cortex-m/src/lib.rs:150-166 | Returns `sp - round8(arg) - 64`, with the argument copied above the frames. PendSV's first restore gives the zero software frame and the hardware frame entering `pc` with `r0` at the argument. Nothing outside the pushed region changes. |
| `CortexM.PushFrames` | taskette-cortex-m/src/lib.rs:155-165 | The two frames land where PendSV reads them. |
| `EspRiscv.PushToStack` | taskette-esp-riscv/src/lib.rs:110-125 | Less than 16 bytes of padding and the object copied to the returned `sp`, with nothing else written. A 16-aligned `sp` stays aligned. |
| `EspRiscv.IdleStackCell.constructor` | taskette-esp-riscv/src/lib.rs:21-22 | The idle stack is not yet taken. |
| `EspRiscv.IdleStackCell.TryTake` | taskette-esp-riscv/src/lib.rs:96-102 | The 2048-byte stack on the first call, `None` on every later one. |
| `EspRiscv.PeriodMicros` | taskette-esp-riscv/src/lib.rs:62 | The longest whole-microsecond period of which `tick_freq` fit in a second. |
| `EspRiscv.TickTimer.constructor` | taskette-esp-riscv/src/lib.rs:23-25 | No tick frequency and no timer. |
| `EspRiscv.TickTimer.Setup` | taskette-esp-riscv/src/lib.rs:46-49 | Stores the tick frequency and the timer. |
| `EspRiscv.TickTimer.StartTimer` | taskette-esp-riscv/src/lib.rs:54-65 | Panics before setup, on a zero frequency, and on a refused start. Otherwise the timer runs with `PeriodMicros`. |

## Left out

- Assembly, exception handlers and peripheral setup are hardware I/O and are not modelled:
  - PendSV and SysTick, `_taskette_setup_interrupt` and `_taskette_setup_timer` (taskette-cortex-m/src/lib.rs:79-147);
  - the ESP32 timer and interrupt plumbing.

  Only the frame layout PendSV relies on is modelled.
- `Scheduler::start`, `call_closure`, `_taskette_run_with_stack` and the idle loop diverge onto raw stacks. Only `start`'s bookkeeping is modelled, as `MarkStarted`.
- The ESP32 `_taskette_yield_now`, `_taskette_init_stack` and `_taskette_run_with_stack` are unimplemented in the source.
- Concurrency is reduced to atomic critical sections. The one interleaving that matters, a tick inside `wait_task_until`, is modelled explicitly with the `interrupted` parameter. The futex value is a plain integer, without atomic orderings.
- `task::current`, `park` and `unpark` are not part of this model. Their outcomes are inputs to `BlockOn`, and wakers report the unpark they ask for.
- `BlockOn` covers futures that become `Ready` after finitely many polls. A future that never completes, so that `block_on` never returns, is not modelled.
- `Scheduler.Scheduler.Spawn` takes the initial stack pointer as a parameter. It is what the port's `_taskette_init_stack` returns (`CortexM.InitStack`). `ManuallyDrop` and stack ownership are not modelled.
- `SchedulerState.Spawn`: requires `last_task_id + 1 < 2^32`. The wrapping id itself is modelled by `NextTaskId`, but spawning 2^32 tasks is not.
- `Scheduler.Scheduler.Spawn`: requests the reschedule inside the same step. The source reads `started` in a later critical section; no other step can run between the two on one core.
- `Timer.Timer.Tick`: requires the time to stay below 2^64. A `u64` overflow of the tick count is not modelled.
- `Futex.Futex.Wait`: requires a wait queue below its 16-entry capacity. The source treats a full queue as unreachable.
- `Futex.Futex.Wake`: its contract is agreement with `WakeFrom`. The FIFO, task-table, liveness and error facts are proved as lemmas about `WakeFrom`, not restated on the method.
- `Timer.Fires` leaves open which of several registrations with the same least time pops first. This depends on the heap's internal layout.
- `Delay.Deadline`: `now + ticks` wraps modulo 2^64 (release-build arithmetic). Debug-build overflow panics are not modelled. `Delay.DelayFor` wraps the `u32` product as a release build does.
- `SchedulerState.SelectDequeueFirst`: the dequeue-first order is proved to avoid the re-queue overflow only when no level above the outgoing task's has work. When a higher level has work, the level that loses an entry is not the outgoing task's, and a full outgoing level still overflows.
- `SchedulerState.BlockKeepsIdleReady` and `SchedulerState.RemoveKeepsIdleReady` exclude the idle task, because blocking or removing it does end its readiness. No source path calls `block_task` or `remove_task` for the idle task, since the idle loop (taskette/src/scheduler.rs:170-180) never waits or returns.
- The stack canary is modelled with the `stack-canary` feature enabled.
- Logging calls have no effect on state and are left out.

## Findings

| source | as written | input that shows it | evidently intended | confidence | as-written member | corrected member |
|---|---|---|---|---|---|---|
| taskette/src/timer.rs:87-105 | The registration is pushed in one critical section and `block_task` runs in a second one. A tick in between pops the registration, and `unblock_task` on the not-yet-blocked task is a no-op. | A running task on an empty heap calls `wait_task_until(now + 1)`, and the tick interrupt lands between the two sections. The task ends blocked, the heap is empty and no tick ever wakes it. | Push and block in one critical section, as `Futex::wait` does. | medium; not executed | `Timer.SplitWaitLosesWakeup` | `Timer.AtomicWaitArms` |
| taskette-utils/src/delay.rs:25 | `(ns * self.tick_freq) as u64` multiplies in `u32`, which wraps before the widening. | `delay_ns(5_000_000)` at the default 1000 Hz: the product 5e9 wraps to 705_032_704, giving 1 tick instead of 5. | Widen before multiplying, so that the tick count lasts at least the duration. | high; not executed | `Delay.DelayNsOverflow` | `Delay.Ticks` |
| taskette/src/scheduler.rs:315-323 | `select_task` appends the runnable outgoing task to its level before it dequeues the next task, although the comment at line 315 says the enqueue was placed after the dequeue to avoid overflow. A full level makes `enqueue_task` fail and `unreachable!()` panic. | `init`, 15 spawns at priority 0 and two context switches leave 16 entries at level 0 with task 1 running. Then `block_task(1)` and an interrupt's `unblock_task(1)` before the switch put task 1 in level 0 as well, making 17 entries while it still runs. The next `select_task` panics. | Dequeue the next task first, then re-queue the outgoing one, so that the slot just freed takes it. | medium; not executed | `SchedulerState.RequeueOverflowReachable` | `SchedulerState.DequeueFirstRequeues` |
