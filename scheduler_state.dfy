/** The scheduler's bookkeeping as values: the task table, the per-priority
    FIFO queues, the bitmap of non-empty levels, and one function per
    critical-section body of the scheduler. The class in module `Scheduler`
    runs these steps in place and is proved against the functions here. */
module SchedulerState {
  import opened Errors
  import opened Task
  import PM = PriorityMap

  const MAX_NUM_TASKS: nat := 16
  const IDLE_TASK_ID: nat := 0
  const IDLE_PRIORITY: nat := 0
  /** Number of priority levels, one queue each. */
  const NUM_LEVELS: nat := MAX_PRIORITY + 1
  /** Capacity of each ready queue: one more than the task table, so that
      the outgoing task can always be put back. */
  const QUEUE_LEN: nat := MAX_NUM_TASKS + 1
  const STACK_CANARY: bv32 := 0xABCD1234
  const STACK_CANARY_LEN: nat := 4
  /** 2^32: `usize` is 32 bits wide on both supported targets. */
  const USIZE_LIMIT: nat := 0x1_0000_0000

  /** Task control block. `stackLimit` is the word address of the bottom of
      the task's stack, where the canary words live. */
  datatype TaskInfo = TaskInfo(stackPointer: nat, priority: nat, blocked: bool, stackLimit: nat)

  /** Kernel-wide settings. */
  datatype SchedulerConfig = SchedulerConfig(tickFreq: nat)

  /** The default configuration ticks at 1000 Hz. */
  function DefaultSchedulerConfig(): (c: SchedulerConfig)
    ensures c.tickFreq == 1000
  {
    SchedulerConfig(1000)
  }

  /** The configuration with its tick frequency replaced. */
  function WithTickFreq(c: SchedulerConfig, tickFreq: nat): (r: SchedulerConfig)
    ensures r.tickFreq == tickFreq && r == c.(tickFreq := tickFreq)
  {
    SchedulerConfig(tickFreq)
  }

  /** The scheduler state once it exists. `reschedulePending` records that
      `yield_now` was called: a context switch (`select_task`) will run as
      soon as interrupts allow. */
  datatype SchedState = SchedState(
    tasks: map<nat, TaskInfo>,
    lastTaskId: nat,
    queues: seq<seq<nat>>,
    priorityMap: seq<bool>,
    currentTask: nat,
    started: bool,
    reschedulePending: bool)

  /** What a critical section returns together with the state it leaves. */
  datatype Step<T> = Step(result: Result<T>, state: SchedState)

  // ---------------------------------------------------------------------
  // Invariants

  predicate QueuesWf(st: SchedState) {
    && |st.queues| == NUM_LEVELS
    && PM.Wf(st.priorityMap)
    && forall p :: 0 <= p < NUM_LEVELS ==> |st.queues[p]| <= QUEUE_LEN
  }

  /** Bit `n` of the map is set exactly when queue `n` is non-empty. */
  predicate BitmapMatches(st: SchedState)
    requires QueuesWf(st)
  {
    forall n :: 0 <= n < PM.WIDTH ==> (st.priorityMap[n] <==> n < NUM_LEVELS && st.queues[n] != [])
  }

  predicate Runnable(st: SchedState, id: nat, p: nat) {
    id in st.tasks && st.tasks[id].priority == p && !st.tasks[id].blocked
  }

  /** Every queued id is a known, unblocked task queued at its own priority. */
  predicate QueuedAreRunnable(st: SchedState)
    requires QueuesWf(st)
  {
    forall p, id :: 0 <= p < NUM_LEVELS && id in st.queues[p] ==> Runnable(st, id, p)
  }

  predicate TasksWf(st: SchedState) {
    && |st.tasks| <= MAX_NUM_TASKS
    && st.lastTaskId < USIZE_LIMIT
    && (forall id :: id in st.tasks ==> st.tasks[id].priority <= MAX_PRIORITY && id <= st.lastTaskId)
    && (IDLE_TASK_ID in st.tasks ==> st.tasks[IDLE_TASK_ID].priority == IDLE_PRIORITY)
  }

  /** The invariant every scheduler operation keeps. */
  predicate Inv(st: SchedState) {
    QueuesWf(st) && BitmapMatches(st) && QueuedAreRunnable(st) && TasksWf(st)
  }

  /** Every unblocked task other than the running one waits in the queue of
      its own priority. Kept by every operation that returns `Ok`. */
  predicate RunnableQueued(st: SchedState)
    requires Inv(st)
  {
    forall id :: id in st.tasks && !st.tasks[id].blocked && id != st.currentTask ==>
      id in st.queues[st.tasks[id].priority]
  }

  /** The idle task exists and is not blocked. */
  predicate IdleRunnable(st: SchedState) {
    IDLE_TASK_ID in st.tasks && !st.tasks[IDLE_TASK_ID].blocked
  }

  /** The idle task is runnable and is either the running task or waiting
      in queue 0. `init` sets this up; every operation keeps it, except
      blocking or removing the idle task itself, which no caller does (the
      idle loop never waits and never returns). */
  predicate IdleReady(st: SchedState)
    requires Inv(st)
  {
    IdleRunnable(st) && (st.currentTask == IDLE_TASK_ID || IDLE_TASK_ID in st.queues[IDLE_PRIORITY])
  }

  // ---------------------------------------------------------------------
  // Queue primitives

  /** `Deque::retain(|e| *e != id)`: every occurrence of `id` removed, the
      rest in order. */
  function Without(q: seq<nat>, id: nat): (r: seq<nat>)
    ensures |r| <= |q|
    ensures forall x :: x in r <==> x in q && x != id
    ensures multiset(r) == multiset(q)[id := 0]
    ensures id !in q ==> r == q
  {
    if q == [] then []
    else
      assert q == [q[0]] + q[1..];
      (if q[0] == id then [] else [q[0]]) + Without(q[1..], id)
  }

  /** `retain` keeps the order of what it keeps: filtering a concatenation
      filters each part in place. */
  lemma {:induction false} WithoutConcat(a: seq<nat>, b: seq<nat>, id: nat)
    ensures Without(a + b, id) == Without(a, id) + Without(b, id)
    decreases |a|
  {
    if a != [] {
      assert (a + b)[1..] == a[1..] + b;
      WithoutConcat(a[1..], b, id);
    } else {
      assert a + b == b;
    }
  }

  /** `enqueue_task`: push `id` at the tail of queue `priority` and set its
      bit; a full queue gives `TaskFull` and changes nothing. */
  function Enqueue(st: SchedState, id: nat, priority: nat): (r: Result<SchedState>)
    requires QueuesWf(st) && priority < NUM_LEVELS
    ensures r.Err? <==> |st.queues[priority]| == QUEUE_LEN
    ensures r.Err? ==> r.error == TaskFull
    ensures r.Ok? ==>
      && QueuesWf(r.value)
      && r.value.queues == st.queues[priority := st.queues[priority] + [id]]
      && r.value == st.(queues := r.value.queues, priorityMap := r.value.priorityMap)
    ensures r.Ok? && BitmapMatches(st) ==> BitmapMatches(r.value)
  {
    if |st.queues[priority]| >= QUEUE_LEN then Err(TaskFull)
    else
      Ok(st.(queues := st.queues[priority := st.queues[priority] + [id]],
             priorityMap := PM.SetBit(st.priorityMap, priority)))
  }

  /** `dequeue_task`: pop the front of queue `priority` (if any) and clear
      the level's bit when the queue is left empty. */
  function Dequeue(st: SchedState, priority: nat): (r: (Option<nat>, SchedState))
    requires QueuesWf(st) && priority < NUM_LEVELS
    ensures QueuesWf(r.1)
    ensures r.0.Some? <==> st.queues[priority] != []
    ensures r.0.Some? ==>
      && r.0.value == st.queues[priority][0]
      && r.1.queues == st.queues[priority := st.queues[priority][1..]]
    ensures r.0.None? ==> r.1.queues == st.queues
    ensures r.1 == st.(queues := r.1.queues, priorityMap := r.1.priorityMap)
    ensures BitmapMatches(st) ==> BitmapMatches(r.1)
  {
    var q := st.queues[priority];
    var front := if q == [] then None else Some(q[0]);
    var rest := if q == [] then q else q[1..];
    var st1 := st.(queues := st.queues[priority := rest]);
    (front, if rest == [] then st1.(priorityMap := PM.ClearBit(st1.priorityMap, priority)) else st1)
  }

  /** `remove_task_from_queue`: drop every occurrence of `id` from queue
      `priority` and clear the level's bit when the queue is left empty. */
  function RemoveFromQueue(st: SchedState, id: nat, priority: nat): (r: SchedState)
    requires QueuesWf(st) && priority < NUM_LEVELS
    ensures QueuesWf(r)
    ensures r.queues == st.queues[priority := Without(st.queues[priority], id)]
    ensures r == st.(queues := r.queues, priorityMap := r.priorityMap)
    ensures BitmapMatches(st) ==> BitmapMatches(r)
  {
    var q := Without(st.queues[priority], id);
    var st1 := st.(queues := st.queues[priority := q]);
    if q == [] then st1.(priorityMap := PM.ClearBit(st1.priorityMap, priority)) else st1
  }

  // ---------------------------------------------------------------------
  // Initial state

  /** The state `init` installs: only the idle task, queued at priority 0
      and current; only bit 0 of the map set. */
  function InitialState(idleStackLimit: nat): (st: SchedState)
    ensures Inv(st) && RunnableQueued(st) && IdleReady(st)
    ensures st.tasks.Keys == {IDLE_TASK_ID} && st.currentTask == IDLE_TASK_ID
    ensures st.queues[IDLE_PRIORITY] == [IDLE_TASK_ID]
    ensures forall p :: 0 < p < NUM_LEVELS ==> st.queues[p] == []
    ensures !st.started && st.lastTaskId == IDLE_TASK_ID
  {
    var st := SchedState(
      map[IDLE_TASK_ID := TaskInfo(0, IDLE_PRIORITY, false, idleStackLimit)],
      IDLE_TASK_ID,
      [[IDLE_TASK_ID]] + seq(NUM_LEVELS - 1, _ => []),
      PM.LowBit(),
      IDLE_TASK_ID,
      false,
      false);
    assert forall p, id :: 0 <= p < NUM_LEVELS && id in st.queues[p] ==> p == 0 && id == IDLE_TASK_ID;
    st
  }

  // ---------------------------------------------------------------------
  // spawn

  /** The id `spawn` allocates: `last_task_id + 1` with `usize` wrap-around,
      skipping the idle task's id. */
  function NextTaskId(last: nat): (id: nat)
    requires last < USIZE_LIMIT
    ensures id != IDLE_TASK_ID && id < USIZE_LIMIT
    ensures last + 1 < USIZE_LIMIT ==> id == last + 1
    ensures last + 1 == USIZE_LIMIT ==> id == 1
  {
    var id := (last + 1) % USIZE_LIMIT;
    if id == IDLE_TASK_ID then (id + 1) % USIZE_LIMIT else id
  }

  /** The critical section of `spawn` for a valid priority: allocate the id
      (recorded even if the insert then fails), insert the control block
      (`TaskFull` when the table is full), queue the task at the tail of
      its level, and request a reschedule if the scheduler has started. */
  function Spawn(st: SchedState, priority: nat, initialSp: nat, stackLimit: nat): (r: Step<nat>)
    requires Inv(st) && priority <= MAX_PRIORITY
    requires st.lastTaskId + 1 < USIZE_LIMIT
    ensures Inv(r.state)
  {
    var id := NextTaskId(st.lastTaskId);
    var st1 := st.(lastTaskId := id);
    if id !in st1.tasks && |st1.tasks| >= MAX_NUM_TASKS then Step(Err(TaskFull), st1)
    else Admit(st1, id, TaskInfo(initialSp, priority, false, stackLimit))
  }

  /** The insert-and-queue part of `spawn` for an id that is not in use. */
  function Admit(st: SchedState, id: nat, t: TaskInfo): (r: Step<nat>)
    requires Inv(st) && id != IDLE_TASK_ID && id !in st.tasks && id <= st.lastTaskId && |st.tasks| < MAX_NUM_TASKS
    requires t.priority <= MAX_PRIORITY && !t.blocked
    ensures Inv(r.state)
  {
    var st2 := st.(tasks := st.tasks[id := t]);
    match Enqueue(st2, id, t.priority)
    case Err(e) => Step(Err(e), st2)
    case Ok(st3) => Step(Ok(id), st3.(reschedulePending := st3.reschedulePending || st3.started))
  }


  /** What `spawn` does below the id wrap-around: the id is always
      `last_task_id + 1`; the task is created exactly when both the table
      and its level's queue have room (`TaskFull` otherwise), as a fresh,
      unblocked entry at the tail of its queue, with the running task
      unchanged and a reschedule requested once the scheduler runs. */
  lemma SpawnEffect(st: SchedState, priority: nat, initialSp: nat, stackLimit: nat)
    requires Inv(st) && priority <= MAX_PRIORITY
    requires st.lastTaskId + 1 < USIZE_LIMIT
    ensures var r := Spawn(st, priority, initialSp, stackLimit);
      && r.state.lastTaskId == st.lastTaskId + 1
      && (r.result.Err? ==> r.result.error == TaskFull)
      && (r.result.Ok? <==> |st.tasks| < MAX_NUM_TASKS && |st.queues[priority]| < QUEUE_LEN)
    ensures var r := Spawn(st, priority, initialSp, stackLimit);
      r.result.Ok? ==>
        && r.result.value == st.lastTaskId + 1
        && r.result.value !in st.tasks
        && r.state.tasks == st.tasks[r.result.value := TaskInfo(initialSp, priority, false, stackLimit)]
        && r.state.queues == st.queues[priority := st.queues[priority] + [r.result.value]]
        && r.state.currentTask == st.currentTask
        && r.state.reschedulePending == (st.reschedulePending || st.started)
    ensures var r := Spawn(st, priority, initialSp, stackLimit);
      r.result.Ok? && RunnableQueued(st) ==> RunnableQueued(r.state)
  {
  }

  /** What a failed `spawn` leaves. A full table changes only
      `last_task_id`. A full level leaves the inserted control block
      behind: the new task is in the table, runnable and in no queue, so
      it is the one runnable task that waits nowhere. */
  lemma SpawnFailure(st: SchedState, priority: nat, initialSp: nat, stackLimit: nat)
    requires Inv(st) && priority <= MAX_PRIORITY
    requires st.lastTaskId + 1 < USIZE_LIMIT
    ensures var r := Spawn(st, priority, initialSp, stackLimit); var id := st.lastTaskId + 1;
      && (r.result.Err? && |st.tasks| >= MAX_NUM_TASKS ==> r.state == st.(lastTaskId := id))
      && (r.result.Err? && |st.tasks| < MAX_NUM_TASKS ==>
            && id !in st.tasks
            && r.state == st.(lastTaskId := id, tasks := st.tasks[id := TaskInfo(initialSp, priority, false, stackLimit)])
            && forall p :: 0 <= p < NUM_LEVELS ==> id !in r.state.queues[p])
  {
    var id := st.lastTaskId + 1;
    if |st.tasks| < MAX_NUM_TASKS {
      assert id !in st.tasks;
    }
  }

  // ---------------------------------------------------------------------
  // block_task / unblock_task / remove_task

  /** `block_task`: `NotFound` for an unknown id; no change for a task that
      is already blocked; otherwise mark it blocked, drop it from its ready
      queue and request a reschedule. */
  function Block(st: SchedState, id: nat): (r: Step<()>)
    requires Inv(st)
    ensures Inv(r.state)
    ensures r.result.Err? <==> id !in st.tasks
    ensures r.result.Err? ==> r.result.error == NotFound && r.state == st
    ensures id in st.tasks && st.tasks[id].blocked ==> r.state == st
    ensures id in st.tasks ==>
      && r.state.tasks == st.tasks[id := st.tasks[id].(blocked := true)]
      && (forall p :: 0 <= p < NUM_LEVELS ==> id !in r.state.queues[p])
    ensures RunnableQueued(st) ==> RunnableQueued(r.state)
  {
    if id !in st.tasks then Step(Err(NotFound), st)
    else if st.tasks[id].blocked then Step(Ok(()), st)
    else
      var t := st.tasks[id];
      var st1 := st.(tasks := st.tasks[id := t.(blocked := true)]);
      BlockedLeavesQueues(st, id);
      Step(Ok(()), RemoveFromQueue(st1, id, t.priority).(reschedulePending := true))
  }

  /** The state a runnable task's block leaves keeps the invariants, with
      the task in no queue. */
  lemma BlockedLeavesQueues(st: SchedState, id: nat)
    requires Inv(st) && id in st.tasks && !st.tasks[id].blocked
    ensures var t := st.tasks[id];
      var r := RemoveFromQueue(st.(tasks := st.tasks[id := t.(blocked := true)]), id, t.priority).(reschedulePending := true);
      && Inv(r)
      && (forall p :: 0 <= p < NUM_LEVELS ==> id !in r.queues[p])
      && (RunnableQueued(st) ==> RunnableQueued(r))
  {
  }

  /** Blocking a runnable task drops exactly its entries from its own
      level, keeping the order of the others, and requests a reschedule;
      the other queues, the running task and the id counter stay as they
      were. */
  lemma BlockEffect(st: SchedState, id: nat)
    requires Inv(st) && id in st.tasks && !st.tasks[id].blocked
    ensures var p := st.tasks[id].priority; var r := Block(st, id);
      && r.state.queues == st.queues[p := Without(st.queues[p], id)]
      && r.state == st.(tasks := r.state.tasks, queues := r.state.queues,
                        priorityMap := r.state.priorityMap, reschedulePending := true)
  {
  }

  /** `unblock_task`: `NotFound` for an unknown id; no change for a task
      that is not blocked; otherwise clear `blocked`, queue the task at the
      tail of its level and request a reschedule. If that queue is full the
      flag stays cleared and `TaskFull` is returned. */
  function Unblock(st: SchedState, id: nat): (r: Step<()>)
    requires Inv(st)
    ensures Inv(r.state)
  {
    if id !in st.tasks then Step(Err(NotFound), st)
    else if !st.tasks[id].blocked then Step(Ok(()), st)
    else
      var t := st.tasks[id];
      var st1 := st.(tasks := st.tasks[id := t.(blocked := false)]);
      match Enqueue(st1, id, t.priority)
      case Err(e) => Step(Err(e), st1)
      case Ok(st2) => Step(Ok(()), st2.(reschedulePending := true))
  }

  /** What `unblock_task` does: `NotFound` exactly for an unknown id,
      which changes nothing; an already-runnable task is left as it is;
      otherwise the task's blocked flag is cleared, nothing else in the task
      table changes, and on success it is appended to the tail of its
      priority's ready queue, keeping every runnable task queued. */
  lemma UnblockEffect(st: SchedState, id: nat)
    requires Inv(st)
    ensures Unblock(st, id).result == Err(NotFound) <==> id !in st.tasks
    ensures Unblock(st, id).result == Err(NotFound) ==> Unblock(st, id).state == st
    ensures id in st.tasks && !st.tasks[id].blocked ==> Unblock(st, id) == Step(Ok(()), st)
    ensures id in st.tasks ==>
      && Unblock(st, id).state.tasks == st.tasks[id := st.tasks[id].(blocked := false)]
      && Unblock(st, id).state.currentTask == st.currentTask
    ensures id in st.tasks && st.tasks[id].blocked && Unblock(st, id).result.Ok? ==>
      var p := st.tasks[id].priority;
      Unblock(st, id).state.queues == st.queues[p := st.queues[p] + [id]]
    ensures Unblock(st, id).result.Err? ==> Unblock(st, id).result.error in {NotFound, TaskFull}
    ensures Unblock(st, id).result.Ok? && RunnableQueued(st) ==> RunnableQueued(Unblock(st, id).state)
  {
  }

  /** The rest of `unblock_task` on a blocked task: it succeeds exactly
      when its level's queue has room, and then requests a reschedule. On
      `TaskFull` the `?` returns after the flag was cleared: the task is left
      runnable but in no queue, and nothing else changes. */
  lemma UnblockOutcome(st: SchedState, id: nat)
    requires Inv(st) && id in st.tasks && st.tasks[id].blocked
    ensures var p := st.tasks[id].priority; var r := Unblock(st, id);
      && (r.result.Ok? <==> |st.queues[p]| < QUEUE_LEN)
      && (r.result.Ok? ==> r.state.reschedulePending)
      && (r.result.Err? ==>
            && r.result.error == TaskFull
            && r.state == st.(tasks := st.tasks[id := st.tasks[id].(blocked := false)])
            && !r.state.tasks[id].blocked
            && forall q :: 0 <= q < NUM_LEVELS ==> id !in r.state.queues[q])
  {
  }

  /** `remove_task`: `NotFound` for an unknown id; otherwise delete its
      control block and every queue entry for it. No other task changes. */
  function Remove(st: SchedState, id: nat): (r: Step<()>)
    requires Inv(st)
    ensures Inv(r.state)
    ensures r.result.Err? <==> id !in st.tasks
    ensures r.result.Err? ==> r.result.error == NotFound && r.state == st
    ensures r.result.Ok? ==>
      && r.state.tasks == st.tasks - {id}
      && (forall p :: 0 <= p < NUM_LEVELS ==> id !in r.state.queues[p])
    ensures r.result.Ok? ==>
      var p := st.tasks[id].priority;
      && r.state.queues == st.queues[p := Without(st.queues[p], id)]
      && r.state == st.(tasks := r.state.tasks, queues := r.state.queues, priorityMap := r.state.priorityMap)
    ensures RunnableQueued(st) ==> RunnableQueued(r.state)
  {
    if id !in st.tasks then Step(Err(NotFound), st)
    else
      var t := st.tasks[id];
      Step(Ok(()), RemoveFromQueue(st.(tasks := st.tasks - {id}), id, t.priority))
  }

  // ---------------------------------------------------------------------
  // The idle task stays ready

  lemma SpawnKeepsIdleReady(st: SchedState, priority: nat, initialSp: nat, stackLimit: nat)
    requires Inv(st) && IdleReady(st) && priority <= MAX_PRIORITY
    requires st.lastTaskId + 1 < USIZE_LIMIT
    ensures IdleReady(Spawn(st, priority, initialSp, stackLimit).state)
  {
  }

  lemma UnblockKeepsIdleReady(st: SchedState, id: nat)
    requires Inv(st) && IdleReady(st)
    ensures IdleReady(Unblock(st, id).state)
  {
  }

  lemma BlockKeepsIdleReady(st: SchedState, id: nat)
    requires Inv(st) && IdleReady(st) && id != IDLE_TASK_ID
    ensures IdleReady(Block(st, id).state)
  {
    if id in st.tasks && !st.tasks[id].blocked {
      BlockEffect(st, id);
    }
  }

  lemma RemoveKeepsIdleReady(st: SchedState, id: nat)
    requires Inv(st) && IdleReady(st) && id != IDLE_TASK_ID
    ensures IdleReady(Remove(st, id).state)
  {
  }

  // ---------------------------------------------------------------------
  // select_task

  /** The canary words at word address `base` all hold `STACK_CANARY`. */
  predicate CanaryIntact(mem: seq<bv32>, base: nat)
    requires base + STACK_CANARY_LEN <= |mem|
  {
    forall i :: base <= i < base + STACK_CANARY_LEN ==> mem[i] == STACK_CANARY
  }

  /** The outgoing task is known and not blocked, so `select_task` puts it back. */
  predicate OutgoingRunnable(st: SchedState) {
    st.currentTask in st.tasks && !st.tasks[st.currentTask].blocked
  }

  /** Re-queueing a runnable outgoing task does not overflow its queue. */
  predicate CanRequeue(st: SchedState)
    requires Inv(st)
  {
    OutgoingRunnable(st) ==> |st.queues[st.tasks[st.currentTask].priority]| < QUEUE_LEN
  }

  /** After re-queueing there is some task to run (the source treats an
      empty bitmap as unreachable). */
  predicate SomeRunnable(st: SchedState)
    requires Inv(st)
  {
    OutgoingRunnable(st) || exists p :: 0 <= p < NUM_LEVELS && st.queues[p] != []
  }

  /** The outgoing task's canary words lie inside memory. */
  predicate CanaryReadable(st: SchedState, memLen: nat) {
    st.currentTask in st.tasks ==> st.tasks[st.currentTask].stackLimit + STACK_CANARY_LEN <= memLen
  }

  /** While the idle task is ready, `select_task` always finds a task: the
      idle task is either the outgoing task or waiting in queue 0. */
  lemma IdleKeepsSomeRunnable(st: SchedState)
    requires Inv(st) && IdleReady(st)
    ensures SomeRunnable(st)
  {
    if st.currentTask != IDLE_TASK_ID {
      assert st.queues[IDLE_PRIORITY] != [];
    }
  }

  /** First half of `select_task`: an outgoing task that still exists has
      its stack pointer saved; if it is not blocked it is also appended to
      the tail of its own queue. When that queue is full, `enqueue_task`
      fails with `TaskFull`, which the source answers with `unreachable!()`. */
  function Requeue(st: SchedState, origSp: nat): (r: Result<SchedState>)
    requires Inv(st)
    ensures r.Err? <==> !CanRequeue(st)
    ensures r.Err? ==> r.error == TaskFull
    ensures r.Ok? ==>
      && Inv(r.value)
      && r.value.currentTask == st.currentTask && r.value.lastTaskId == st.lastTaskId
      && r.value.tasks == (if st.currentTask in st.tasks
        then st.tasks[st.currentTask := st.tasks[st.currentTask].(stackPointer := origSp)]
        else st.tasks)
      && r.value.queues == (if OutgoingRunnable(st)
        then st.queues[st.tasks[st.currentTask].priority :=
                       st.queues[st.tasks[st.currentTask].priority] + [st.currentTask]]
        else st.queues)
    ensures r.Ok? && SomeRunnable(st) ==> exists p :: 0 <= p < NUM_LEVELS && r.value.queues[p] != []
    ensures r.Ok? && RunnableQueued(st) ==>
      forall id :: id in r.value.tasks && !r.value.tasks[id].blocked ==> id in r.value.queues[r.value.tasks[id].priority]
  {
    var orig := st.currentTask;
    if orig !in st.tasks then Ok(st)
    else
      var t := st.tasks[orig];
      if !t.blocked && |st.queues[t.priority]| == QUEUE_LEN then Err(TaskFull)
      else
        var st1 := if t.blocked then st else Enqueue(st, orig, t.priority).value;
        assert !t.blocked ==> orig in st1.queues[t.priority];
        Ok(st1.(tasks := st1.tasks[orig := t.(stackPointer := origSp)]))
  }

  /** `31 - priority_map.leading_zeros()`: the highest non-empty level. */
  function HighestLevel(st: SchedState): (h: nat)
    requires Inv(st) && exists p :: 0 <= p < NUM_LEVELS && st.queues[p] != []
    ensures h < NUM_LEVELS && st.queues[h] != []
    ensures forall q :: h < q < NUM_LEVELS ==> st.queues[q] == []
  {
    var p :| 0 <= p < NUM_LEVELS && st.queues[p] != [];
    assert st.priorityMap[p];
    var h := PM.WIDTH - 1 - PM.LeadingZeros(st.priorityMap);
    assert st.priorityMap[h];
    h
  }

  /** Second half of `select_task`: pop the front of the highest non-empty
      queue and make it the current task. */
  function Pick(st: SchedState): (r: (nat, SchedState))
    requires Inv(st) && exists p :: 0 <= p < NUM_LEVELS && st.queues[p] != []
    ensures Inv(r.1)
    ensures r.0 in st.tasks && !st.tasks[r.0].blocked
    ensures st.tasks[r.0].priority < NUM_LEVELS && st.queues[st.tasks[r.0].priority] != []
    ensures r.0 == st.queues[st.tasks[r.0].priority][0]
    ensures forall q :: st.tasks[r.0].priority < q < NUM_LEVELS ==> st.queues[q] == []
    ensures r.1.queues == st.queues[st.tasks[r.0].priority := st.queues[st.tasks[r.0].priority][1..]]
    ensures r.1.currentTask == r.0
    ensures r.1.tasks == st.tasks && r.1.lastTaskId == st.lastTaskId
  {
    var h := HighestLevel(st);
    var (next, st1) := Dequeue(st, h);
    assert st.queues[h][0] in st.queues[h];
    assert forall id :: id in st.queues[h][1..] ==> id in st.queues[h];
    (next.value, st1.(currentTask := next.value))
  }

  /** When every runnable task is queued (the outgoing one included, as
      after `Requeue`), every runnable task other than the one `Pick`
      chose stays queued. */
  lemma PickKeepsQueued(st: SchedState)
    requires Inv(st) && exists p :: 0 <= p < NUM_LEVELS && st.queues[p] != []
    ensures (forall id :: id in st.tasks && !st.tasks[id].blocked ==> id in st.queues[st.tasks[id].priority])
      ==> RunnableQueued(Pick(st).1)
  {
    var (next, st1) := Pick(st);
    var h := st.tasks[next].priority;
    forall id | id in st.queues[h] && id != next ensures id in st1.queues[h] {
      var i :| 0 <= i < |st.queues[h]| && st.queues[h][i] == id;
      assert st.queues[h][1..][i - 1] == id;
    }
  }

  /** Result of a context-switch decision: the next task's stack pointer
      and the new state, or a panic naming the outgoing task, either for a
      damaged canary or for the re-queue that found its queue full. */
  datatype Switch = Switched(nextSp: nat, state: SchedState) | Overflow(taskId: nat) | RequeueFull(taskId: nat)

  /** The critical section of `select_task(orig_sp)` as written: a runnable
      outgoing task whose canary is damaged stops everything with a
      stack-overflow panic; otherwise re-queue it (panicking if its queue is
      full), then pick the front of the highest non-empty level, and return
      that task's saved stack pointer. */
  function Select(st: SchedState, origSp: nat, mem: seq<bv32>): (r: Switch)
    requires Inv(st) && SomeRunnable(st) && CanaryReadable(st, |mem|)
    ensures r.Overflow? <==> OutgoingRunnable(st) && !CanaryIntact(mem, st.tasks[st.currentTask].stackLimit)
    ensures r.RequeueFull? <==>
      OutgoingRunnable(st) && CanaryIntact(mem, st.tasks[st.currentTask].stackLimit) && !CanRequeue(st)
    ensures !r.Switched? ==> r.taskId == st.currentTask
    ensures r.Switched? ==>
      && Inv(r.state)
      && r.state.currentTask in r.state.tasks
      && !r.state.tasks[r.state.currentTask].blocked
      && r.nextSp == r.state.tasks[r.state.currentTask].stackPointer
    ensures r.Switched? && RunnableQueued(st) ==> RunnableQueued(r.state)
  {
    var orig := st.currentTask;
    if OutgoingRunnable(st) && !CanaryIntact(mem, st.tasks[orig].stackLimit) then Overflow(orig)
    else match Requeue(st, origSp)
      case Err(_) => RequeueFull(orig)
      case Ok(st1) =>
        var (next, st2) := Pick(st1);
        PickKeepsQueued(st1);
        Switched(st2.tasks[next].stackPointer, st2)
  }

  /** `select_task` never runs a task while a runnable task of higher
      priority waits: when every runnable task is queued beforehand, no
      runnable task after the switch has a priority above the new current
      task's. */
  lemma SelectPicksHighestPriority(st: SchedState, origSp: nat, mem: seq<bv32>)
    requires Inv(st) && SomeRunnable(st) && CanaryReadable(st, |mem|) && RunnableQueued(st)
    ensures var r := Select(st, origSp, mem);
      r.Switched? ==>
        forall id :: id in r.state.tasks && !r.state.tasks[id].blocked ==>
          r.state.tasks[id].priority <= r.state.tasks[r.state.currentTask].priority
  {
    var r := Select(st, origSp, mem);
    if r.Switched? {
      var st1 := Requeue(st, origSp).value;
      PickIsHighest(st1);
    }
  }

  /** The task `Pick` takes has the highest priority of all runnable tasks
      when every runnable task is queued. */
  lemma PickIsHighest(st1: SchedState)
    requires Inv(st1) && exists p :: 0 <= p < NUM_LEVELS && st1.queues[p] != []
    requires forall id :: id in st1.tasks && !st1.tasks[id].blocked ==> id in st1.queues[st1.tasks[id].priority]
    ensures var st2 := Pick(st1).1;
      forall id :: id in st2.tasks && !st2.tasks[id].blocked ==>
        st2.tasks[id].priority <= st2.tasks[st2.currentTask].priority
  {
    var (next, st2) := Pick(st1);
    forall id | id in st2.tasks && !st2.tasks[id].blocked
      ensures st2.tasks[id].priority <= st2.tasks[next].priority
    {
      assert st1.queues[st1.tasks[id].priority] != [];
    }
  }

  /** Round robin within a level: when the outgoing task is runnable, its
      canary intact, its queue not full and no higher level has work, a
      switch goes to the front of its own level and puts the outgoing task
      at that level's tail (or keeps running it when it is alone there). */
  lemma SelectRoundRobin(st: SchedState, origSp: nat, mem: seq<bv32>)
    requires Inv(st) && SomeRunnable(st) && CanaryReadable(st, |mem|) && CanRequeue(st)
    requires OutgoingRunnable(st) && CanaryIntact(mem, st.tasks[st.currentTask].stackLimit)
    requires forall q :: st.tasks[st.currentTask].priority < q < NUM_LEVELS ==> st.queues[q] == []
    ensures var cur := st.currentTask;
      var p := st.tasks[cur].priority;
      var r := Select(st, origSp, mem);
      && r.Switched?
      && r.state.queues == st.queues[p := (st.queues[p] + [cur])[1..]]
      && r.state.currentTask == (st.queues[p] + [cur])[0]
      && r.state.tasks == st.tasks[cur := st.tasks[cur].(stackPointer := origSp)]
  {
    var cur := st.currentTask;
    var p := st.tasks[cur].priority;
    var st1 := Requeue(st, origSp).value;
    assert st1.queues[p] == st.queues[p] + [cur];
  }

  /** A context switch keeps the idle task ready: re-queueing leaves it in
      queue 0 (or puts it there when it was running), and the pop either
      takes it, making it current, or leaves it queued. */
  lemma SelectKeepsIdleReady(st: SchedState, origSp: nat, mem: seq<bv32>)
    requires Inv(st) && IdleReady(st) && SomeRunnable(st) && CanaryReadable(st, |mem|)
    ensures Select(st, origSp, mem).Switched? ==> IdleReady(Select(st, origSp, mem).state)
  {
    var rq := Requeue(st, origSp);
    if rq.Ok? {
      RequeueQueuesIdle(st, origSp);
      PickKeepsIdleQueued(rq.value);
    }
  }

  /** After a successful re-queue the idle task is runnable and queued at
      level 0. */
  lemma RequeueQueuesIdle(st: SchedState, origSp: nat)
    requires Inv(st) && IdleReady(st) && Requeue(st, origSp).Ok?
    ensures var st1 := Requeue(st, origSp).value;
      IdleRunnable(st1) && IDLE_TASK_ID in st1.queues[IDLE_PRIORITY]
  {
  }

  /** Popping the next task from a state where the idle task is queued at
      level 0 either runs it or leaves it queued. */
  lemma PickKeepsIdleQueued(st1: SchedState)
    requires Inv(st1) && IdleRunnable(st1) && IDLE_TASK_ID in st1.queues[IDLE_PRIORITY]
    ensures IdleReady(Pick(st1).1)
  {
    var (next, st2) := Pick(st1);
    var h := st1.tasks[next].priority;
    if h == IDLE_PRIORITY && next != IDLE_TASK_ID {
      var q := st1.queues[h];
      var i :| 0 <= i < |q| && q[i] == IDLE_TASK_ID;
      assert q[1..][i - 1] == IDLE_TASK_ID;
    }
  }

  /** The outgoing task's stack pointer saved, if the task still exists. */
  function SaveSp(st: SchedState, origSp: nat): (r: SchedState)
    requires Inv(st)
    ensures Inv(r) && r.queues == st.queues && r.currentTask == st.currentTask
    ensures r.tasks.Keys == st.tasks.Keys
    ensures forall id :: id in st.tasks ==>
      && r.tasks[id].priority == st.tasks[id].priority
      && r.tasks[id].blocked == st.tasks[id].blocked
      && r.tasks[id].stackLimit == st.tasks[id].stackLimit
  {
    var orig := st.currentTask;
    if orig in st.tasks then st.(tasks := st.tasks[orig := st.tasks[orig].(stackPointer := origSp)]) else st
  }

  /** `enqueue_task` of a runnable task at its own priority: `TaskFull`
      exactly when that queue is full; otherwise only the queues and the
      bitmap change and the invariant is kept. */
  function PutBack(st: SchedState, id: nat): (r: Result<SchedState>)
    requires Inv(st) && id in st.tasks && !st.tasks[id].blocked
    ensures r.Err? <==> |st.queues[st.tasks[id].priority]| == QUEUE_LEN
    ensures r.Ok? ==> Inv(r.value) && r.value.tasks == st.tasks && r.value.currentTask == st.currentTask
  {
    var t := st.tasks[id];
    match Enqueue(st, id, t.priority)
    case Err(e) => Err(e)
    case Ok(st1) =>
      assert Runnable(st1, id, t.priority);
      Ok(st1)
  }

  /** `select_task` in the order its comment describes ("placed after the
      dequeue in order to avoid overflow"): save the outgoing task's stack
      pointer, take the next task from the highest non-empty level first,
      and only then put a runnable outgoing task back at the tail of its
      level. With every queue empty the outgoing task is the only candidate
      and the switch is the one `Select` makes. */
  function SelectDequeueFirst(st: SchedState, origSp: nat, mem: seq<bv32>): (r: Switch)
    requires Inv(st) && SomeRunnable(st) && CanaryReadable(st, |mem|)
    ensures r.Overflow? <==> OutgoingRunnable(st) && !CanaryIntact(mem, st.tasks[st.currentTask].stackLimit)
    ensures !r.Switched? ==> r.taskId == st.currentTask
    ensures r.Switched? ==>
      && Inv(r.state)
      && r.state.currentTask in r.state.tasks
      && !r.state.tasks[r.state.currentTask].blocked
      && r.nextSp == r.state.tasks[r.state.currentTask].stackPointer
  {
    var orig := st.currentTask;
    if OutgoingRunnable(st) && !CanaryIntact(mem, st.tasks[orig].stackLimit) then Overflow(orig)
    else if !exists p :: 0 <= p < NUM_LEVELS && st.queues[p] != [] then Select(st, origSp, mem)
    else
      var (next, st2) := Pick(SaveSp(st, origSp));
      if !OutgoingRunnable(st) then Switched(st2.tasks[next].stackPointer, st2)
      else match PutBack(st2, orig)
        case Err(_) => RequeueFull(orig)
        case Ok(st3) => Switched(st3.tasks[next].stackPointer, st3)
  }

  /** Taking the next task first frees a slot in the level it pops, so when
      no level above the outgoing task's has work the re-queue never
      overflows, even when the outgoing task's level is full. */
  lemma DequeueFirstRequeues(st: SchedState, origSp: nat, mem: seq<bv32>)
    requires Inv(st) && SomeRunnable(st) && CanaryReadable(st, |mem|)
    requires OutgoingRunnable(st) && CanaryIntact(mem, st.tasks[st.currentTask].stackLimit)
    requires forall q :: st.tasks[st.currentTask].priority < q < NUM_LEVELS ==> st.queues[q] == []
    ensures SelectDequeueFirst(st, origSp, mem).Switched?
  {
    if exists q :: 0 <= q < NUM_LEVELS && st.queues[q] != [] {
      DequeueFirstPopsFirst(st, origSp, mem);
    } else {
      assert st.queues[st.tasks[st.currentTask].priority] == [];
      assert Select(st, origSp, mem).Switched?;
    }
  }

  /** The branch of `DequeueFirstRequeues` where some level has work: the
      pop leaves room at the outgoing task's level for the re-queue. */
  lemma DequeueFirstPopsFirst(st: SchedState, origSp: nat, mem: seq<bv32>)
    requires Inv(st) && CanaryReadable(st, |mem|) && exists q :: 0 <= q < NUM_LEVELS && st.queues[q] != []
    requires OutgoingRunnable(st) && CanaryIntact(mem, st.tasks[st.currentTask].stackLimit)
    requires forall q :: st.tasks[st.currentTask].priority < q < NUM_LEVELS ==> st.queues[q] == []
    ensures SelectDequeueFirst(st, origSp, mem).Switched?
  {
    var orig := st.currentTask;
    var st1 := SaveSp(st, origSp);
    var (next, st2) := Pick(st1);
    PickLeavesRoom(st1, st.tasks[orig].priority);
    assert st2.tasks[orig] == st1.tasks[orig];
    assert PutBack(st2, orig).Ok?;
  }

  /** When no level above `p` has work, the pop comes from level `p` or
      from a lower one, so level `p` is then not full: either it just lost
      its front, or it was empty all along. */
  lemma PickLeavesRoom(st1: SchedState, p: nat)
    requires Inv(st1) && exists q :: 0 <= q < NUM_LEVELS && st1.queues[q] != []
    requires p < NUM_LEVELS && forall q :: p < q < NUM_LEVELS ==> st1.queues[q] == []
    ensures |Pick(st1).1.queues[p]| < QUEUE_LEN
  {
    var (next, st2) := Pick(st1);
    if st1.tasks[next].priority != p {
      assert st1.queues[p] == [];
    }
  }

  // ---------------------------------------------------------------------
  // The re-queue overflow is reachable

  /** Tasks `0..k`, all runnable at priority 0 with stack pointer and
      stack limit 0, queued in id order at level 0, the idle task running. */
  predicate IdleLevelShape(st: SchedState, k: nat)
    requires Inv(st)
  {
    && |st.tasks| == k + 1
    && (forall id :: id in st.tasks ==> id <= k)
    && (forall id: nat :: id <= k ==> id in st.tasks)
    && (forall id :: id in st.tasks ==> st.tasks[id] == TaskInfo(0, IDLE_PRIORITY, false, 0))
    && st.queues[IDLE_PRIORITY] == seq(k + 1, i => i)
    && (forall p :: 0 < p < NUM_LEVELS ==> st.queues[p] == [])
    && st.currentTask == IDLE_TASK_ID && st.lastTaskId == k
  }

  /** One more spawn at priority 0 extends the shape by the next id. */
  lemma IdleLevelSpawn(st: SchedState, k: nat)
    requires Inv(st) && IdleLevelShape(st, k) && k + 1 < MAX_NUM_TASKS
    ensures IdleLevelShape(Spawn(st, IDLE_PRIORITY, 0, 0).state, k + 1)
  {
    SpawnEffect(st, IDLE_PRIORITY, 0, 0);
    assert seq(k + 2, i => i) == seq(k + 1, i => i) + [k + 1];
  }

  /** In that shape every runnable task is queued and the idle task is
      ready. */
  lemma IdleLevelReady(st: SchedState, k: nat)
    requires Inv(st) && IdleLevelShape(st, k)
    ensures RunnableQueued(st) && IdleReady(st)
  {
    forall id | id in st.tasks ensures id in st.queues[IDLE_PRIORITY] {
      assert st.queues[IDLE_PRIORITY][id] == id;
    }
  }

  lemma IdleLevelInit()
    ensures IdleLevelShape(InitialState(0), 0)
  {
    var st := InitialState(0);
    assert st.tasks.Keys == {IDLE_TASK_ID};
    assert seq(1, i => i) == [IDLE_TASK_ID];
  }

  /** The state after `init` (idle stack at word 0) and `k` spawns at
      priority 0 with stack pointer and stack limit 0. */
  function SpawnedAtIdleLevel(k: nat): (st: SchedState)
    requires k < MAX_NUM_TASKS
    ensures Inv(st) && IdleLevelShape(st, k)
  {
    if k == 0 then IdleLevelInit(); InitialState(0)
    else
      var prev := SpawnedAtIdleLevel(k - 1);
      IdleLevelSpawn(prev, k - 1);
      Spawn(prev, IDLE_PRIORITY, 0, 0).state
  }

  /** The control block every task of the scenario below has. */
  const SCENARIO_TASK := TaskInfo(0, IDLE_PRIORITY, false, 0)

  /** The first context switch of the scenario below: the idle task goes
      to the back of queue 0 and is picked again from its front. */
  lemma ScenarioFirstSwitch(s0: SchedState, mem: seq<bv32>) returns (s1: SchedState)
    requires STACK_CANARY_LEN <= |mem| && CanaryIntact(mem, 0)
    requires Inv(s0) && IdleLevelShape(s0, MAX_NUM_TASKS - 1)
    ensures SomeRunnable(s0) && CanaryReadable(s0, |mem|) && Select(s0, 0, mem) == Switched(0, s1)
    ensures Inv(s1) && RunnableQueued(s1) && IdleReady(s1) && s1.currentTask == IDLE_TASK_ID
    ensures 0 in s1.tasks && 1 in s1.tasks && s1.tasks[0] == SCENARIO_TASK && s1.tasks[1] == SCENARIO_TASK
    ensures var q1 := s1.queues[IDLE_PRIORITY];
      && |q1| == MAX_NUM_TASKS && q1[0] == 1
      && forall j :: 0 < j < |q1| ==> q1[j] != 1
    ensures forall p :: IDLE_PRIORITY < p < NUM_LEVELS ==> s1.queues[p] == []
  {
    IdleLevelReady(s0, MAX_NUM_TASKS - 1);
    var q0 := s0.queues[IDLE_PRIORITY];
    RotatedIdleQueue(q0);
    SelectRoundRobin(s0, 0, mem);
    SelectKeepsIdleReady(s0, 0, mem);
    s1 := Select(s0, 0, mem).state;
  }

  /** Queue 0 of the scenario after the idle task moves from its front to
      its back: task 1 is at the front and nowhere else. */
  lemma RotatedIdleQueue(q0: seq<nat>)
    requires q0 == seq(MAX_NUM_TASKS, i => i)
    ensures q0 != [] && q0[0] == IDLE_TASK_ID
    ensures var q1 := (q0 + [IDLE_TASK_ID])[1..];
      && |q1| == MAX_NUM_TASKS && q1[0] == 1
      && forall j :: 0 < j < |q1| ==> q1[j] != 1
  {
    var q1 := (q0 + [IDLE_TASK_ID])[1..];
    forall j | 0 < j < |q1| ensures q1[j] != 1 {
      if j < |q0| - 1 {
        assert q1[j] == q0[j + 1];
      }
    }
  }

  /** The second context switch: the idle task is queued a second time and
      task 1 runs. */
  lemma ScenarioSecondSwitch(s1: SchedState, mem: seq<bv32>) returns (s2: SchedState)
    requires STACK_CANARY_LEN <= |mem| && CanaryIntact(mem, 0)
    requires Inv(s1) && RunnableQueued(s1) && IdleReady(s1) && s1.currentTask == IDLE_TASK_ID
    requires 0 in s1.tasks && 1 in s1.tasks && s1.tasks[0] == SCENARIO_TASK && s1.tasks[1] == SCENARIO_TASK
    requires var q1 := s1.queues[IDLE_PRIORITY];
      && |q1| == MAX_NUM_TASKS && q1[0] == 1
      && forall j :: 0 < j < |q1| ==> q1[j] != 1
    requires forall p :: IDLE_PRIORITY < p < NUM_LEVELS ==> s1.queues[p] == []
    ensures SomeRunnable(s1) && CanaryReadable(s1, |mem|) && Select(s1, 0, mem) == Switched(0, s2)
    ensures Inv(s2) && RunnableQueued(s2) && IdleReady(s2) && s2.currentTask == 1
    ensures 1 in s2.tasks && s2.tasks[1] == SCENARIO_TASK
    ensures |s2.queues[IDLE_PRIORITY]| == MAX_NUM_TASKS && 1 !in s2.queues[IDLE_PRIORITY]
    ensures forall p :: IDLE_PRIORITY < p < NUM_LEVELS ==> s2.queues[p] == []
  {
    IdleKeepsSomeRunnable(s1);
    SelectRoundRobin(s1, 0, mem);
    SelectKeepsIdleReady(s1, 0, mem);
    s2 := Select(s1, 0, mem).state;
    var q1 := s1.queues[IDLE_PRIORITY];
    var q2 := s2.queues[IDLE_PRIORITY];
    assert q2 == q1[1..] + [0];
    forall j | 0 <= j < |q2| ensures q2[j] != 1 {
      if j < |q1| - 1 {
        assert q2[j] == q1[j + 1];
      }
    }
  }

  /** Task 1, running, blocks: it was in no queue, so only its flag
      changes. */
  lemma ScenarioBlock(s2: SchedState) returns (s3: SchedState)
    requires Inv(s2) && RunnableQueued(s2) && IdleReady(s2) && s2.currentTask == 1
    requires 1 in s2.tasks && s2.tasks[1] == SCENARIO_TASK
    requires |s2.queues[IDLE_PRIORITY]| == MAX_NUM_TASKS && 1 !in s2.queues[IDLE_PRIORITY]
    requires forall p :: IDLE_PRIORITY < p < NUM_LEVELS ==> s2.queues[p] == []
    ensures Block(s2, 1) == Step(Ok(()), s3)
    ensures Inv(s3) && RunnableQueued(s3) && IdleReady(s3) && s3.currentTask == 1
    ensures 1 in s3.tasks && s3.tasks[1] == SCENARIO_TASK.(blocked := true)
    ensures s3.queues == s2.queues
  {
    BlockEffect(s2, 1);
    BlockKeepsIdleReady(s2, 1);
    s3 := Block(s2, 1).state;
  }

  /** An interrupt unblocks task 1 before its context switch runs: it is
      appended to queue 0, now full, while it is still the running task. */
  lemma ScenarioUnblock(s3: SchedState) returns (s4: SchedState)
    requires Inv(s3) && RunnableQueued(s3) && IdleReady(s3) && s3.currentTask == 1
    requires 1 in s3.tasks && s3.tasks[1] == SCENARIO_TASK.(blocked := true)
    requires |s3.queues[IDLE_PRIORITY]| == MAX_NUM_TASKS
    requires forall p :: IDLE_PRIORITY < p < NUM_LEVELS ==> s3.queues[p] == []
    ensures Unblock(s3, 1) == Step(Ok(()), s4)
    ensures Inv(s4) && RunnableQueued(s4) && IdleReady(s4)
    ensures s4.currentTask == 1 && OutgoingRunnable(s4) && s4.tasks[1].stackLimit == 0
    ensures |s4.queues[IDLE_PRIORITY]| == QUEUE_LEN
    ensures forall p :: IDLE_PRIORITY < p < NUM_LEVELS ==> s4.queues[p] == []
  {
    UnblockEffect(s3, 1);
    UnblockOutcome(s3, 1);
    UnblockKeepsIdleReady(s3, 1);
    s4 := Unblock(s3, 1).state;
  }

  /** The re-queue overflow of `select_task` as written is reachable. After
      `init`, fifteen spawns at priority 0 fill queue 0 with 16 entries. Two
      context switches leave the idle task queued twice and task 1 running.
      Task 1 blocks, and an interrupt unblocks it before its context switch
      runs, which appends it to queue 0 (17 entries) while it is still the
      running task. Every invariant holds, yet the next `select_task`
      re-queues task 1 into the full queue and panics; taking the next task
      first switches normally. */
  lemma RequeueOverflowReachable(mem: seq<bv32>)
    returns (s0: SchedState, s1: SchedState, s2: SchedState, s3: SchedState, s4: SchedState)
    requires STACK_CANARY_LEN <= |mem| && CanaryIntact(mem, 0)
    ensures s0 == SpawnedAtIdleLevel(MAX_NUM_TASKS - 1) && Inv(s0)
    ensures SomeRunnable(s0) && CanaryReadable(s0, |mem|) && Select(s0, 0, mem) == Switched(0, s1)
    ensures Inv(s1) && SomeRunnable(s1) && CanaryReadable(s1, |mem|) && Select(s1, 0, mem) == Switched(0, s2)
    ensures Inv(s2) && s2.currentTask == 1 && Block(s2, 1) == Step(Ok(()), s3)
    ensures Inv(s3) && Unblock(s3, 1) == Step(Ok(()), s4)
    ensures Inv(s4) && RunnableQueued(s4) && IdleReady(s4) && SomeRunnable(s4) && CanaryReadable(s4, |mem|)
    ensures s4.currentTask == 1 && OutgoingRunnable(s4) && |s4.queues[IDLE_PRIORITY]| == QUEUE_LEN
    ensures Select(s4, 0, mem) == RequeueFull(1)
    ensures SelectDequeueFirst(s4, 0, mem).Switched?
  {
    s0 := SpawnedAtIdleLevel(MAX_NUM_TASKS - 1);
    s1 := ScenarioFirstSwitch(s0, mem);
    IdleKeepsSomeRunnable(s1);
    s2 := ScenarioSecondSwitch(s1, mem);
    s3 := ScenarioBlock(s2);
    s4 := ScenarioUnblock(s3);
    IdleKeepsSomeRunnable(s4);
    DequeueFirstRequeues(s4, 0, mem);
  }
}
