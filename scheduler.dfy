/** The scheduler as the source keeps it: one object whose fields every
    critical section updates in place. Each method is proved to leave the
    state that the matching function of `SchedulerState` describes. */
module Scheduler {
  import opened Errors
  import opened Task
  import opened SchedulerState
  import PM = PriorityMap

  /** Why a scheduler entry point panics instead of returning:
      `EnqueueUnreachable` is the `unreachable!()` reached when the
      outgoing task's queue is full. */
  datatype Panic = SchedulerNotInitialized | StackOverflowDetected(taskId: nat) | EnqueueUnreachable(taskId: nat)

  /** A value returned normally, or a panic (which halts the system). */
  datatype Fallible<T> = Returned(value: T) | Panicked(reason: Panic)

  /** `fill_stack_canary`: write the canary pattern into the four words at
      word address `base`; nothing else in memory changes. */
  method FillStackCanary(mem: array<bv32>, base: nat)
    requires base + STACK_CANARY_LEN <= mem.Length
    modifies mem
    ensures CanaryIntact(mem[..], base)
    ensures forall i :: 0 <= i < mem.Length && !(base <= i < base + STACK_CANARY_LEN) ==> mem[i] == old(mem[i])
  {
    for k := 0 to STACK_CANARY_LEN
      invariant forall i :: base <= i < base + k ==> mem[i] == STACK_CANARY
      invariant forall i :: 0 <= i < mem.Length && !(base <= i < base + k) ==> mem[i] == old(mem[i])
    {
      mem[base + k] := STACK_CANARY;
    }
  }

  /** `check_stack_canary`: reports an overflow (on which the source
      panics) exactly when one of the four canary words differs. */
  method CheckStackCanary(mem: array<bv32>, base: nat) returns (overflow: bool)
    requires base + STACK_CANARY_LEN <= mem.Length
    ensures overflow <==> !CanaryIntact(mem[..], base)
  {
    overflow := false;
    var k := 0;
    while k < STACK_CANARY_LEN && !overflow
      invariant 0 <= k <= STACK_CANARY_LEN
      invariant !overflow ==> forall i :: base <= i < base + k ==> mem[i] == STACK_CANARY
      invariant overflow ==> !CanaryIntact(mem[..], base)
    {
      if mem[base + k] != STACK_CANARY {
        assert mem[..][base + k] != STACK_CANARY;
        overflow := true;
      }
      k := k + 1;
    }
  }

  /** The scheduler's global state (`SCHEDULER_STATE` and `SCHEDULER_CONFIG`).
      While `initialized` is false the state fields are meaningless. */
  class Scheduler {
    var config: Option<SchedulerConfig>
    var initialized: bool
    var tasks: map<nat, TaskInfo>
    var lastTaskId: nat
    var queues: seq<seq<nat>>
    var priorityMap: seq<bool>
    var currentTask: nat
    var started: bool
    /** `yield_now` was called: PendSV is pending. */
    var reschedulePending: bool

    ghost function State(): SchedState
      reads this
    {
      SchedState(tasks, lastTaskId, queues, priorityMap, currentTask, started, reschedulePending)
    }

    ghost predicate Valid()
      reads this
    {
      initialized ==> Inv(State())
    }

    /** The statics before `init`: no configuration, no state. */
    constructor ()
      ensures Valid() && !initialized && config.None?
    {
      config := None;
      initialized := false;
      tasks := map[];
      lastTaskId := 0;
      queues := [];
      priorityMap := [];
      currentTask := 0;
      started := false;
      reschedulePending := false;
    }

    /** `SCHEDULER_CONFIG.replace(Some(config))`. */
    method ReplaceConfig(c: SchedulerConfig)
      modifies this`config
      ensures config == Some(c)
    {
      config := Some(c);
    }

    /** `get_config`: the stored configuration, or `NotInitialized`. */
    method GetConfig() returns (r: Result<SchedulerConfig>)
      ensures config.Some? ==> r == Ok(config.value)
      ensures config.None? ==> r == Err(NotInitialized)
    {
      if config.Some? {
        r := Ok(config.value);
      } else {
        r := Err(NotInitialized);
      }
    }

    /** The critical section of `init`: fails if the state already exists,
        otherwise installs the initial state (idle task only). */
    method InstallState(idleStackLimit: nat) returns (installed: bool)
      requires Valid()
      modifies this
      ensures Valid() && config == old(config)
      ensures installed == !old(initialized)
      ensures installed ==> initialized && State() == InitialState(idleStackLimit)
      ensures !installed ==> unchanged(this)
    {
      if initialized {
        return false;
      }
      var st := InitialState(idleStackLimit);
      tasks := st.tasks;
      lastTaskId := st.lastTaskId;
      queues := st.queues;
      priorityMap := st.priorityMap;
      currentTask := st.currentTask;
      started := st.started;
      reschedulePending := st.reschedulePending;
      initialized := true;
      installed := true;
    }

    /** The bookkeeping part of `start`: mark the scheduler as started. */
    method MarkStarted()
      requires Valid()
      modifies this`started
      ensures Valid()
      ensures started == (old(started) || initialized)
    {
      if initialized {
        started := true;
      }
    }

    /** `enqueue_task` on this state. */
    method EnqueueTask(id: nat, priority: nat) returns (r: Status)
      requires QueuesWf(State()) && priority < NUM_LEVELS
      modifies this`queues, this`priorityMap
      ensures r.Ok? == Enqueue(old(State()), id, priority).Ok?
      ensures r.Err? ==> r.error == TaskFull && unchanged(this)
      ensures r.Ok? ==> State() == Enqueue(old(State()), id, priority).value
    {
      if |queues[priority]| >= QUEUE_LEN {
        return Err(TaskFull);
      }
      queues := queues[priority := queues[priority] + [id]];
      priorityMap := PM.SetBit(priorityMap, priority);
      r := Success;
    }

    /** `dequeue_task` on this state. */
    method DequeueTask(priority: nat) returns (id: Option<nat>)
      requires QueuesWf(State()) && priority < NUM_LEVELS
      modifies this`queues, this`priorityMap
      ensures (id, State()) == Dequeue(old(State()), priority)
    {
      var q := queues[priority];
      if q == [] {
        id := None;
      } else {
        id := Some(q[0]);
        queues := queues[priority := q[1..]];
      }
      if queues[priority] == [] {
        priorityMap := PM.ClearBit(priorityMap, priority);
      }
    }

    /** `remove_task_from_queue` on this state. */
    method RemoveTaskFromQueue(id: nat, priority: nat)
      requires QueuesWf(State()) && priority < NUM_LEVELS
      modifies this`queues, this`priorityMap
      ensures State() == RemoveFromQueue(old(State()), id, priority)
    {
      queues := queues[priority := Without(queues[priority], id)];
      if queues[priority] == [] {
        priorityMap := PM.ClearBit(priorityMap, priority);
      }
    }

    /** `spawn`: the priority check comes before anything else; then the
        canary is written into the new stack; then the critical section. */
    method Spawn(mem: array<bv32>, stackLimit: nat, initialSp: nat, cfg: TaskConfig)
      returns (r: Result<TaskHandle>)
      requires Valid()
      requires initialized ==> lastTaskId + 1 < USIZE_LIMIT
      requires stackLimit + STACK_CANARY_LEN <= mem.Length
      modifies this, mem
      ensures Valid() && config == old(config) && initialized == old(initialized)
      ensures cfg.priority > MAX_PRIORITY ==>
        r == Err(InvalidPriority) && unchanged(this) && unchanged(mem)
      ensures cfg.priority <= MAX_PRIORITY ==>
        && CanaryIntact(mem[..], stackLimit)
        && forall i :: 0 <= i < mem.Length && !(stackLimit <= i < stackLimit + STACK_CANARY_LEN) ==> mem[i] == old(mem[i])
      ensures cfg.priority <= MAX_PRIORITY && !initialized ==>
        r == Err(NotInitialized) && unchanged(this)
      ensures cfg.priority <= MAX_PRIORITY && initialized ==>
        var step := SchedulerState.Spawn(old(State()), cfg.priority, initialSp, stackLimit);
        && State() == step.state
        && r == (if step.result.Ok? then Ok(TaskHandle(step.result.value)) else Err(step.result.error))
    {
      if cfg.priority > MAX_PRIORITY {
        return Err(InvalidPriority);
      }
      FillStackCanary(mem, stackLimit);
      if !initialized {
        return Err(NotInitialized);
      }
      var id := SpawnLocked(cfg.priority, initialSp, stackLimit);
      r := if id.Ok? then Ok(TaskHandle(id.value)) else Err(id.error);
    }

    /** The critical section of `spawn`, for a valid priority. */
    method SpawnLocked(priority: nat, initialSp: nat, stackLimit: nat) returns (r: Result<nat>)
      requires Valid() && initialized && priority <= MAX_PRIORITY
      requires lastTaskId + 1 < USIZE_LIMIT
      modifies this
      ensures Valid() && config == old(config) && initialized == old(initialized)
      ensures var step := SchedulerState.Spawn(old(State()), priority, initialSp, stackLimit);
        State() == step.state && r == step.result
    {
      ghost var o := SchedulerState.Spawn(State(), priority, initialSp, stackLimit);
      var task := TaskInfo(initialSp, priority, false, stackLimit);
      var id := NextTaskId(lastTaskId);
      lastTaskId := id;
      if id !in tasks && |tasks| >= MAX_NUM_TASKS {
        return Err(TaskFull);
      }
      tasks := tasks[id := task];
      var e := EnqueueTask(id, priority);
      if e.Err? {
        return Err(e.error);
      }
      if started {
        // yield_now: preempt if the new task has a higher priority
        reschedulePending := true;
      }
      r := Ok(id);
    }

    /** `select_task(orig_sp)`: the context-switch decision. */
    method SelectTask(origSp: nat, mem: array<bv32>) returns (r: Fallible<nat>)
      requires Valid()
      requires initialized ==> SomeRunnable(State()) && CanaryReadable(State(), mem.Length)
      modifies this
      ensures Valid() && config == old(config) && initialized == old(initialized)
      ensures !initialized ==> r == Panicked(SchedulerNotInitialized) && unchanged(this)
      ensures initialized ==>
        match Select(old(State()), origSp, mem[..])
        case Overflow(id) => r == Panicked(StackOverflowDetected(id)) && unchanged(this)
        case RequeueFull(id) => r == Panicked(EnqueueUnreachable(id)) && unchanged(this)
        case Switched(sp, st) => r == Returned(sp) && State() == st
    {
      if !initialized {
        return Panicked(SchedulerNotInitialized);
      }
      var panic := RequeueOutgoing(origSp, mem);
      if panic.Some? {
        return Panicked(panic.value);
      }
      var sp := PickNext();
      r := Returned(sp);
    }

    /** First half of `select_task`: check the canary of a runnable
        outgoing task, re-queue it, and save its stack pointer. A damaged
        canary or a full queue is reported as the panic it causes, with
        nothing changed. */
    method RequeueOutgoing(origSp: nat, mem: array<bv32>) returns (panic: Option<Panic>)
      requires Valid() && initialized
      requires CanaryReadable(State(), mem.Length)
      modifies this
      ensures config == old(config) && initialized == old(initialized)
      ensures panic == (
        if OutgoingRunnable(old(State())) && !CanaryIntact(mem[..], old(tasks[currentTask].stackLimit))
        then Some(StackOverflowDetected(old(currentTask)))
        else if !CanRequeue(old(State())) then Some(EnqueueUnreachable(old(currentTask)))
        else None)
      ensures panic.Some? ==> unchanged(this)
      ensures panic.None? ==> Requeue(old(State()), origSp) == Ok(State())
    {
      var origId := currentTask;
      panic := None;
      if origId in tasks {
        var orig := tasks[origId];
        if !orig.blocked {
          var damaged := CheckStackCanary(mem, orig.stackLimit);
          if damaged {
            return Some(StackOverflowDetected(origId));
          }
          var e := EnqueueTask(origId, orig.priority);
          if e.Err? {
            return Some(EnqueueUnreachable(origId));
          }
        }
        tasks := tasks[origId := orig.(stackPointer := origSp)];
      }
    }

    /** Second half of `select_task`: pop the front of the highest
        non-empty level, make it current and return its stack pointer. */
    method PickNext() returns (sp: nat)
      requires Valid() && initialized
      requires exists p :: 0 <= p < NUM_LEVELS && queues[p] != []
      modifies this
      ensures config == old(config) && initialized == old(initialized)
      ensures State() == Pick(old(State())).1
      ensures sp == tasks[currentTask].stackPointer
    {
      ghost var st := State();
      var highest := PM.WIDTH - 1 - PM.LeadingZeros(priorityMap);
      assert highest == HighestLevel(st);
      var next := DequeueTask(highest);
      assert next.value == Pick(st).0;
      currentTask := next.value;
      sp := tasks[next.value].stackPointer;
    }

    /** `block_task`. */
    method BlockTask(id: nat) returns (r: Status)
      requires Valid()
      modifies this
      ensures Valid() && config == old(config) && initialized == old(initialized)
      ensures !initialized ==> r == Err(NotInitialized) && unchanged(this)
      ensures initialized ==> r == Block(old(State()), id).result && State() == Block(old(State()), id).state
    {
      if !initialized {
        return Err(NotInitialized);
      }
      ghost var o := Block(State(), id);
      if id !in tasks {
        return Err(NotFound);
      }
      var task := tasks[id];
      if task.blocked {
        return Success;
      }
      tasks := tasks[id := task.(blocked := true)];
      ghost var blocked := State();
      assert o.state == RemoveFromQueue(blocked, id, task.priority).(reschedulePending := true);
      RemoveTaskFromQueue(id, task.priority);
      reschedulePending := true;
      r := Success;
    }

    /** `unblock_task`. */
    method UnblockTask(id: nat) returns (r: Status)
      requires Valid()
      modifies this
      ensures Valid() && config == old(config) && initialized == old(initialized)
      ensures !initialized ==> r == Err(NotInitialized) && unchanged(this)
      ensures initialized ==> r == Unblock(old(State()), id).result && State() == Unblock(old(State()), id).state
    {
      if !initialized {
        return Err(NotInitialized);
      }
      ghost var o := Unblock(State(), id);
      if id !in tasks {
        return Err(NotFound);
      }
      var task := tasks[id];
      if !task.blocked {
        return Success;
      }
      tasks := tasks[id := task.(blocked := false)];
      var e := EnqueueTask(id, task.priority);
      if e.Err? {
        return e;
      }
      reschedulePending := true;
      r := Success;
    }

    /** `yield_now`: request a context switch, which runs once interrupts
        allow. */
    method YieldNow()
      requires Valid()
      modifies this`reschedulePending
      ensures Valid() && reschedulePending
    {
      reschedulePending := true;
    }

    /** `current_task_id`. */
    method CurrentTaskId() returns (r: Result<nat>)
      ensures initialized ==> r == Ok(currentTask)
      ensures !initialized ==> r == Err(NotInitialized)
    {
      if !initialized {
        return Err(NotInitialized);
      }
      r := Ok(currentTask);
    }

    /** `remove_task`: panics when the scheduler does not exist. */
    method RemoveTask(id: nat) returns (r: Fallible<Status>)
      requires Valid()
      modifies this
      ensures Valid() && config == old(config) && initialized == old(initialized)
      ensures !initialized ==> r == Panicked(SchedulerNotInitialized) && unchanged(this)
      ensures initialized ==> r == Returned(Remove(old(State()), id).result) && State() == Remove(old(State()), id).state
    {
      if !initialized {
        return Panicked(SchedulerNotInitialized);
      }
      if id !in tasks {
        return Returned(Err(NotFound));
      }
      var task := tasks[id];
      tasks := tasks - {id};
      RemoveTaskFromQueue(id, task.priority);
      r := Returned(Success);
    }
  }
}
