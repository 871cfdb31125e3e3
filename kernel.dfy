/** `Scheduler::init`, which ties the scheduler, the timer and the port's
    idle stack together and hands out the one scheduler handle. */
module Kernel {
  import opened Errors
  import opened SchedulerState
  import opened Scheduler
  import opened Timer

  /** The stack the port gives the idle task, as word addresses into
      memory: `start` is its lowest word, where the canary goes. */
  datatype IdleStack = IdleStack(start: nat, end: nat)

  /** The handle `init` returns: the core clock and the idle stack's
      bounds. */
  datatype SchedulerHandle = SchedulerHandle(clockFreq: nat, idleStackStart: nat, idleStackEnd: nat)

  /** `Scheduler::init(clock_freq, config)`: store the configuration
      (always, even when `init` then fails); with no idle stack from the
      port, fail; otherwise write the canary at the bottom of the idle
      stack and, unless the scheduler already exists, install the initial
      state (the idle task alone, its stack limit the idle stack's start)
      and reset the timer. A second `init` fails and leaves the running
      scheduler and the timer as they were. */
  method Init(s: Scheduler, tm: Timer, mem: array<bv32>, clockFreq: nat, config: SchedulerConfig, idle: Option<IdleStack>)
    returns (r: Option<SchedulerHandle>)
    requires s.Valid() && tm.Valid()
    requires idle.Some? ==> idle.value.start + STACK_CANARY_LEN <= idle.value.end <= mem.Length
    modifies s, tm, mem
    ensures s.Valid() && tm.Valid() && s.config == Some(config)
    ensures idle.None? ==>
      && r.None? && s.State() == old(s.State()) && s.initialized == old(s.initialized)
      && unchanged(tm) && unchanged(mem)
    ensures idle.Some? ==> CanaryIntact(mem[..], idle.value.start)
    ensures idle.Some? && old(s.initialized) ==>
      && r.None? && s.initialized && s.State() == old(s.State())
      && unchanged(tm)
    ensures idle.Some? && !old(s.initialized) ==>
      && r == Some(SchedulerHandle(clockFreq, idle.value.start, idle.value.end))
      && s.initialized && s.State() == InitialState(idle.value.start)
      && tm.initialized && tm.time == 0 && tm.queue == multiset{}
    ensures idle.Some? ==> forall i :: 0 <= i < mem.Length && !(idle.value.start <= i < idle.value.start + STACK_CANARY_LEN) ==>
      mem[i] == old(mem[i])
  {
    s.ReplaceConfig(config);
    if idle.None? {
      return None;
    }
    var stack := idle.value;
    FillStackCanary(mem, stack.start);
    var installed := s.InstallState(stack.start);
    if !installed {
      return None;
    }
    tm.Init();
    r := Some(SchedulerHandle(clockFreq, stack.start, stack.end));
  }
  /** `handle_tick`, the tick interrupt: one timer tick, then a reschedule
      request whatever the tick released. */
  method HandleTick(s: Scheduler, tm: Timer) returns (fired: Option<Registration>)
    requires s.Valid() && tm.Valid()
    requires tm.initialized ==> tm.time + 1 < U64_LIMIT
    modifies s, tm
    ensures s.Valid() && tm.Valid() && s.reschedulePending
    ensures s.initialized == old(s.initialized) && s.config == old(s.config) && tm.initialized == old(tm.initialized)
    ensures !tm.initialized ==> fired.None? && unchanged(tm)
    ensures tm.initialized ==> Fires(old(tm.State()), fired) && tm.State() == Advance(old(tm.State()), fired)
    ensures tm.initialized && s.initialized ==>
      s.State() == Release(old(s.State()), fired).(reschedulePending := true)
    ensures !(tm.initialized && s.initialized) ==>
      s.State() == old(s.State()).(reschedulePending := true)
  {
    fired := tm.Tick(s);
    s.YieldNow();
  }
}
