/** The tick timer: a tick counter and a min-heap of one-shot wakeups,
    built on the scheduler's `block_task` / `unblock_task`. The heap is a
    multiset of registrations; popping it removes one registration with the
    least time. */
module Timer {
  import opened Errors
  import opened SchedulerState
  import opened Scheduler

  /** Capacity of the registration heap. */
  const MAX_TIMER_REGS: nat := 32

  /** Time is a `u64` tick count. */
  const U64_LIMIT: nat := 0x1_0000_0000_0000_0000

  /** A one-shot wakeup: unblock task `taskId` once the time reaches `time`. */
  datatype Registration = Registration(time: nat, taskId: nat)

  datatype Ordering = Less | Equal | Greater

  /** `PartialEq::eq`: registrations are equal when their times are. */
  predicate SameTime(a: Registration, b: Registration) {
    a.time == b.time
  }

  /** `Ord::cmp`: registrations are ordered by time alone; the task id
      plays no part, which keeps `Ord` consistent with `PartialEq`. */
  function Compare(a: Registration, b: Registration): (o: Ordering)
    ensures o == Less <==> a.time < b.time
    ensures o == Equal <==> SameTime(a, b)
    ensures o == Greater <==> a.time > b.time
  {
    if a.time < b.time then Less else if a.time == b.time then Equal else Greater
  }

  /** `cmp` is antisymmetric and blind to task ids. */
  lemma CompareIsTimeOrder(a: Registration, b: Registration, i: nat, j: nat)
    ensures Compare(a, b) == Less <==> Compare(b, a) == Greater
    ensures Compare(a, b) == Compare(a.(taskId := i), b.(taskId := j))
  {
  }

  /** `r` may be the top of the min-heap holding `q`: it is in `q` and no
      registration in `q` orders before it. */
  predicate IsEarliest(r: Registration, q: multiset<Registration>) {
    r in q && forall x :: x in q ==> Compare(r, x) != Greater
  }

  /** A non-empty heap has a top. */
  lemma {:induction false} EarliestExists(q: multiset<Registration>)
    requires q != multiset{}
    ensures exists r :: IsEarliest(r, q)
    decreases |q|
  {
    var x :| x in q;
    var rest := q - multiset{x};
    assert forall y :: y in q ==> y == x || y in rest;
    if rest == multiset{} {
      assert IsEarliest(x, q);
    } else {
      EarliestExists(rest);
      var m :| IsEarliest(m, rest);
      if x.time <= m.time {
        assert IsEarliest(x, q);
      } else {
        assert IsEarliest(m, q);
      }
    }
  }

  /** `Timer` once `init` has created it. */
  datatype TimerState = TimerState(time: nat, queue: multiset<Registration>)

  predicate TimerWf(tm: TimerState) {
    tm.time < U64_LIMIT && |tm.queue| <= MAX_TIMER_REGS
  }

  // ---------------------------------------------------------------------
  // tick

  /** Which registration a tick from `tm` releases: with the new time
      `tm.time + 1`, nothing when no registration is due yet, otherwise one
      top of the heap (any of them when several share the least time). */
  predicate Fires(tm: TimerState, fired: Option<Registration>) {
    Releases(tm.queue, tm.time + 1, fired)
  }

  /** At time `now`, the heap `q` releases `fired`. */
  predicate Releases(q: multiset<Registration>, now: nat, fired: Option<Registration>) {
    match fired
    case None => forall x :: x in q ==> x.time > now
    case Some(top) => IsEarliest(top, q) && top.time <= now
  }

  /** Every heap allows some tick outcome. */
  lemma FiresTotal(tm: TimerState)
    ensures exists fired :: Fires(tm, fired)
  {
    if tm.queue != multiset{} {
      EarliestExists(tm.queue);
      var top :| IsEarliest(top, tm.queue);
      if top.time <= tm.time + 1 {
        assert Fires(tm, Some(top));
      } else {
        assert Fires(tm, None);
      }
    } else {
      assert Fires(tm, None);
    }
  }

  /** The timer after `tick`: one tick later, the released registration
      (if any) popped and every other registration kept. */
  function Advance(tm: TimerState, fired: Option<Registration>): (r: TimerState)
    requires Fires(tm, fired)
    ensures r.time == tm.time + 1
    ensures r.queue <= tm.queue && |tm.queue| - |r.queue| == (if fired.Some? then 1 else 0)
    ensures forall x :: x in tm.queue && x.time > r.time ==> x in r.queue
  {
    match fired
    case None => tm.(time := tm.time + 1)
    case Some(top) => TimerState(tm.time + 1, tm.queue - multiset{top})
  }

  /** The scheduler after `tick`: `unblock_task` on the released task, its
      error ignored. */
  function Release(st: SchedState, fired: Option<Registration>): (r: SchedState)
    requires Inv(st)
    ensures Inv(r)
  {
    match fired
    case None => st
    case Some(top) => Unblock(st, top.taskId).state
  }

  /** A tick never blocks anyone: the released task becomes runnable, and
      every other task is left exactly as it was. */
  lemma ReleaseEffect(st: SchedState, fired: Option<Registration>, id: nat)
    requires Inv(st) && id in st.tasks
    ensures id in Release(st, fired).tasks
    ensures Release(st, fired).tasks[id] ==
      if fired.Some? && fired.value.taskId == id then st.tasks[id].(blocked := false) else st.tasks[id]
  {
    if fired.Some? {
      UnblockEffect(st, fired.value.taskId);
    }
  }

  // ---------------------------------------------------------------------
  // wait_task_until

  /** The first critical section of `wait_task_until`, and whether the
      task should then block. */
  datatype Push = Push(shouldBlock: Result<bool>, timer: TimerState)

  /** Registering `reg`: a time already reached needs no wait and no
      registration; otherwise the registration is pushed, unless the heap
      is full, which fails with `TimerFull` and changes nothing. */
  function Register(tm: TimerState, reg: Registration): (r: Push)
    requires TimerWf(tm)
    ensures TimerWf(r.timer) && r.timer.time == tm.time
    ensures r.shouldBlock == Ok(false) <==> reg.time <= tm.time
    ensures r.shouldBlock.Err? <==> reg.time > tm.time && |tm.queue| == MAX_TIMER_REGS
    ensures r.shouldBlock.Err? ==> r.shouldBlock.error == TimerFull
    ensures r.shouldBlock != Ok(true) ==> r.timer == tm
    ensures r.shouldBlock == Ok(true) ==> r.timer.queue == tm.queue + multiset{reg}
  {
    if reg.time <= tm.time then Push(Ok(false), tm)
    else if |tm.queue| == MAX_TIMER_REGS then Push(Err(TimerFull), tm)
    else Push(Ok(true), tm.(queue := tm.queue + multiset{reg}))
  }

  /** What `wait_task_until` leaves behind. */
  datatype WaitOutcome = WaitOutcome(result: Status, timer: TimerState, sched: SchedState)

  /** `wait_task_until` with registration and `block_task` in one
      critical section: no tick can fall between them. */
  function AtomicWait(tm: TimerState, st: SchedState, reg: Registration): (o: WaitOutcome)
    requires TimerWf(tm) && Inv(st)
    ensures TimerWf(o.timer) && Inv(o.sched)
  {
    var p := Register(tm, reg);
    if p.shouldBlock.Err? then WaitOutcome(Err(p.shouldBlock.error), p.timer, st)
    else if !p.shouldBlock.value then WaitOutcome(Success, p.timer, st)
    else
      var b := Block(st, reg.taskId);
      WaitOutcome(b.result, p.timer, b.state)
  }

  /** `wait_task_until` as written: the registration is pushed in one
      critical section and `block_task` runs in a second one, so the tick
      interrupt can run between them; it releases `fired`. */
  function SplitWait(tm: TimerState, st: SchedState, reg: Registration, fired: Option<Registration>): (o: WaitOutcome)
    requires TimerWf(tm) && Inv(st) && Fires(Register(tm, reg).timer, fired)
    ensures Inv(o.sched)
  {
    var p := Register(tm, reg);
    var t1 := Advance(p.timer, fired);
    var st1 := Release(st, fired);
    if p.shouldBlock.Err? then WaitOutcome(Err(p.shouldBlock.error), t1, st1)
    else if !p.shouldBlock.value then WaitOutcome(Success, t1, st1)
    else
      var b := Block(st1, reg.taskId);
      WaitOutcome(b.result, t1, b.state)
  }

  /** The wakeup `reg` stands for is not lost: if its task is blocked, the
      registration that will unblock it is still in the heap. */
  predicate Armed(tm: TimerState, st: SchedState, reg: Registration) {
    reg.taskId in st.tasks && st.tasks[reg.taskId].blocked ==> reg in tm.queue
  }

  /** A task that is running when it calls the atomic wait is left with its
      wakeup armed, whatever the outcome. */
  lemma AtomicWaitArms(tm: TimerState, st: SchedState, reg: Registration)
    requires TimerWf(tm) && Inv(st)
    requires reg.taskId in st.tasks ==> !st.tasks[reg.taskId].blocked
    ensures var o := AtomicWait(tm, st, reg); Armed(o.timer, o.sched, reg)
  {
  }

  /** Ticks keep a wakeup armed: the tick that pops the registration
      unblocks its task, and any other tick leaves the registration in the
      heap and the task as it was. */
  lemma TickKeepsArmed(tm: TimerState, st: SchedState, reg: Registration, fired: Option<Registration>)
    requires Inv(st) && Fires(tm, fired) && Armed(tm, st, reg)
    ensures Armed(Advance(tm, fired), Release(st, fired), reg)
  {
    if reg.taskId in st.tasks {
      ReleaseEffect(st, fired, reg.taskId);
      if fired.Some? && fired.value != reg && reg in tm.queue {
        assert reg in tm.queue - multiset{fired.value};
      }
    }
  }

  /** The race in `wait_task_until` as written: a running task waits for
      the next tick on an empty heap; the tick lands between the two
      critical sections, pops the registration and unblocks the task, which
      is not blocked yet (a no-op); `block_task` then blocks it. The task
      ends blocked with its wakeup gone and the heap empty, so no later
      tick can release it. */
  lemma SplitWaitLosesWakeup(tm: TimerState, st: SchedState, id: nat)
    requires TimerWf(tm) && Inv(st) && tm.queue == multiset{}
    requires id in st.tasks && !st.tasks[id].blocked
    ensures var reg := Registration(tm.time + 1, id);
      && Fires(Register(tm, reg).timer, Some(reg))
      && var o := SplitWait(tm, st, reg, Some(reg));
      && o.result == Success
      && o.sched.tasks[id].blocked
      && o.timer.queue == multiset{}
      && !Armed(o.timer, o.sched, reg)
      && forall f :: Fires(o.timer, f) ==> f.None?
  {
    var reg := Registration(tm.time + 1, id);
    var p := Register(tm, reg);
    assert p.timer.queue == multiset{reg};
    assert IsEarliest(reg, p.timer.queue);
    UnblockEffect(st, id);
    var st1 := Release(st, Some(reg));
    assert st1 == st;
  }

  // ---------------------------------------------------------------------
  // The timer object

  /** The `TIMER` static: `None` until `init`, then the tick count and the
      heap. */
  class Timer {
    var initialized: bool
    var time: nat
    var queue: multiset<Registration>

    ghost function State(): TimerState
      reads this
    {
      TimerState(time, queue)
    }

    ghost predicate Valid()
      reads this
    {
      TimerWf(State())
    }

    /** The static before `init`. */
    constructor ()
      ensures Valid() && !initialized
    {
      initialized := false;
      time := 0;
      queue := multiset{};
    }

    /** `init`: time 0 and an empty heap, replacing any earlier timer. */
    method Init()
      modifies this
      ensures Valid() && initialized && time == 0 && queue == multiset{}
    {
      initialized := true;
      time := 0;
      queue := multiset{};
    }

    /** `tick`: nothing before `init`; otherwise one tick later, and at most
        one due registration popped and its task unblocked. The released
        registration is returned so that the caller can name it. */
    method Tick(s: Scheduler) returns (fired: Option<Registration>)
      requires Valid() && s.Valid()
      requires initialized ==> time + 1 < U64_LIMIT
      modifies this, s
      ensures Valid() && s.Valid() && initialized == old(initialized)
      ensures s.initialized == old(s.initialized) && s.config == old(s.config)
      ensures !initialized ==> fired.None? && unchanged(this) && unchanged(s)
      ensures initialized ==> Fires(old(State()), fired) && State() == Advance(old(State()), fired)
      ensures initialized && s.initialized ==> s.State() == Release(old(s.State()), fired)
      ensures !s.initialized ==> unchanged(s)
    {
      fired := None;
      if !initialized {
        return;
      }
      time := time + 1;
      fired := ReleaseDue(s);
    }

    /** The second half of `tick`, once the time has advanced: pop a top of
        the heap if it is due and unblock its task. */
    method ReleaseDue(s: Scheduler) returns (fired: Option<Registration>)
      requires s.Valid() && |queue| <= MAX_TIMER_REGS
      modifies this`queue, s
      ensures s.Valid() && s.initialized == old(s.initialized) && s.config == old(s.config)
      ensures Releases(old(queue), time, fired)
      ensures queue == if fired.Some? then old(queue) - multiset{fired.value} else old(queue)
      ensures s.initialized ==> s.State() == Release(old(s.State()), fired)
      ensures !s.initialized ==> unchanged(s)
    {
      fired := None;
      if queue != multiset{} {
        EarliestExists(queue);
        var top :| IsEarliest(top, queue);
        if top.time <= time {
          queue := queue - multiset{top};
          var ignored := s.UnblockTask(top.taskId);
          fired := Some(top);
        }
      }
    }

    /** The first critical section of `wait_task_until`. */
    method RegisterTimeout(t: nat, taskId: nat) returns (shouldBlock: Result<bool>)
      requires Valid()
      modifies this`queue
      ensures Valid()
      ensures !initialized ==> shouldBlock == Err(NotInitialized) && unchanged(this)
      ensures initialized ==> var p := Register(old(State()), Registration(t, taskId));
        shouldBlock == p.shouldBlock && State() == p.timer
    {
      if !initialized {
        return Err(NotInitialized);
      }
      var reg := Registration(t, taskId);
      if reg.time <= time {
        return Ok(false);
      }
      if |queue| == MAX_TIMER_REGS {
        return Err(TimerFull);
      }
      queue := queue + multiset{reg};
      shouldBlock := Ok(true);
    }

    /** `wait_task_until` as written: `Register`, then `block_task` in a
        second critical section. When `interrupted`, the tick interrupt runs
        between the two and releases `fired`. */
    method WaitTaskUntil(s: Scheduler, t: nat, taskId: nat, interrupted: bool)
      returns (r: Status, fired: Option<Registration>)
      requires Valid() && s.Valid()
      requires interrupted && initialized ==> time + 1 < U64_LIMIT
      modifies this, s
      ensures Valid() && s.Valid() && initialized == old(initialized)
      ensures s.initialized == old(s.initialized) && s.config == old(s.config)
      ensures !initialized ==> r == Err(NotInitialized) && unchanged(this) && unchanged(s)
      ensures initialized && s.initialized && !interrupted ==>
        var o := AtomicWait(old(State()), old(s.State()), Registration(t, taskId));
        r == o.result && State() == o.timer && s.State() == o.sched
      ensures initialized && s.initialized && interrupted ==>
        var reg := Registration(t, taskId);
        && Fires(Register(old(State()), reg).timer, fired)
        && var o := SplitWait(old(State()), old(s.State()), reg, fired);
        && r == o.result && State() == o.timer && s.State() == o.sched
    {
      fired := None;
      if !initialized {
        return Err(NotInitialized), None;
      }
      var shouldBlock := RegisterTimeout(t, taskId);
      if interrupted {
        fired := Tick(s);
      }
      if shouldBlock.Err? {
        return Err(shouldBlock.error), fired;
      }
      if shouldBlock.value {
        r := s.BlockTask(taskId);
      } else {
        r := Success;
      }
    }

    /** `wait_task_until` with the registration and `block_task` in one
        critical section, so that a tick can come only before or after. */
    method WaitTaskUntilAtomic(s: Scheduler, t: nat, taskId: nat) returns (r: Status)
      requires Valid() && s.Valid()
      modifies this, s
      ensures Valid() && s.Valid() && initialized == old(initialized)
      ensures s.initialized == old(s.initialized) && s.config == old(s.config)
      ensures !initialized ==> r == Err(NotInitialized) && unchanged(this) && unchanged(s)
      ensures initialized && s.initialized ==>
        var o := AtomicWait(old(State()), old(s.State()), Registration(t, taskId));
        r == o.result && State() == o.timer && s.State() == o.sched
    {
      var shouldBlock := RegisterTimeout(t, taskId);
      if shouldBlock.Err? {
        return Err(shouldBlock.error);
      }
      if shouldBlock.value {
        r := s.BlockTask(taskId);
      } else {
        r := Success;
      }
    }

    /** `wait_until`: `wait_task_until` as written for the current task,
        `NotInitialized` before the scheduler exists. When `interrupted`,
        the tick interrupt runs between its two critical sections and
        releases `fired`. */
    method WaitUntil(s: Scheduler, t: nat, interrupted: bool) returns (r: Status, fired: Option<Registration>)
      requires Valid() && s.Valid()
      requires interrupted && initialized ==> time + 1 < U64_LIMIT
      modifies this, s
      ensures Valid() && s.Valid() && initialized == old(initialized)
      ensures s.initialized == old(s.initialized) && s.config == old(s.config)
      ensures !s.initialized ==> r == Err(NotInitialized) && unchanged(this) && unchanged(s)
      ensures !initialized ==> r == Err(NotInitialized) && unchanged(this) && unchanged(s)
      ensures initialized && s.initialized && !interrupted ==>
        var o := AtomicWait(old(State()), old(s.State()), Registration(t, old(s.currentTask)));
        r == o.result && State() == o.timer && s.State() == o.sched
      ensures initialized && s.initialized && interrupted ==>
        var reg := Registration(t, old(s.currentTask));
        && Fires(Register(old(State()), reg).timer, fired)
        && var o := SplitWait(old(State()), old(s.State()), reg, fired);
        && r == o.result && State() == o.timer && s.State() == o.sched
    {
      fired := None;
      var id := s.CurrentTaskId();
      if id.Err? {
        return Err(id.error), None;
      }
      r, fired := WaitTaskUntil(s, t, id.value, interrupted);
    }

    /** `current_time`: the tick count, unchanged; `NotInitialized` before
        `init`. */
    method CurrentTime() returns (r: Result<nat>)
      ensures initialized ==> r == Ok(time)
      ensures !initialized ==> r == Err(NotInitialized)
    {
      if !initialized {
        return Err(NotInitialized);
      }
      r := Ok(time);
    }
  }
}
