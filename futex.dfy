/** The futex: an integer plus a FIFO queue of waiting task ids, built on
    the scheduler's `block_task` / `unblock_task`. */
module Futex {
  import opened Errors
  import opened SchedulerState
  import opened Scheduler

  /** Capacity of a wait queue: one slot per possible task. */
  const WAIT_QUEUE_LEN: nat := MAX_NUM_TASKS

  /** Outcome of the loop in `wake`: its result, the scheduler state and
      the index of the first waiter it did not pop. */
  datatype WakeStep = WakeStep(result: Status, state: SchedState, popped: nat)

  function Min(a: nat, b: nat): nat { if a <= b then a else b }

  /** The critical section of `wake(num)`, from the waiter at index `from`
      on: up to `num` times, pop the front waiter and unblock it; stop
      early when no waiter is left; the first failing unblock ends the loop
      with its error, the popped id gone. FIFO: a successful wake pops
      exactly the next `min(num, waiters)` ids, a failed one at least one
      and no more than that. */
  function WakeFrom(st: SchedState, waiting: seq<nat>, from: nat, num: nat): (r: WakeStep)
    requires Inv(st) && from <= |waiting|
    ensures Inv(r.state)
    ensures from <= r.popped <= |waiting|
    ensures r.result.Ok? ==> r.popped == from + Min(num, |waiting| - from)
    ensures r.result.Err? ==> from < r.popped <= from + Min(num, |waiting| - from)
    decreases num
  {
    if num == 0 || from == |waiting| then WakeStep(Success, st, from)
    else
      var u := Unblock(st, waiting[from]);
      if u.result.Err? then WakeStep(u.result, u.state, from + 1)
      else WakeFrom(u.state, waiting, from + 1, num - 1)
  }

  /** `unblock_task`'s effect on the task table: the blocked flag of `id`
      cleared; an unknown id changes nothing. */
  function MarkOne(tasks: map<nat, TaskInfo>, id: nat): map<nat, TaskInfo>
  {
    if id in tasks then tasks[id := tasks[id].(blocked := false)] else tasks
  }

  /** The task table after `unblock_task` has run on `waiting[from..to]`
      in turn. */
  function MarkUnblocked(tasks: map<nat, TaskInfo>, waiting: seq<nat>, from: nat, to: nat): map<nat, TaskInfo>
    requires from <= to <= |waiting|
    decreases (to as int) - (from as int)
  {
    if from == to then tasks else MarkUnblocked(MarkOne(tasks, waiting[from]), waiting, from + 1, to)
  }

  /** Each woken task is unblocked and nothing else about it changes; a
      task that was not woken is left exactly as it was. */
  lemma {:induction false} MarkUnblockedEffect(tasks: map<nat, TaskInfo>, waiting: seq<nat>, from: nat, to: nat, id: nat)
    requires from <= to <= |waiting| && id in tasks
    ensures id in MarkUnblocked(tasks, waiting, from, to)
    ensures MarkUnblocked(tasks, waiting, from, to)[id] ==
      (if id in waiting[from..to] then tasks[id].(blocked := false) else tasks[id])
    decreases (to as int) - (from as int)
  {
    if from < to {
      MarkUnblockedEffect(MarkOne(tasks, waiting[from]), waiting, from + 1, to, id);
      assert waiting[from..to] == [waiting[from]] + waiting[from + 1..to];
    }
  }

  /** One round of the loop in `wake`. */
  lemma WakeFromStep(st: SchedState, waiting: seq<nat>, from: nat, num: nat)
    requires Inv(st) && from < |waiting| && num > 0
    ensures var u := Unblock(st, waiting[from]);
      WakeFrom(st, waiting, from, num) ==
        if u.result.Err? then WakeStep(u.result, u.state, from + 1)
        else WakeFrom(u.state, waiting, from + 1, num - 1)
  {
  }

  /** Unblocking one more waiter extends the table by one `MarkOne`. */
  lemma {:induction false} MarkUnblockedSnoc(tasks: map<nat, TaskInfo>, waiting: seq<nat>, from: nat, to: nat)
    requires from <= to < |waiting|
    ensures MarkUnblocked(tasks, waiting, from, to + 1) == MarkOne(MarkUnblocked(tasks, waiting, from, to), waiting[to])
    decreases (to as int) - (from as int)
  {
    if from < to {
      MarkUnblockedSnoc(MarkOne(tasks, waiting[from]), waiting, from + 1, to);
    }
  }

  /** Waking touches the task table only through `unblock_task`: the
      popped waiters have their blocked flags cleared, in queue order. */
  lemma {:induction false} WakeFromTasks(st: SchedState, waiting: seq<nat>, from: nat, num: nat)
    requires Inv(st) && from <= |waiting|
    ensures var r := WakeFrom(st, waiting, from, num);
      r.state.tasks == MarkUnblocked(st.tasks, waiting, from, r.popped)
    decreases num
  {
    if num > 0 && from < |waiting| {
      var u := Unblock(st, waiting[from]);
      UnblockEffect(st, waiting[from]);
      WakeFromStep(st, waiting, from, num);
      if u.result.Ok? {
        WakeFromTasks(u.state, waiting, from + 1, num - 1);
      }
    }
  }

  /** A wake that succeeds popped only ids of live tasks. */
  lemma {:induction false} WakeFromLive(st: SchedState, waiting: seq<nat>, from: nat, num: nat, k: nat)
    requires Inv(st) && from <= k && from <= |waiting|
    requires WakeFrom(st, waiting, from, num).result.Ok? && k < WakeFrom(st, waiting, from, num).popped
    ensures waiting[k] in st.tasks
    decreases num
  {
    var u := Unblock(st, waiting[from]);
    UnblockEffect(st, waiting[from]);
    WakeFromStep(st, waiting, from, num);
    if k > from {
      WakeFromLive(u.state, waiting, from + 1, num - 1, k);
    }
  }

  /** A wake fails only on an unknown waiter id or a full ready queue. */
  lemma {:induction false} WakeFromError(st: SchedState, waiting: seq<nat>, from: nat, num: nat)
    requires Inv(st) && from <= |waiting|
    ensures var r := WakeFrom(st, waiting, from, num);
      r.result.Err? ==> r.result.error in {NotFound, TaskFull}
    decreases num
  {
    if num > 0 && from < |waiting| {
      var u := Unblock(st, waiting[from]);
      UnblockEffect(st, waiting[from]);
      WakeFromStep(st, waiting, from, num);
      if u.result.Ok? {
        WakeFromError(u.state, waiting, from + 1, num - 1);
      }
    }
  }

  /** The task table after a wake: a live task among the popped waiters
      is runnable again with nothing else about it changed; every other
      task is exactly as before. */
  lemma WakeFromEffect(st: SchedState, waiting: seq<nat>, num: nat, id: nat)
    requires Inv(st) && id in st.tasks
    ensures var r := WakeFrom(st, waiting, 0, num);
      && id in r.state.tasks
      && r.state.tasks[id] ==
           (if id in waiting[..r.popped] then st.tasks[id].(blocked := false) else st.tasks[id])
  {
    var r := WakeFrom(st, waiting, 0, num);
    WakeFromTasks(st, waiting, 0, num);
    MarkUnblockedEffect(st.tasks, waiting, 0, r.popped, id);
    assert waiting[0..r.popped] == waiting[..r.popped];
  }

  /** No lost wakeup: once `wait` has queued and blocked the current task,
      a `wake(num)` that succeeds and whose `num` covers every waiter leaves
      that task runnable. `wake_all` is `wake(MAX_NUM_TASKS)`, and the wait
      queue holds fewer than `WAIT_QUEUE_LEN == MAX_NUM_TASKS` waiters
      before the append, so `wake_all` is such a wake. */
  lemma WaitThenWakeAll(st: SchedState, waiting: seq<nat>, num: nat)
    requires Inv(st) && st.currentTask in st.tasks
    requires Block(st, st.currentTask).result.Ok?
    requires |waiting| < num
    ensures var b := Block(st, st.currentTask);
      var queue := waiting + [st.currentTask];
      var w := WakeFrom(b.state, queue, 0, num);
      w.result.Ok? ==> st.currentTask in w.state.tasks && !w.state.tasks[st.currentTask].blocked
  {
    var b := Block(st, st.currentTask);
    var queue := waiting + [st.currentTask];
    var w := WakeFrom(b.state, queue, 0, num);
    WakeFromEffect(b.state, queue, num, st.currentTask);
    if w.result.Ok? {
      assert queue[..w.popped] == queue;
    }
  }

  /** The futex object: `value` is the atomic integer reached through
      `as_ref`; `waiting` is the wait queue, front first. */
  class Futex {
    var value: nat
    var waiting: seq<nat>

    /** `Futex::new(value)`: the given value, nobody waiting. */
    constructor (initial: nat)
      ensures value == initial && waiting == []
    {
      value := initial;
      waiting := [];
    }

    /** An atomic load through `as_ref`. */
    method Load() returns (v: nat)
      ensures v == value
    {
      v := value;
    }

    /** An atomic store through `as_ref`: the only way the value changes. */
    method Store(v: nat)
      modifies this`value
      ensures value == v
    {
      value := v;
    }

    /** `wait(compare_val)`: the fast-path check outside any critical
        section, then the critical section. */
    method Wait(s: Scheduler, compareVal: nat) returns (r: Status)
      requires s.Valid() && |waiting| < WAIT_QUEUE_LEN
      modifies this`waiting, s
      ensures s.Valid() && s.initialized == old(s.initialized) && s.config == old(s.config)
      ensures value != compareVal ==> r == Success && waiting == old(waiting) && unchanged(s)
      ensures value == compareVal && !s.initialized ==>
        r == Err(NotInitialized) && waiting == old(waiting) && unchanged(s)
      ensures value == compareVal && s.initialized ==>
        && waiting == old(waiting) + [old(s.currentTask)]
        && r == Block(old(s.State()), old(s.currentTask)).result
        && s.State() == Block(old(s.State()), old(s.currentTask)).state
    {
      var v := Load();
      if v == compareVal {
        r := WaitLocked(s, compareVal);
      } else {
        r := Success;
      }
    }

    /** The critical section of `wait`: re-check the value; on a match
        append the current task to the tail of the queue and block it, all
        before any wake can run. */
    method WaitLocked(s: Scheduler, compareVal: nat) returns (r: Status)
      requires s.Valid() && |waiting| < WAIT_QUEUE_LEN
      modifies this`waiting, s
      ensures s.Valid() && s.initialized == old(s.initialized) && s.config == old(s.config)
      ensures value != compareVal ==> r == Success && waiting == old(waiting) && unchanged(s)
      ensures value == compareVal && !s.initialized ==>
        r == Err(NotInitialized) && waiting == old(waiting) && unchanged(s)
      ensures value == compareVal && s.initialized ==>
        && waiting == old(waiting) + [old(s.currentTask)]
        && r == Block(old(s.State()), old(s.currentTask)).result
        && s.State() == Block(old(s.State()), old(s.currentTask)).state
    {
      var v := Load();
      if v != compareVal {
        return Success;
      }
      var id := s.CurrentTaskId();
      if id.Err? {
        return Err(id.error);
      }
      waiting := waiting + [id.value];
      r := s.BlockTask(id.value);
    }

    /** `wake(num)`: the loop of `WakeFrom` run on the queue, which loses
        exactly the waiters it popped from its front. Before `init` every
        `unblock_task` fails, so a non-empty queue loses its front waiter and
        the call fails with `NotInitialized`. */
    method Wake(s: Scheduler, num: nat) returns (r: Status)
      requires s.Valid()
      modifies this`waiting, s
      ensures s.Valid() && s.initialized == old(s.initialized) && s.config == old(s.config)
      ensures !s.initialized ==> unchanged(s)
      ensures !s.initialized && (num == 0 || old(waiting) == []) ==> r == Success && waiting == old(waiting)
      ensures !s.initialized && num > 0 && old(waiting) != [] ==>
        r == Err(NotInitialized) && waiting == old(waiting)[1..]
      ensures s.initialized ==> var w := WakeFrom(old(s.State()), old(waiting), 0, num);
        r == w.result && s.State() == w.state && waiting == old(waiting)[w.popped..]
    {
      ghost var w0 := waiting;
      ghost var target := if s.initialized then WakeFrom(s.State(), w0, 0, num) else WakeStep(Success, s.State(), 0);
      ghost var left: nat := num;
      var i := 0;
      while i < num
        invariant 0 <= i <= num && i <= |w0| && left == num - i
        invariant waiting == w0[i..]
        invariant s.Valid() && s.initialized == old(s.initialized) && s.config == old(s.config)
        invariant !s.initialized ==> i == 0 && unchanged(s)
        invariant s.initialized ==> target == WakeFrom(s.State(), w0, i, left)
        decreases num - i
      {
        if waiting == [] {
          break;
        }
        var id := waiting[0];
        if s.initialized {
          WakeFromStep(s.State(), w0, i, left);
        }
        waiting := waiting[1..];
        var u := s.UnblockTask(id);
        if u.Err? {
          return u;
        }
        i := i + 1;
        left := left - 1;
      }
      r := Success;
    }

    /** `wake_one`. */
    method WakeOne(s: Scheduler) returns (r: Status)
      requires s.Valid()
      modifies this`waiting, s
      ensures s.Valid() && s.initialized == old(s.initialized) && s.config == old(s.config)
      ensures s.initialized ==> var w := WakeFrom(old(s.State()), old(waiting), 0, 1);
        r == w.result && s.State() == w.state && waiting == old(waiting)[w.popped..]
    {
      r := Wake(s, 1);
    }

    /** `wake_all`: `wake(MAX_NUM_TASKS)`. */
    method WakeAll(s: Scheduler) returns (r: Status)
      requires s.Valid()
      modifies this`waiting, s
      ensures s.Valid() && s.initialized == old(s.initialized) && s.config == old(s.config)
      ensures s.initialized ==> var w := WakeFrom(old(s.State()), old(waiting), 0, MAX_NUM_TASKS);
        r == w.result && s.State() == w.state && waiting == old(waiting)[w.popped..]
    {
      r := Wake(s, MAX_NUM_TASKS);
    }
  }
}
