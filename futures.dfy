/** `block_on` and its waker. The future is given as the results its
    successive polls return; `park` and `unpark` belong to the task API and
    appear here as the events `block_on` issues and the outcomes they
    report. */
module Futures {
  import opened Errors
  import opened Task

  datatype Poll<T> = Ready(value: T) | Pending

  /** What `block_on` does to the outside world, in order. */
  datatype Event = Polled | Parked

  /** Why `block_on` panics: `task::current` failed, or a `park` did. */
  datatype BlockOnPanic = NoCurrentTask(error: Error) | ParkFailed(error: Error)

  datatype Outcome<T> = Completed(value: T) | Panicked(reason: BlockOnPanic)

  /** The one static `RAW_WAKER_VTABLE`. */
  datatype VTable = RawWakerVTable

  /** A `RawWaker`: its data pointer, which designates the waiting task's
      handle, and its vtable. */
  datatype RawWaker = RawWaker(data: TaskHandle, vtable: VTable)

  /** What a vtable entry asks of the task API. */
  datatype WakerAction = Unpark(task: TaskHandle) | NoAction

  /** `raw_waker_clone`: a waker for the same task with the same vtable. */
  function WakerClone(data: TaskHandle): (w: RawWaker)
    ensures w.data == data && w.vtable == RawWakerVTable
  {
    RawWaker(data, RawWakerVTable)
  }

  /** `raw_waker_wake`: unpark the task the data designates. */
  function WakerWake(data: TaskHandle): (a: WakerAction)
    ensures a.Unpark? && a.task.id == data.id
  {
    Unpark(data)
  }

  /** `raw_waker_wake_by_ref`: the same as `wake`. */
  function WakerWakeByRef(data: TaskHandle): (a: WakerAction)
    ensures a == WakerWake(data)
  {
    Unpark(data)
  }

  /** `raw_waker_drop`: nothing. */
  function WakerDrop(data: TaskHandle): (a: WakerAction)
    ensures a.NoAction?
  {
    NoAction
  }

  /** A failed `unpark` inside a wake panics. */
  function ExpectUnparked(unpark: Status): (r: Option<Error>)
    ensures r.None? <==> unpark.Ok?
  {
    if unpark.Ok? then None else Some(unpark.error)
  }

  /** Any waker cloned from the `block_on` waker, woken by value or by
      reference, unparks the task that called `block_on`. */
  lemma ClonedWakerUnparksCaller(caller: TaskHandle, byRef: bool)
    ensures var w := WakerClone(WakerClone(caller).data);
      (if byRef then WakerWakeByRef(w.data) else WakerWake(w.data)) == Unpark(caller)
  {
  }

  /** The index of the first `Ready` poll result. */
  function FirstReady<T>(polls: seq<Poll<T>>, from: nat): (i: nat)
    requires from <= |polls| && exists j :: from <= j < |polls| && polls[j].Ready?
    ensures from <= i < |polls| && polls[i].Ready?
    ensures forall j :: from <= j < i ==> polls[j].Pending?
    decreases |polls| - from
  {
    if polls[from].Ready? then from else FirstReady(polls, from + 1)
  }

  /** `k` rounds of poll-then-park. */
  function PollPark(k: nat): (t: seq<Event>)
    ensures |t| == 2 * k
  {
    if k == 0 then [] else [Polled, Parked] + PollPark(k - 1)
  }

  /** The loop of `block_on` from poll number `i` on: poll; on `Ready`
      stop with its value; on `Pending` park (the `i`-th park result is
      `parks[i]`), panic if that fails, and poll again. */
  function Run<T>(polls: seq<Poll<T>>, parks: seq<Status>, i: nat): (r: (Outcome<T>, seq<Event>))
    requires i <= |polls| && exists j :: i <= j < |polls| && polls[j].Ready?
    requires |parks| >= FirstReady(polls, i)
    decreases |polls| - i
  {
    if polls[i].Ready? then (Completed(polls[i].value), [Polled])
    else if parks[i].Err? then (Panicked(ParkFailed(parks[i].error)), [Polled, Parked])
    else
      var rest := Run(polls, parks, i + 1);
      (rest.0, [Polled, Parked] + rest.1)
  }

  /** What `block_on` promises when every park up to the first `Ready`
      succeeds: it returns that poll's value after exactly one park per
      `Pending`, alternating poll and park and never polling again. */
  lemma {:induction false} RunCompletes<T>(polls: seq<Poll<T>>, parks: seq<Status>, i: nat)
    requires i <= |polls| && exists j :: i <= j < |polls| && polls[j].Ready?
    requires |parks| >= FirstReady(polls, i)
    requires forall j :: i <= j < FirstReady(polls, i) ==> parks[j].Ok?
    ensures Run(polls, parks, i).0 == Completed(polls[FirstReady(polls, i)].value)
    ensures Run(polls, parks, i).1 == PollPark(FirstReady(polls, i) - i) + [Polled]
    decreases |polls| - i
  {
    if polls[i].Pending? {
      RunCompletes(polls, parks, i + 1);
    }
  }

  /** The first park that fails before the first `Ready` makes `block_on`
      panic right after it. */
  lemma {:induction false} RunPanics<T>(polls: seq<Poll<T>>, parks: seq<Status>, i: nat, j: nat)
    requires i <= |polls| && exists j :: i <= j < |polls| && polls[j].Ready?
    requires |parks| >= FirstReady(polls, i)
    requires i <= j < FirstReady(polls, i) && parks[j].Err?
    requires forall k :: i <= k < j ==> parks[k].Ok?
    ensures Run(polls, parks, i).0 == Panicked(ParkFailed(parks[j].error))
    ensures Run(polls, parks, i).1 == PollPark(j + 1 - i)
    decreases |polls| - i
  {
    if i < j {
      RunPanics(polls, parks, i + 1, j);
    }
  }

  /** `block_on(fut)`: get the current task (panicking if there is none),
      build a waker on its handle, then poll and park until `Ready`. The
      waker built is returned too. */
  method BlockOn<T>(current: Result<TaskHandle>, polls: seq<Poll<T>>, parks: seq<Status>)
    returns (r: Outcome<T>, trace: seq<Event>, waker: Option<RawWaker>)
    requires exists j :: 0 <= j < |polls| && polls[j].Ready?
    requires |parks| >= FirstReady(polls, 0)
    ensures current.Err? ==> r == Panicked(NoCurrentTask(current.error)) && trace == [] && waker.None?
    ensures current.Ok? ==> waker == Some(RawWaker(current.value, RawWakerVTable))
    ensures current.Ok? ==> (r, trace) == Run(polls, parks, 0)
  {
    if current.Err? {
      return Panicked(NoCurrentTask(current.error)), [], None;
    }
    waker := Some(RawWaker(current.value, RawWakerVTable));
    trace := [];
    var i := 0;
    while true
      invariant i <= FirstReady(polls, 0)
      invariant forall j :: 0 <= j < i ==> polls[j].Pending? && parks[j].Ok?
      invariant trace + Run(polls, parks, i).1 == Run(polls, parks, 0).1
      invariant Run(polls, parks, i).0 == Run(polls, parks, 0).0
      decreases |polls| - i
    {
      assert FirstReady(polls, i) == FirstReady(polls, 0);
      ghost var before := trace;
      trace := trace + [Polled];
      match polls[i]
      case Ready(v) =>
        r := Completed(v);
        return;
      case Pending =>
        trace := trace + [Parked];
        if parks[i].Err? {
          r := Panicked(ParkFailed(parks[i].error));
          assert trace == before + Run(polls, parks, i).1;
          return;
        }
        i := i + 1;
    }
  }
}
