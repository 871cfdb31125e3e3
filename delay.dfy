/** `Delay`: a delay that sleeps on the tick timer instead of spinning. A
    duration is turned into a whole number of ticks, rounded up, and the
    task waits until the current time plus that many ticks. */
module Delay {
  import opened Errors
  import opened SchedulerState
  import opened Scheduler
  import opened Timer

  const U32_LIMIT: nat := 0x1_0000_0000
  const MILLIS_PER_SECOND: nat := 1_000
  const MICROS_PER_SECOND: nat := 1_000_000
  const NANOS_PER_SECOND: nat := 1_000_000_000

  /** `u64::div_ceil`. */
  function DivCeil(n: nat, d: nat): (q: nat)
    requires d > 0
    ensures q * d >= n && q * d < n + d
  {
    if n % d > 0 then n / d + 1 else n / d
  }

  /** `DivCeil(n, d)` is the least `q` with `q * d >= n`. */
  lemma DivCeilIsLeast(n: nat, d: nat, q: nat)
    requires d > 0 && q * d >= n
    ensures DivCeil(n, d) <= q
  {
    var c := DivCeil(n, d);
    if q < c {
      MulMonotone(q, c - 1, d);
    }
  }

  lemma MulMonotone(a: nat, b: nat, d: nat)
    requires a <= b
    ensures a * d <= b * d
  {
  }

  /** The ticks for `amount` units of `1 / perSecond` second at `tickFreq`
      ticks per second, with the product taken in `u32` as written: it
      wraps modulo 2^32 (the release-build behaviour) before the widening
      to `u64`. */
  function TicksAsWritten(amount: nat, tickFreq: nat, perSecond: nat): nat
    requires perSecond > 0
  {
    DivCeil((amount * tickFreq) % U32_LIMIT, perSecond)
  }

  /** The ticks for a duration with the product taken without overflow:
      the least whole number of ticks that lasts at least the duration. */
  function Ticks(amount: nat, tickFreq: nat, perSecond: nat): (k: nat)
    requires perSecond > 0
    ensures k * perSecond >= amount * tickFreq
    ensures k * perSecond < amount * tickFreq + perSecond
  {
    DivCeil(amount * tickFreq, perSecond)
  }

  /** A longer duration never gives fewer ticks, and no time gives no
      ticks. */
  lemma TicksMonotone(a: nat, b: nat, tickFreq: nat, perSecond: nat)
    requires perSecond > 0 && a <= b
    ensures Ticks(a, tickFreq, perSecond) <= Ticks(b, tickFreq, perSecond)
    ensures Ticks(0, tickFreq, perSecond) == 0
  {
    var kb := Ticks(b, tickFreq, perSecond);
    MulMonotone(a, b, tickFreq);
    DivCeilIsLeast(a * tickFreq, perSecond, kb);
    DivCeilIsLeast(0, perSecond, 0);
  }

  /** While the product fits in 32 bits the source's tick count is the
      intended one. */
  lemma AsWrittenAgreesWithoutOverflow(amount: nat, tickFreq: nat, perSecond: nat)
    requires perSecond > 0 && amount * tickFreq < U32_LIMIT
    ensures TicksAsWritten(amount, tickFreq, perSecond) == Ticks(amount, tickFreq, perSecond)
  {
  }

  /** A 5 ms delay given in nanoseconds at the default 1000 Hz tick rate:
      5_000_000 * 1000 does not fit in 32 bits, the wrapped product asks
      for 1 tick where 5 are needed. */
  lemma DelayNsOverflow()
    ensures TicksAsWritten(5_000_000, 1000, NANOS_PER_SECOND) == 1
    ensures Ticks(5_000_000, 1000, NANOS_PER_SECOND) == 5
  {
    assert (5_000_000 * 1000) % U32_LIMIT == 705_032_704;
  }

  /** The `Delay` value: the tick frequency read once from the scheduler's
      configuration. */
  datatype Delay = Delay(tickFreq: nat)

  /** `Delay::new`: the configured tick frequency, or `NotInitialized`
      before `init` stored a configuration. */
  function NewDelay(config: Option<SchedulerConfig>): (r: Result<Delay>)
    ensures r.Ok? <==> config.Some?
    ensures r.Ok? ==> r.value.tickFreq == config.value.tickFreq
    ensures r.Err? ==> r.error == NotInitialized
  {
    match config
    case None => Err(NotInitialized)
    case Some(c) => Ok(Delay(c.tickFreq))
  }

  /** Why a delay panics: reading the time or registering the wakeup
      failed. */
  datatype DelayOutcome = Slept | PanickedTime(error: Error) | PanickedWait(error: Error)

  /** The time `delay_ticks` waits for: `now + ticks` in `u64`, which wraps
      (the release-build behaviour). */
  function Deadline(now: nat, ticks: nat): (t: nat)
    ensures t < U64_LIMIT
    ensures now + ticks < U64_LIMIT ==> t == now + ticks
  {
    (now + ticks) % U64_LIMIT
  }

  /** How a wait's status ends a delay: a failure panics. */
  function WaitPanics(w: Status): (r: DelayOutcome)
    ensures r == Slept <==> w.Ok?
    ensures w.Err? ==> r == PanickedWait(w.error)
  {
    if w.Ok? then Slept else PanickedWait(w.error)
  }

  /** `delay_ticks(ticks)`: read the time, then `wait_until(now + ticks)`;
      a failure of either panics. When `interrupted`, the tick interrupt
      runs inside `wait_until`, between its two critical sections, and
      releases `fired`. */
  method DelayTicks(tm: Timer, s: Scheduler, ticks: nat, interrupted: bool)
    returns (r: DelayOutcome, fired: Option<Registration>)
    requires tm.Valid() && s.Valid()
    requires interrupted && tm.initialized ==> tm.time + 1 < U64_LIMIT
    modifies tm, s
    ensures tm.Valid() && s.Valid() && tm.initialized == old(tm.initialized)
    ensures s.initialized == old(s.initialized) && s.config == old(s.config)
    ensures !tm.initialized ==> r == PanickedTime(NotInitialized) && unchanged(tm) && unchanged(s)
    ensures tm.initialized && !s.initialized ==> r == PanickedWait(NotInitialized) && unchanged(tm) && unchanged(s)
    ensures tm.initialized && s.initialized && !interrupted ==>
      var o := AtomicWait(old(tm.State()), old(s.State()),
                          Registration(Deadline(old(tm.time), ticks), old(s.currentTask)));
      tm.State() == o.timer && s.State() == o.sched && r == WaitPanics(o.result)
    ensures tm.initialized && s.initialized && interrupted ==>
      var reg := Registration(Deadline(old(tm.time), ticks), old(s.currentTask));
      && Fires(Register(old(tm.State()), reg).timer, fired)
      && var o := SplitWait(old(tm.State()), old(s.State()), reg, fired);
      && tm.State() == o.timer && s.State() == o.sched && r == WaitPanics(o.result)
  {
    fired := None;
    var now := tm.CurrentTime();
    if now.Err? {
      return PanickedTime(now.error), None;
    }
    var deadline := (now.value + ticks) % U64_LIMIT;
    assert deadline == Deadline(old(tm.time), ticks);
    var w;
    w, fired := tm.WaitUntil(s, deadline, interrupted);
    r := WaitPanics(w);
  }

  /** `delay_ns`, `delay_us` and `delay_ms` as written: sleep for
      `TicksAsWritten` of the duration, the product taken in `u32`,
      `perSecond` being 10^9, 10^6 or 10^3. */
  method DelayFor(d: Delay, tm: Timer, s: Scheduler, amount: nat, perSecond: nat, interrupted: bool)
    returns (r: DelayOutcome, fired: Option<Registration>)
    requires perSecond == NANOS_PER_SECOND || perSecond == MICROS_PER_SECOND || perSecond == MILLIS_PER_SECOND
    requires tm.Valid() && s.Valid()
    requires interrupted && tm.initialized ==> tm.time + 1 < U64_LIMIT
    modifies tm, s
    ensures tm.Valid() && s.Valid() && tm.initialized == old(tm.initialized)
    ensures s.initialized == old(s.initialized) && s.config == old(s.config)
    ensures !tm.initialized ==> r == PanickedTime(NotInitialized) && unchanged(tm) && unchanged(s)
    ensures tm.initialized && s.initialized && !interrupted ==>
      var reg := Registration(Deadline(old(tm.time), TicksAsWritten(amount, d.tickFreq, perSecond)), old(s.currentTask));
      var o := AtomicWait(old(tm.State()), old(s.State()), reg);
      tm.State() == o.timer && s.State() == o.sched && r == WaitPanics(o.result)
    ensures tm.initialized && s.initialized && interrupted ==>
      var reg := Registration(Deadline(old(tm.time), TicksAsWritten(amount, d.tickFreq, perSecond)), old(s.currentTask));
      && Fires(Register(old(tm.State()), reg).timer, fired)
      && var o := SplitWait(old(tm.State()), old(s.State()), reg, fired);
      && tm.State() == o.timer && s.State() == o.sched && r == WaitPanics(o.result)
  {
    r, fired := DelayTicks(tm, s, DivCeil((amount * d.tickFreq) % U32_LIMIT, perSecond), interrupted);
  }
}
