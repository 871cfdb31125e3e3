/** The ESP32 RISC-V port: its 16-byte `push_to_stack`, the idle task's
    stack handed out once, and the tick period it programs into the
    periodic system timer. */
module EspRiscv {
  import opened Errors
  import opened StackPush

  /** RISC-V stacks are 16-byte aligned. */
  const ALIGN: nat := 16
  const IDLE_TASK_STACK_SIZE: nat := 2048
  const MICROS_PER_SECOND: nat := 1_000_000

  /** `push_to_stack` with 16-byte rounding: less than 16 bytes of padding,
      the object copied to the returned stack pointer, nothing else
      written. */
  method PushToStack(mem: array<bv8>, sp: nat, obj: seq<bv8>) returns (newSp: nat)
    requires RoundUp(|obj|, ALIGN) <= sp <= mem.Length
    modifies mem
    ensures newSp <= sp - |obj| && sp - newSp < |obj| + ALIGN
    ensures (sp - newSp) % ALIGN == 0
    ensures mem[newSp..newSp + |obj|] == obj
    ensures forall i :: 0 <= i < mem.Length && !(newSp <= i < newSp + |obj|) ==> mem[i] == old(mem[i])
    ensures sp % ALIGN == 0 ==> newSp % ALIGN == 0
  {
    newSp := StackPush.PushToStack(mem, sp, obj, ALIGN);
  }

  /** A run of stack memory: its lowest address and its length. */
  datatype StackRegion = StackRegion(start: nat, len: nat)

  /** `IDLE_TASK_STACK`, a cell that gives out the idle task's stack once. */
  class IdleStackCell {
    const start: nat
    var taken: bool

    constructor (start: nat)
      ensures this.start == start && !taken
    {
      this.start := start;
      taken := false;
    }

    /** `_taskette_get_idle_task_stack`: the 2048-byte stack on the first
        call, `None` on every later one. */
    method TryTake() returns (r: Option<StackRegion>)
      modifies this
      ensures taken
      ensures r.Some? <==> !old(taken)
      ensures r.Some? ==> r.value == StackRegion(start, IDLE_TASK_STACK_SIZE)
    {
      if taken {
        return None;
      }
      taken := true;
      r := Some(StackRegion(start, IDLE_TASK_STACK_SIZE));
    }
  }

  /** The period `_taskette_start_timer` programs, in microseconds: the
      integer quotient of a second by the tick frequency, i.e. the longest
      whole-microsecond period of which `tickFreq` fit in one second. */
  function PeriodMicros(tickFreq: nat): (p: nat)
    requires tickFreq > 0
    ensures p * tickFreq <= MICROS_PER_SECOND < (p + 1) * tickFreq
  {
    MICROS_PER_SECOND / tickFreq
  }

  /** Why `_taskette_start_timer` panics. */
  datatype StartPanic = TimerNotSetUp | DivideByZero | StartRejected

  datatype StartOutcome = Started(periodMicros: nat) | Panicked(reason: StartPanic)

  /** `TICK_FREQ` and the periodic timer (`TIMER`). */
  class TickTimer {
    var tickFreq: Option<nat>
    var configured: bool
    /** The period the timer runs with, once started. */
    var running: Option<nat>

    constructor ()
      ensures tickFreq.None? && !configured && running.None?
    {
      tickFreq := None;
      configured := false;
      running := None;
    }

    /** The bookkeeping of `_taskette_setup`: store the tick frequency and
        the timer. */
    method Setup(freq: nat)
      modifies this
      ensures tickFreq == Some(freq) && configured && running == old(running)
    {
      tickFreq := Some(freq);
      configured := true;
    }

    /** `_taskette_start_timer`: panics unless `Setup` ran first, panics on
        a zero tick frequency (the division), and otherwise starts the
        timer with `PeriodMicros`. Whether the hardware accepts the period
        is `accepted`; a refusal panics too. */
    method StartTimer(accepted: bool) returns (r: StartOutcome)
      modifies this`running
      ensures tickFreq.None? || !configured ==> r == Panicked(TimerNotSetUp) && running == old(running)
      ensures tickFreq == Some(0) && configured ==> r == Panicked(DivideByZero) && running == old(running)
      ensures tickFreq.Some? && tickFreq.value > 0 && configured ==>
        if accepted then r == Started(PeriodMicros(tickFreq.value)) && running == Some(r.periodMicros)
        else r == Panicked(StartRejected) && running == old(running)
    {
      if tickFreq.None? || !configured {
        return Panicked(TimerNotSetUp);
      }
      if tickFreq.value == 0 {
        return Panicked(DivideByZero);
      }
      var period := MICROS_PER_SECOND / tickFreq.value;
      if !accepted {
        return Panicked(StartRejected);
      }
      running := Some(period);
      r := Started(period);
    }
  }
}
