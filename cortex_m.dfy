/** The Cortex-M port's initial stack frame. A new task's stack holds, from
    the top down: its closure argument, the frame the hardware pops on
    exception return (r0-r3, r12, lr, pc, xpsr) and the frame PendSV pops
    itself (r4-r11). Words are stored little-endian, fields in declaration
    order. */
module CortexM {
  import opened StackPush

  /** Cortex-M stacks are 8-byte aligned. */
  const ALIGN: nat := 8
  /** Bit 24 of xPSR: Thumb state. */
  const THUMB_STATE: bv32 := 1 << 24
  /** Each saved-register frame is eight 32-bit words. */
  const FRAME_WORDS: nat := 8
  const FRAME_BYTES: nat := 32

  /** `HardwareSavedRegisters`. */
  datatype HardwareFrame = HardwareFrame(r0: bv32, r1: bv32, r2: bv32, r3: bv32, r12: bv32, lr: bv32, pc: bv32, xpsr: bv32)

  /** `SoftwareSavedRegisters`. */
  datatype SoftwareFrame = SoftwareFrame(r4: bv32, r5: bv32, r6: bv32, r7: bv32, r8: bv32, r9: bv32, r10: bv32, r11: bv32)

  /** `HardwareSavedRegisters::from_pc_and_r0`: execution resumes at `pc`
      in Thumb state with `r0` as the first argument; every other register
      is zero. */
  function FromPcAndR0(pc: bv32, r0: bv32): (h: HardwareFrame)
    ensures h.pc == pc && h.r0 == r0 && h.xpsr == THUMB_STATE
    ensures h.r1 == 0 && h.r2 == 0 && h.r3 == 0 && h.r12 == 0 && h.lr == 0
  {
    HardwareFrame(r0, 0, 0, 0, 0, 0, pc, THUMB_STATE)
  }

  /** `SoftwareSavedRegisters::new`: r4-r11 all zero. */
  function NewSoftwareFrame(): (s: SoftwareFrame)
    ensures forall i :: 0 <= i < FRAME_WORDS ==> SoftwareWords(s)[i] == 0
  {
    SoftwareFrame(0, 0, 0, 0, 0, 0, 0, 0)
  }

  function HardwareWords(h: HardwareFrame): (ws: seq<bv32>)
    ensures |ws| == FRAME_WORDS
  {
    [h.r0, h.r1, h.r2, h.r3, h.r12, h.lr, h.pc, h.xpsr]
  }

  function SoftwareWords(s: SoftwareFrame): (ws: seq<bv32>)
    ensures |ws| == FRAME_WORDS
  {
    [s.r4, s.r5, s.r6, s.r7, s.r8, s.r9, s.r10, s.r11]
  }

  function HardwareFrameOf(ws: seq<bv32>): HardwareFrame
    requires |ws| == FRAME_WORDS
  {
    HardwareFrame(ws[0], ws[1], ws[2], ws[3], ws[4], ws[5], ws[6], ws[7])
  }

  function SoftwareFrameOf(ws: seq<bv32>): SoftwareFrame
    requires |ws| == FRAME_WORDS
  {
    SoftwareFrame(ws[0], ws[1], ws[2], ws[3], ws[4], ws[5], ws[6], ws[7])
  }

  /** One word in little-endian byte order. */
  function WordBytes(w: bv32): (b: seq<bv8>)
    ensures |b| == 4
  {
    [(w & 0xFF) as bv8, ((w >> 8) & 0xFF) as bv8, ((w >> 16) & 0xFF) as bv8, ((w >> 24) & 0xFF) as bv8]
  }

  /** A load of the little-endian word at `at`. */
  function LoadWord(mem: seq<bv8>, at: nat): bv32
    requires at + 4 <= |mem|
  {
    (mem[at] as bv32) | ((mem[at + 1] as bv32) << 8) | ((mem[at + 2] as bv32) << 16) | ((mem[at + 3] as bv32) << 24)
  }

  /** Loading a stored word gives the word back. */
  lemma LoadStoredWord(w: bv32)
    ensures LoadWord(WordBytes(w), 0) == w
  {
  }

  /** A sequence of words laid out one after the other. */
  function WordsBytes(ws: seq<bv32>): (b: seq<bv8>)
    ensures |b| == 4 * |ws|
  {
    seq(4 * |ws|, j requires 0 <= j < 4 * |ws| => WordBytes(ws[j / 4])[j % 4])
  }

  /** `n` consecutive word loads from `at` (what `ldmia` does). */
  function LoadWords(mem: seq<bv8>, at: nat, n: nat): (ws: seq<bv32>)
    requires at + 4 * n <= |mem|
    ensures |ws| == n
  {
    seq(n, i requires 0 <= i < n => LoadWord(mem, at + 4 * i))
  }

  /** The word stored at position `i` of a laid-out sequence loads back. */
  lemma LoadStoredWordAt(mem: seq<bv8>, at: nat, ws: seq<bv32>, i: nat)
    requires at + 4 * |ws| <= |mem| && mem[at..at + 4 * |ws|] == WordsBytes(ws) && i < |ws|
    ensures LoadWord(mem, at + 4 * i) == ws[i]
  {
    var b := WordBytes(ws[i]);
    forall k | 0 <= k < 4
      ensures mem[at + 4 * i + k] == b[k]
    {
      assert mem[at + 4 * i + k] == WordsBytes(ws)[4 * i + k];
      assert (4 * i + k) / 4 == i && (4 * i + k) % 4 == k;
    }
    LoadStoredWord(ws[i]);
    assert LoadWord(mem, at + 4 * i) == LoadWord(b, 0);
  }

  /** Storing words and loading them back gives the words: the round trip
      that makes a pushed frame readable by PendSV and the hardware. */
  lemma LoadStoredWords(mem: seq<bv8>, at: nat, ws: seq<bv32>)
    requires at + 4 * |ws| <= |mem| && mem[at..at + 4 * |ws|] == WordsBytes(ws)
    ensures LoadWords(mem, at, |ws|) == ws
  {
    forall i | 0 <= i < |ws|
      ensures LoadWords(mem, at, |ws|)[i] == ws[i]
    {
      LoadStoredWordAt(mem, at, ws, i);
    }
  }

  /** What a context switch into a task reads from its stack at `sp`:
      PendSV's `ldmia r0!, {r4-r11}` takes the software frame at `sp`, and
      the exception return then takes the hardware frame right above it. */
  function PendSvRestore(mem: seq<bv8>, sp: nat): (SoftwareFrame, HardwareFrame)
    requires sp + 2 * FRAME_BYTES <= |mem|
  {
    (SoftwareFrameOf(LoadWords(mem, sp, FRAME_WORDS)), HardwareFrameOf(LoadWords(mem, sp + FRAME_BYTES, FRAME_WORDS)))
  }

  /** `_taskette_init_stack(sp, pc, arg, arg_size)`: push the closure
      argument, then a hardware frame that enters `pc` with r0 pointing at
      the copied argument, then an all-zero software frame. The result is
      `sp` less the rounded argument size and the two frames, and the first
      switch into the task restores exactly those two frames. Memory below
      the result and above `sp` is untouched. */
  method InitStack(mem: array<bv8>, sp: nat, pc: bv32, arg: seq<bv8>) returns (newSp: nat)
    requires RoundUp(|arg|, ALIGN) + 2 * FRAME_BYTES <= sp <= mem.Length < U32_LIMIT
    modifies mem
    ensures newSp == sp - RoundUp(|arg|, ALIGN) - 2 * FRAME_BYTES
    ensures var argAt := sp - RoundUp(|arg|, ALIGN);
      && mem[argAt..argAt + |arg|] == arg
      && PendSvRestore(mem[..], newSp) == (NewSoftwareFrame(), FromPcAndR0(pc, argAt as bv32))
    ensures forall i :: 0 <= i < mem.Length && !(newSp <= i < sp) ==> mem[i] == old(mem[i])
    ensures sp % ALIGN == 0 ==> newSp % ALIGN == 0
  {
    var sp1 := PushToStack(mem, sp, arg, ALIGN);
    newSp := PushFrames(mem, sp1, FromPcAndR0(pc, sp1 as bv32), NewSoftwareFrame());
  }

  /** The two register frames of `_taskette_init_stack`: the hardware
      frame pushed first, the software frame below it, which is where PendSV
      finds them. */
  method PushFrames(mem: array<bv8>, sp: nat, hw: HardwareFrame, sw: SoftwareFrame) returns (newSp: nat)
    requires 2 * FRAME_BYTES <= sp <= mem.Length
    modifies mem
    ensures newSp == sp - 2 * FRAME_BYTES
    ensures PendSvRestore(mem[..], newSp) == (sw, hw)
    ensures forall i :: 0 <= i < mem.Length && !(newSp <= i < sp) ==> mem[i] == old(mem[i])
    ensures sp % ALIGN == 0 ==> newSp % ALIGN == 0
  {
    var hwBytes := WordsBytes(HardwareWords(hw));
    var sp2 := PushToStack(mem, sp, hwBytes, ALIGN);
    var swBytes := WordsBytes(SoftwareWords(sw));
    newSp := PushToStack(mem, sp2, swBytes, ALIGN);
    assert sp2 == newSp + FRAME_BYTES;
    assert mem[sp2..sp2 + FRAME_BYTES] == hwBytes by {
      assert forall i :: sp2 <= i < sp2 + FRAME_BYTES ==> mem[i] == hwBytes[i - sp2];
    }
    RestoreFrames(mem[..], newSp, sw, hw);
  }

  /** Frames laid out one above the other are what PendSV restores. */
  lemma RestoreFrames(m: seq<bv8>, sp: nat, sw: SoftwareFrame, hw: HardwareFrame)
    requires sp + 2 * FRAME_BYTES <= |m|
    requires m[sp..sp + FRAME_BYTES] == WordsBytes(SoftwareWords(sw))
    requires m[sp + FRAME_BYTES..sp + 2 * FRAME_BYTES] == WordsBytes(HardwareWords(hw))
    ensures PendSvRestore(m, sp) == (sw, hw)
  {
    LoadStoredWords(m, sp, SoftwareWords(sw));
    LoadStoredWords(m, sp + FRAME_BYTES, HardwareWords(hw));
  }
}
