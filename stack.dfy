/** `push_to_stack`, which both ports define with the same body and only a
    different alignment (8 bytes on Cortex-M, 16 on RISC-V): round the
    object size up to the alignment, move the stack pointer down by that
    much and copy the object's bytes to the new stack pointer. Memory is a
    byte array indexed by address. */
module StackPush {
  /** Addresses and register values are 32 bits wide on both targets. */
  const U32_LIMIT: nat := 0x1_0000_0000

  /** The two stack alignments in use: 8 bytes (Cortex-M) and 16 (RISC-V). */
  predicate StackAlign(align: nat) {
    align == 8 || align == 16
  }

  /** `size` rounded up to a multiple of `align`: an exact multiple is kept;
      anything else gains less than `align` bytes of padding. */
  function RoundUp(size: nat, align: nat): (r: nat)
    requires StackAlign(align)
    ensures r % align == 0
    ensures size <= r < size + align
    ensures size % align == 0 <==> r == size
  {
    // The source's `if size % align == 0 { size } else { size + align - size % align }`,
    // spelled out for each of the two alignments.
    if align == 8 then
      if size % 8 == 0 then size else size + 8 - size % 8
    else
      if size % 16 == 0 then size else size + 16 - size % 16
  }

  /** Rounding is the least multiple of `align` that is not below `size`. */
  lemma RoundUpIsLeast(size: nat, align: nat, m: nat)
    requires StackAlign(align) && m % align == 0 && size <= m
    ensures RoundUp(size, align) <= m
  {
  }

  /** `push_to_stack(sp, obj, obj_size)`: returns `sp` less the rounded
      size, with exactly the bytes of `obj` copied there and every other
      byte of memory unchanged. An aligned `sp` stays aligned. */
  method PushToStack(mem: array<bv8>, sp: nat, obj: seq<bv8>, align: nat) returns (newSp: nat)
    requires StackAlign(align) && RoundUp(|obj|, align) <= sp <= mem.Length
    modifies mem
    ensures newSp == sp - RoundUp(|obj|, align)
    ensures newSp + |obj| <= sp
    ensures mem[newSp..newSp + |obj|] == obj
    ensures forall i :: 0 <= i < mem.Length && !(newSp <= i < newSp + |obj|) ==> mem[i] == old(mem[i])
    ensures sp % align == 0 ==> newSp % align == 0
  {
    var size := |obj|;
    size := if size % align == 0 then size else size + align - size % align;
    newSp := sp - size;
    AlignedDifference(sp, size, align);
    for k := 0 to |obj|
      invariant forall i :: 0 <= i < k ==> mem[newSp + i] == obj[i]
      invariant forall i :: 0 <= i < mem.Length && !(newSp <= i < newSp + k) ==> mem[i] == old(mem[i])
    {
      mem[newSp + k] := obj[k];
    }
  }

  /** The difference of two multiples of `align` is one. */
  lemma AlignedDifference(sp: nat, size: nat, align: nat)
    requires StackAlign(align) && size <= sp && size % align == 0
    ensures sp % align == 0 ==> (sp - size) % align == 0
  {
  }
}
