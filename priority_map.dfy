/** The scheduler's `priority_map: u32`, modelled as its 32 bits: element `n`
    of the sequence is bit `n` of the word (`priority_map & (1 << n) != 0`). */
module PriorityMap {

  /** Width of the map word. */
  const WIDTH: nat := 32

  /** A well-formed map word. */
  predicate Wf(m: seq<bool>) { |m| == WIDTH }

  /** The word `0b1`: only bit 0 set. */
  function LowBit(): (m: seq<bool>)
    ensures Wf(m)
    ensures m[0] && forall k :: 0 < k < WIDTH ==> !m[k]
  {
    [true] + seq(WIDTH - 1, _ => false)
  }

  /** `m | (1 << n)`: bit `n` set, every other bit as it was. */
  function SetBit(m: seq<bool>, n: nat): (r: seq<bool>)
    requires Wf(m) && n < WIDTH
    ensures Wf(r) && r[n]
    ensures forall k :: 0 <= k < WIDTH && k != n ==> r[k] == m[k]
  {
    m[n := true]
  }

  /** `m & !(1 << n)`: bit `n` cleared, every other bit as it was. */
  function ClearBit(m: seq<bool>, n: nat): (r: seq<bool>)
    requires Wf(m) && n < WIDTH
    ensures Wf(r) && !r[n]
    ensures forall k :: 0 <= k < WIDTH && k != n ==> r[k] == m[k]
  {
    m[n := false]
  }

  /** Number of clear bits above the highest set bit among bits `0 .. w-1`. */
  function LzFrom(m: seq<bool>, w: nat): (n: nat)
    requires w <= |m|
    ensures n <= w
    ensures forall k :: w - n <= k < w ==> !m[k]
    ensures n < w ==> m[w - 1 - n]
  {
    if w == 0 then 0 else if m[w - 1] then 0 else 1 + LzFrom(m, w - 1)
  }

  /** `m.leading_zeros()`: 32 for the zero word, otherwise `31 - h` where
      `h` is the highest set bit. */
  function LeadingZeros(m: seq<bool>): (n: nat)
    requires Wf(m)
    ensures n <= WIDTH
    ensures n == WIDTH <==> forall k :: 0 <= k < WIDTH ==> !m[k]
    ensures n < WIDTH ==> m[WIDTH - 1 - n] && forall k :: WIDTH - 1 - n < k < WIDTH ==> !m[k]
  {
    LzFrom(m, WIDTH)
  }
}
