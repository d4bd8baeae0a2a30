/** Machine registers by number, as far as cc.c uses them for values. */
module Registers {
  const RAX: int := 0
  const RCX: int := 1
  const RDX: int := 2
  const RSI: int := 6
  const RDI: int := 7

  /** rbx, rbp, r12 .. r15: the registers allocate hands out in this order, which calls preserve. */
  const ALLOCATABLE: seq<int> := [3, 5, 12, 13, 14, 15]

  predicate Saved(r: int) { r == 3 || r == 5 || 12 <= r <= 15 }
}
