/** The machine word of the reference counters. */
module Usize {

  const MAX: nat := 0xFFFF_FFFF_FFFF_FFFF

  /** `fetch_add(1)` wraps around. */
  function Increment(n: nat): nat {
    if n == MAX then 0 else n + 1
  }

  /** `fetch_sub(1)` wraps around. */
  function Decrement(n: nat): nat {
    if n == 0 then MAX else n - 1
  }
}
