/** Unsigned 32-bit arithmetic written out over int. */
module Uint32 {
  const LIMIT := 0x1_0000_0000
  const MAX := 0xFFFF_FFFF

  // The value kept by a uint32_t.
  function U32(x: int): (r: nat)
    ensures r < LIMIT
    ensures 0 <= x < LIMIT ==> r == x
  {
    x % LIMIT
  }
}
