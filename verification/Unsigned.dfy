/** The wrap-around arithmetic of uint32_t. */
module Unsigned {
  const TWO32: int := 0x1_0000_0000

  type uint32 = x: int | 0 <= x < TWO32

  function Add(a: uint32, b: uint32): (sum: uint32)
    ensures a + b < TWO32 ==> sum == a + b
  {
    (a + b) % TWO32
  }

  function Sub(a: uint32, b: uint32): (difference: uint32)
    ensures b <= a ==> difference == a - b
  {
    (a - b) % TWO32
  }
}
