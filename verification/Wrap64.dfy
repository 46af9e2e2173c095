/** 64-bit counters that wrap and are compared through the sign of their difference. */
module Wrap64 {
  const TWO64: int := 0x1_0000_0000_0000_0000
  const HALF: int := 0x8000_0000_0000_0000

  type U64 = x: int | 0 <= x < TWO64

  /** The value of a 64-bit difference read as a signed number. */
  function Signed(x: int): (r: int)
    ensures -HALF <= r < HALF && (r - x) % TWO64 == 0
  {
    var m := x % TWO64;
    if m < HALF then m else m - TWO64
  }

  function Diff(a: U64, b: U64): int { Signed(a - b) }
}
