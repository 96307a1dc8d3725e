/** Rounding sizes up for frames and calls, and the 32-bit ints that hold them. */
module Rounding {
  const INT_MAX := 0x7FFF_FFFF

  /** What a 32-bit int keeps of a number. */
  function AsInt(n: int): (i: int)
    ensures -INT_MAX - 1 <= i <= INT_MAX && (-INT_MAX - 1 <= n <= INT_MAX ==> i == n)
  {
    (n + 0x8000_0000) % 0x1_0000_0000 - 0x8000_0000
  }

  function RoundUp8(n: nat): (r: nat)
    ensures n <= r < n + 8 && r % 8 == 0
  {
    (n + 7) / 8 * 8
  }

  function RoundUp16(n: nat): (r: nat)
    ensures n <= r < n + 16 && r % 16 == 0
  {
    (n + 15) / 16 * 16
  }
}
