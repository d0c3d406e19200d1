/**
 * The fixed-width integers of the TM4C123 firmware and the wrap-around of
 * its unsigned arithmetic, written out over Dafny's unbounded integers.
 */
module MachineInts {

  const TwoTo32: int := 0x1_0000_0000
  const TwoTo31: int := 0x8000_0000

  type uint8 = x: int | 0 <= x < 0x100
  type uint32 = x: int | 0 <= x < 0x1_0000_0000

  /** `a - b` on uint32_t: the difference reduced modulo 2^32. */
  function SubU32(a: uint32, b: uint32): (r: uint32)
    ensures a >= b ==> r == a - b
    ensures a < b ==> r == a - b + TwoTo32
  {
    (a - b) % TwoTo32
  }

  /** `x++` on uint32_t: the successor, wrapping from 2^32 - 1 to 0. */
  function IncU32(x: uint32): (r: uint32)
    ensures x < TwoTo32 - 1 ==> r == x + 1
    ensures x == TwoTo32 - 1 ==> r == 0
  {
    (x + 1) % TwoTo32
  }

  /**
   * A uint32_t stored into an `int` (int32_t): the two's-complement
   * reading of the same 32 bits, as the ARM compiler performs it.
   */
  function ToInt32(x: uint32): (r: int)
    ensures -TwoTo31 <= r < TwoTo31
    ensures (r - x) % TwoTo32 == 0
  {
    if x < TwoTo31 then x else x - TwoTo32
  }

  /**
   * An int32_t result of arithmetic that may leave the 32-bit range, taken
   * as the two's-complement wrap-around the ARM compiler produces.
   */
  function WrapInt32(x: int): (r: int)
    ensures -TwoTo31 <= r < TwoTo31
    ensures (r - x) % TwoTo32 == 0
    ensures -TwoTo31 <= x < TwoTo31 ==> r == x
  {
    ToInt32(x % TwoTo32)
  }
}
