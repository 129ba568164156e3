/**
 * The fixed-width integers and the simulator time the estimator works with.
 * Dafny integers are unbounded, so every C++ width is a subset type here and
 * every place where the C++ code would wrap or truncate does so explicitly.
 */
module Units {

  const TWO_32: int := 0x1_0000_0000
  const TWO_64: int := 0x1_0000_0000_0000_0000

  /** C++ `uint32_t`. */
  type u32 = x: int | 0 <= x < 0x1_0000_0000

  /** C++ `uint64_t`. */
  type u64 = x: int | 0 <= x < 0x1_0000_0000_0000_0000

  /** ns-3 `Time`: a signed integer number of simulator ticks; `Seconds (0)` is 0. */
  type Time = int

  /**
   * Storing an unsigned value into a `uint32_t`: the low 32 bits. Applied to a
   * (possibly negative) difference it is unsigned subtraction followed by the cast.
   */
  function Trunc32(x: int): (r: u32)
    ensures 0 <= x < TWO_32 ==> r == x
    ensures (x - r) % TWO_32 == 0
  {
    x % TWO_32
  }

  /** `uint64_t` addition, which wraps around modulo 2^64. */
  function Add64(a: u64, b: u64): (r: u64)
    ensures a + b < TWO_64 ==> r == a + b
    ensures a + b >= TWO_64 ==> r == a + b - TWO_64
  {
    (a + b) % TWO_64
  }
}
