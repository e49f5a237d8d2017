/** Small shared vocabulary: an optional value, Go's 64-bit `int`, and min/max. */
module Base {

  datatype Option<+T> = None | Some(value: T)

  /** Bounds of Go's `int` on a 64-bit platform. */
  const MIN_INT64: int := -0x8000_0000_0000_0000
  const MAX_INT64: int := 0x7FFF_FFFF_FFFF_FFFF

  predicate IsInt64(x: int)
  {
    MIN_INT64 <= x <= MAX_INT64
  }

  type Int64 = x: int | MIN_INT64 <= x <= MAX_INT64

  function Min(a: int, b: int): (m: int)
    ensures m <= a && m <= b && (m == a || m == b)
  {
    if a <= b then a else b
  }

  function Max(a: int, b: int): (m: int)
    ensures m >= a && m >= b && (m == a || m == b)
  {
    if a <= b then b else a
  }

  /**
   * Go's `x++` on a 64-bit `int`: the one value of the range congruent to
   * `x + 1` modulo 2^64, which is `x + 1` itself whenever that fits.
   */
  function Inc64(x: Int64): (r: Int64)
    ensures (r - x - 1) % 0x1_0000_0000_0000_0000 == 0
    ensures x < MAX_INT64 ==> r == x + 1
  {
    if x == MAX_INT64 then MIN_INT64 else x + 1
  }
}
