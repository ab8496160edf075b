/** The integer widths that the C program and the SQL columns rely on. */
module Machine {

  const INT32_MIN: int := -0x8000_0000
  const INT32_MAX: int := 0x7FFF_FFFF
  const INT64_MIN: int := -0x8000_0000_0000_0000
  const INT64_MAX: int := 0x7FFF_FFFF_FFFF_FFFF
  const TWO_TO_32: int := 0x1_0000_0000
  const TWO_TO_64: int := 0x1_0000_0000_0000_0000

  predicate IsInt32(n: int) {
    INT32_MIN <= n <= INT32_MAX
  }

  predicate IsInt64(n: int) {
    INT64_MIN <= n <= INT64_MAX
  }

  type Int64 = n: int | IsInt64(n)

  /** The int64_t that holds n modulo 2^64 (two's complement). */
  function Wrap64(n: int): (r: int)
    ensures IsInt64(r)
    ensures IsInt64(n) <==> r == n
    ensures INT64_MIN - TWO_TO_64 <= n < INT64_MIN ==> r == n + TWO_TO_64
    ensures INT64_MAX < n <= INT64_MAX + TWO_TO_64 ==> r == n - TWO_TO_64
    ensures (n - r) % TWO_TO_64 == 0
  {
    (n - INT64_MIN) % TWO_TO_64 + INT64_MIN
  }

  /** What a callee reads when an int64_t is passed where it takes an int. */
  function Wrap32(n: int): (r: int)
    ensures IsInt32(r)
    ensures IsInt32(n) <==> r == n
    ensures (n - r) % TWO_TO_32 == 0
  {
    (n - INT32_MIN) % TWO_TO_32 + INT32_MIN
  }
}
