/** Go's 64-bit signed integers. */
module GoInts {
  const MIN_INT64: int := -0x8000_0000_0000_0000
  const MAX_INT64: int := 0x7fff_ffff_ffff_ffff

  predicate IsInt64(n: int) {
    MIN_INT64 <= n <= MAX_INT64
  }

  // The 64-bit result of an addition, subtraction or multiplication whose exact result is n.
  function Wrap64(n: int): (r: int)
    ensures IsInt64(r)
    ensures IsInt64(n) <==> r == n
  {
    (n - MIN_INT64) % 0x1_0000_0000_0000_0000 + MIN_INT64
  }
}
