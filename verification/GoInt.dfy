/** Go's 64-bit signed integers. */
module GoInt {
  const MAX_INT64: int := 0x7FFF_FFFF_FFFF_FFFF
  const MIN_INT64: int := -0x8000_0000_0000_0000

  /** Arithmetic wraps around. */
  function Int64(x: int): (r: int)
    ensures MIN_INT64 <= r <= MAX_INT64
    ensures MIN_INT64 <= x <= MAX_INT64 ==> r == x
  {
    (x + 0x8000_0000_0000_0000) % 0x1_0000_0000_0000_0000 - 0x8000_0000_0000_0000
  }

  /** The representative modulo 2 to the 64 that fits 64 bits. */
  lemma Int64Wraps(x: int)
    ensures -0x8000_0000_0000_0000 <= Int64(x) < 0x8000_0000_0000_0000
    ensures (x - Int64(x)) % 0x1_0000_0000_0000_0000 == 0
  {
  }
}
