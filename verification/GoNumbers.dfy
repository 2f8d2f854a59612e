/** Go's 64-bit integers where their width matters. */
module GoNumbers {
  const MAX_INT64: int := 0x7fff_ffff_ffff_ffff
  const MIN_INT64: int := -0x8000_0000_0000_0000

  type Int64 = n: int | MIN_INT64 <= n <= MAX_INT64

  // time.Time.Sub saturates.
  function Saturate(d: int): Int64 {
    if d > MAX_INT64 then MAX_INT64 else if d < MIN_INT64 then MIN_INT64 else d
  }

  // Multiplication wraps around.
  function Wrap64(n: int): Int64 {
    (n + 0x8000_0000_0000_0000) % 0x1_0000_0000_0000_0000 - 0x8000_0000_0000_0000
  }
}
