/** time.Duration and time.Time arithmetic: 64-bit nanoseconds, saturating subtraction, wrapping negation. */
module GoTime {
  const MAX_INT64: int := 0x7fff_ffff_ffff_ffff
  const MIN_INT64: int := -0x8000_0000_0000_0000

  const SECOND: int := 1_000_000_000
  const MINUTE: int := 60 * SECOND
  const DAY: int := 24 * 60 * MINUTE

  predicate IsInt64(n: int) { MIN_INT64 <= n <= MAX_INT64 }

  /** Two's-complement truncation to 64 bits. */
  function Wrap64(n: int): (r: int)
    ensures IsInt64(r)
    ensures (r - n) % 0x1_0000_0000_0000_0000 == 0
    ensures IsInt64(n) ==> r == n
  {
    var m := n % 0x1_0000_0000_0000_0000;
    if m > MAX_INT64 then m - 0x1_0000_0000_0000_0000 else m
  }

  /** Time.Sub: the difference clamped to the representable durations. */
  function Sub(t: int, u: int): (d: int)
    ensures IsInt64(d)
  {
    var d := t - u;
    if d < MIN_INT64 then MIN_INT64 else if d > MAX_INT64 then MAX_INT64 else d
  }

  /** The unary minus of a duration: the most negative one is its own negation. */
  function Negate(d: int): (r: int)
    requires IsInt64(d)
    ensures IsInt64(r)
  {
    Wrap64(-d)
  }
}
