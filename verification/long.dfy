/** Java's 64-bit signed `long`: its range and the wrapping subtraction that
    `finishtime - starttime` performs on it. */
module JavaLong {

  const TWO_63: int := 0x8000_0000_0000_0000
  const TWO_64: int := 0x1_0000_0000_0000_0000

  /** Whether `x` is a value a Java `long` can hold. */
  predicate InRange(x: int) {
    -TWO_63 <= x < TWO_63
  }

  /** The values a Java `long` can hold. */
  type Long = x: int | InRange(x)

  /** Two's-complement truncation of a mathematical integer to 64 bits:
      the unique `long` congruent to `x` modulo 2^64. */
  function Wrap(x: int): (r: Long)
    ensures InRange(x) ==> r == x
    ensures (x - r) % TWO_64 == 0
  {
    (x + TWO_63) % TWO_64 - TWO_63
  }

  /** Java's `a - b` on two `long`s. */
  function Sub(a: Long, b: Long): (r: Long)
    ensures InRange(a - b) ==> b + r == a
    ensures !InRange(a - b) ==> (a < b <==> r > 0)
    ensures !InRange(a - b) ==> (a > b <==> r < 0)
    ensures 0 <= a && 0 <= b ==> b + r == a
    ensures (a - b - r) % TWO_64 == 0
  {
    assert InRange(a) && InRange(b);
    Wrap(a - b)
  }
}
