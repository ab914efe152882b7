/**
  Java's 64-bit `long` arithmetic, written out over Dafny's unbounded `int`:
  wrap-around on overflow, division that truncates toward zero, and the
  saturating millisecond-to-nanosecond conversion of `TimeUnit`.
 */
module JavaLong {

  const Min: int := -0x8000_0000_0000_0000
  const Max: int := 0x7FFF_FFFF_FFFF_FFFF
  const Modulus: int := 0x1_0000_0000_0000_0000

  /** Nanoseconds per millisecond. */
  const NanosPerMilli: int := 1_000_000

  predicate IsLong(x: int) {
    Min <= x <= Max
  }

  /** The two's-complement value a Java `long` holds after computing `x`. */
  function Wrap(x: int): (r: int)
    ensures IsLong(r)
    ensures (r - x) % Modulus == 0
    ensures IsLong(x) ==> r == x
  {
    (x - Min) % Modulus + Min
  }

  /** `a - b` on longs. */
  function Sub(a: int, b: int): (r: int)
    ensures IsLong(r)
    ensures IsLong(a - b) ==> r == a - b
  {
    Wrap(a - b)
  }

  /** `a * b` on longs. */
  function Mul(a: int, b: int): (r: int)
    ensures IsLong(r)
    ensures IsLong(a * b) ==> r == a * b
  {
    Wrap(a * b)
  }

  /** Java's `/` on a positive divisor: the quotient truncated toward zero. */
  function Quot(a: int, b: int): (q: int)
    requires b > 0
    ensures a >= 0 ==> q * b <= a < (q + 1) * b
    ensures a < 0 ==> (q - 1) * b < a <= q * b
  {
    if a >= 0 then a / b else -((-a) / b)
  }

  /** `TimeUnit.MILLISECONDS.toNanos(d)`: multiplies by one million and
      saturates at the long range instead of overflowing. */
  function MillisToNanos(d: int): (r: int)
    requires IsLong(d)
    ensures IsLong(r)
    ensures IsLong(d * NanosPerMilli) ==> r == d * NanosPerMilli
    ensures !IsLong(d * NanosPerMilli) ==> r == (if d > 0 then Max else Min)
  {
    if d > Max / NanosPerMilli then Max
    else if d < -(Max / NanosPerMilli) then Min
    else d * NanosPerMilli
  }
}
