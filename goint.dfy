/** Go's 64-bit integers and `time.Duration` units.
    A Go `time.Duration` is an int64 count of nanoseconds; this model keeps
    durations as `int` nanoseconds and writes Go's wrap-around and
    truncating division out explicitly where the code relies on them. */
module GoInt {

  const MinInt64: int := -0x8000_0000_0000_0000
  const MaxInt64: int := 0x7FFF_FFFF_FFFF_FFFF
  const TwoTo64: int := 0x1_0000_0000_0000_0000

  predicate InInt64(x: int) {
    MinInt64 <= x <= MaxInt64
  }

  /** Go's int64, and so also `time.Duration` in nanoseconds. */
  type Int64 = x: int | InInt64(x)

  /** The int64 value Go computes for the exact integer `x`: two's-complement
      wrap-around. Wrapping each product and sum in turn gives the same value
      as wrapping the exact total once, since both agree modulo 2^64. */
  function Wrap(x: int): (r: int)
    ensures InInt64(r)
    ensures (r - x) % TwoTo64 == 0
    ensures InInt64(x) ==> r == x
  {
    (x - MinInt64) % TwoTo64 + MinInt64
  }

  /** Two values that agree modulo 2^64 wrap to the same int64. */
  lemma WrapCongruent(a: int, b: int)
    requires (a - b) % TwoTo64 == 0
    ensures Wrap(a) == Wrap(b)
  {
    var q := (a - b) / TwoTo64;
    assert a - MinInt64 == (b - MinInt64) + q * TwoTo64;
    ModAddMultiple(b - MinInt64, q);
  }

  lemma ModAddMultiple(x: int, q: int)
    ensures (x + q * TwoTo64) % TwoTo64 == x % TwoTo64
  {
    var r := x % TwoTo64;
    var d := x / TwoTo64;
    assert x + q * TwoTo64 == (d + q) * TwoTo64 + r;
  }

  /** Adding two wrapped values and wrapping the sum is wrapping the exact
      sum: int64 addition is addition modulo 2^64. */
  lemma WrapAdd(x: int, y: int)
    ensures Wrap(Wrap(x) + Wrap(y)) == Wrap(x + y)
  {
    var qx := (Wrap(x) - x) / TwoTo64;
    var qy := (Wrap(y) - y) / TwoTo64;
    assert Wrap(x) + Wrap(y) - (x + y) == (qx + qy) * TwoTo64;
    ModAddMultiple(0, qx + qy);
    WrapCongruent(Wrap(x) + Wrap(y), x + y);
  }

  /** Quotient and remainder are the only ones with the remainder in range. */
  lemma DivModUnique(x: int, y: int, q: int, r: int)
    requires y > 0 && 0 <= r < y && x == q * y + r
    ensures x / y == q && x % y == r
  {
    var q0, r0 := x / y, x % y;
    assert x == q0 * y + r0;
    assert (q - q0) * y == r0 - r;
    if q > q0 {
      AtLeastOnce(q - q0, y);
    } else if q < q0 {
      AtLeastOnce(q0 - q, y);
    }
  }

  lemma {:induction false} AtLeastOnce(a: int, y: int)
    requires a >= 1 && y > 0
    ensures a * y >= y
    decreases a
  {
    if a > 1 {
      AtLeastOnce(a - 1, y);
      assert a * y == (a - 1) * y + y;
    }
  }

  /** Go's integer division on signed operands (truncates toward zero). */
  function TruncDiv(a: int, b: int): (q: int)
    requires b > 0
    ensures (a >= 0 ==> q >= 0) && (a <= 0 ==> q <= 0)
  {
    if a >= 0 then a / b else -((-a) / b)
  }

  /** Go's remainder on signed operands (its sign is the sign of `a`). */
  function TruncMod(a: int, b: int): (r: int)
    requires b > 0
    ensures a == TruncDiv(a, b) * b + r
    ensures a >= 0 ==> 0 <= r < b
    ensures a < 0 ==> -b < r <= 0
  {
    a - TruncDiv(a, b) * b
  }

  // time.Duration units, in nanoseconds.
  const Microsecond: int := 1000
  const Millisecond: int := 1_000_000
  const Second: int := 1_000_000_000
  const Minute: int := 60_000_000_000
  const Hour: int := 3_600_000_000_000
}
