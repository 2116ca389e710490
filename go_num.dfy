/** The fixed-width integer arithmetic of Go that the model needs stated
    explicitly: int64 bounds, division truncated toward zero, two's-complement
    wrap-around of `time.Duration` products, and the `time` units in
    nanoseconds. */
module GoNum {

  const MaxInt64: int := 0x7fff_ffff_ffff_ffff
  const MinInt64: int := -0x8000_0000_0000_0000
  const MaxUint64: int := 0xffff_ffff_ffff_ffff
  const TwoTo64: int := 0x1_0000_0000_0000_0000

  /** `time.Millisecond` and `time.Second`, in nanoseconds. */
  const Millisecond: int := 1_000_000
  const Second: int := 1_000_000_000

  function Abs(x: int): nat { if x < 0 then -x else x }

  /** Go's `a / b` on integers: the quotient truncated toward zero. The
      remainder `a - q * b` is smaller than `b` in magnitude and carries the
      sign of the dividend. */
  function Quo(a: int, b: int): (q: int)
    requires b != 0
    ensures Abs(a - q * b) < Abs(b)
    ensures a - q * b == 0 || (a - q * b > 0 <==> a > 0)
    ensures a >= 0 && b > 0 ==> q == a / b
  {
    var m := Abs(a) / Abs(b);
    var q := if (a >= 0) == (b > 0) then m else -m;
    QuoRemainder(a, b, m, q);
    q
  }

  lemma QuoRemainder(a: int, b: int, m: int, q: int)
    requires b != 0 && m == Abs(a) / Abs(b)
    requires q == if (a >= 0) == (b > 0) then m else -m
    ensures Abs(a - q * b) < Abs(b)
    ensures a - q * b == 0 || (a - q * b > 0 <==> a > 0)
  {
    ProductSign(a, b, m, q);
    DivFacts(Abs(a), Abs(b));
  }

  lemma ProductSign(a: int, b: int, m: int, q: int)
    requires b != 0 && m == Abs(a) / Abs(b)
    requires q == if (a >= 0) == (b > 0) then m else -m
    ensures q * b == if a >= 0 then m * Abs(b) else -(m * Abs(b))
  {
    var bigB: int := Abs(b);
    if b < 0 {
      assert q * b == (-q) * bigB;
    }
  }

  lemma DivFacts(x: nat, y: int)
    requires y > 0
    ensures x == (x / y) * y + x % y
    ensures (x / y) * y >= 0 && 0 <= x % y < y
  {
    var d := x / y;
    assert d >= 0;
  }

  /** Go's `time.Duration` arithmetic is int64 arithmetic: a result outside
      the int64 range wraps around modulo 2^64. */
  function Wrap64(x: int): (r: int)
    ensures MinInt64 <= r <= MaxInt64
    ensures (r - x) % TwoTo64 == 0
    ensures MinInt64 <= x <= MaxInt64 ==> r == x
  {
    (x - MinInt64) % TwoTo64 + MinInt64
  }

  /** Adding to a wrapped running total wraps like adding to the true total:
      a `time.Duration` accumulator holds `Wrap64` of the exact sum. */
  lemma WrapAdd(t: int, x: int)
    ensures Wrap64(Wrap64(t) + x) == Wrap64(t + x)
  {
    var a := t - MinInt64;
    assert a == (a / TwoTo64) * TwoTo64 + a % TwoTo64;
    ModShift(a % TwoTo64 + x, a / TwoTo64);
  }

  lemma ModShift(y: int, k: int)
    ensures (y + k * TwoTo64) % TwoTo64 == y % TwoTo64
  {
  }

  function Min(a: int, b: int): (m: int)
    ensures m <= a && m <= b && (m == a || m == b)
  {
    if a <= b then a else b
  }

  lemma ScaleMonotone(x: int, y: int, n: int)
    requires x <= y && n >= 0
    ensures x * n <= y * n
  {
    assert y * n - x * n == (y - x) * n;
  }

  /** A dividend above `-size` has a non-negative truncated quotient. */
  lemma QuoNonNegative(l: int, size: int)
    requires size > 0 && l > -size
    ensures 0 <= Quo(l, size)
    ensures l >= 0 ==> Quo(l, size) * size <= l < Quo(l, size) * size + size
  {
    var q := Quo(l, size);
    if l < 0 {
      assert -size < l - q * size <= 0;
      if q < 0 {
        ScaleMonotone(q, -1, size);
      }
    } else {
      DivFacts(l, size);
    }
  }

  lemma DivMonotone(a: nat, b: nat, size: int)
    requires size > 0 && a <= b
    ensures a / size <= b / size
  {
    DivFacts(a, size);
    DivFacts(b, size);
    if a / size > b / size {
      ScaleMonotone(b / size + 1, a / size, size);
    }
  }

  /** Truncated division by a positive divisor is monotone in the dividend
      (for dividends above minus the divisor). */
  lemma QuoMonotone(a: int, b: int, size: int)
    requires size > 0 && -size < a <= b
    ensures Quo(a, size) <= Quo(b, size)
  {
    QuoNonNegative(a, size);
    QuoNonNegative(b, size);
    if a >= 0 {
      DivMonotone(a, b, size);
    } else if Quo(a, size) > 0 {
      ScaleMonotone(1, Quo(a, size), size);
    }
  }
}
