/** Machine integer types and small helpers shared by the firmware model. */
module Common {

  const U32_MODULUS: int := 0x1_0000_0000

  /** A C `uint32_t`. */
  type U32 = x: int | 0 <= x < 0x1_0000_0000

  /** A C `uint8_t`. */
  type U8 = x: int | 0 <= x < 0x100

  /** Reduce an exact result to `uint32_t` the way C's unsigned arithmetic does. */
  function Wrap32(x: int): (r: U32)
    ensures 0 <= x < U32_MODULUS ==> r == x
  {
    x % U32_MODULUS
  }

  /** Whether `x` fits a C `int32_t`. */
  predicate IsI32(x: int)
  {
    -0x8000_0000 <= x < 0x8000_0000
  }

  /** An `int32_t` result as two's-complement hardware produces it: an overflow wraps. */
  function WrapI32(x: int): (r: int)
    ensures IsI32(r)
    ensures IsI32(x) ==> r == x
    ensures (r - x) % U32_MODULUS == 0
  {
    var w := x % U32_MODULUS;
    if w >= 0x8000_0000 then w - U32_MODULUS else w
  }

  datatype Option<T> = None | Some(value: T)

  function Abs(x: int): (r: nat)
    ensures r == x || r == -x
  {
    if x < 0 then -x else x
  }

  /** Multiplying by a non-negative factor keeps the order. */
  lemma MulMonotone(a: int, b: int, c: int)
    requires a <= b && c >= 0
    ensures a * c <= b * c
  {
    assert b * c - a * c == (b - a) * c;
  }

  /** Multiplying by a positive count and dividing by it again is the identity. */
  lemma MulDiv(n: int, v: int)
    requires n > 0
    ensures (n * v) / n == v
  {
    var q, r := (n * v) / n, (n * v) % n;
    assert n * v == n * q + r && 0 <= r < n;
    var d := v - q;
    assert n * d == r;
    assert d >= 1 ==> n * d >= n;
    assert d <= -1 ==> n * d <= -n;
  }

  /** Dividing a natural number by a positive divisor does not make it larger. */
  lemma DivAtMost(a: int, d: int)
    requires a >= 0 && d >= 1
    ensures 0 <= a / d <= a
  {
    DivMonotone(0, a, d);
    var q := a / d;
    assert d * q <= a;
    if q >= 1 {
      MulAtLeast(d, q);
      assert d * q >= q;
    }
  }

  /** A positive number times a factor of at least one is at least that number. */
  lemma MulAtLeast(d: int, e: int)
    requires d > 0 && e >= 1
    ensures d * e >= d
  {
  }

  /** Euclidean division by a positive divisor is monotone. */
  lemma DivMonotone(a: int, b: int, d: int)
    requires a <= b && d > 0
    ensures a / d <= b / d
  {
    var qa, qb := a / d, b / d;
    assert d * qa <= a && b < d * qb + d;
    assert d * (qa - qb) < d;
    if qa - qb >= 1 {
      MulAtLeast(d, qa - qb);
    }
  }

  /** Euclidean division is unique: `q * n + r` with `0 <= r < n` has quotient `q` and remainder `r`. */
  lemma DivModUnique(k: int, n: int, q: int, r: int)
    requires n > 0 && 0 <= r < n && k == q * n + r
    ensures k / n == q && k % n == r
  {
    var q2, r2 := k / n, k % n;
    assert (q - q2) * n == r2 - r;
    if q - q2 >= 1 {
      MulAtLeast(n, q - q2);
    }
    if q2 - q >= 1 {
      MulAtLeast(n, q2 - q);
    }
  }
}
