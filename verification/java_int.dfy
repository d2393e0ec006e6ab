/**
 * Java's 32-bit signed `int` and the operations on it that the Bloom filter's
 * probe computation uses: wrapping `*` and `+`, the truncating remainder `%`,
 * and `Math.abs`.
 */
module JavaInt {

  const TWO_32: int := 0x1_0000_0000
  const MIN_INT: int := -0x8000_0000
  const MAX_INT: int := 0x7fff_ffff

  /** The values of a Java `int`. */
  newtype i32 = x: int | -0x8000_0000 <= x < 0x8000_0000

  /**
   * What a Java `int` keeps of the exact result `x`: the one value of the
   * 32-bit range that is congruent to `x` modulo 2^32 (two's-complement
   * wrap-around).
   */
  function Wrap(x: int): (r: i32)
    ensures (r as int - x) % TWO_32 == 0
    ensures MIN_INT <= x <= MAX_INT ==> r as int == x
  {
    var m := x % TWO_32;
    if m <= MAX_INT then m as i32 else (m - TWO_32) as i32
  }

  /** Wrap's result is the only 32-bit value congruent to `x`. */
  lemma WrapUnique(x: int, r: i32)
    requires (r as int - x) % TWO_32 == 0
    ensures r == Wrap(x)
  {
    var w := Wrap(x);
    var d := r as int - w as int;
    assert d % TWO_32 == 0;
    assert -TWO_32 < d < TWO_32;
  }

  /** Two exact results that agree modulo 2^32 wrap to the same `int`. */
  lemma WrapCongruent(x: int, y: int)
    requires (x - y) % TWO_32 == 0
    ensures Wrap(x) == Wrap(y)
  {
    var w := Wrap(y);
    assert (w as int - x) % TWO_32 == 0 by {
      var a := w as int - y;
      assert a % TWO_32 == 0;
      assert w as int - x == a - (x - y);
      DivisibleSub(a, x - y);
    }
    WrapUnique(x, w);
  }

  lemma DivisibleSub(a: int, b: int)
    requires a % TWO_32 == 0 && b % TWO_32 == 0
    ensures (a - b) % TWO_32 == 0
  {
    assert a == (a / TWO_32) * TWO_32;
    assert b == (b / TWO_32) * TWO_32;
    assert a - b == (a / TWO_32 - b / TWO_32) * TWO_32;
  }

  lemma DivisibleAdd(a: int, b: int)
    requires a % TWO_32 == 0 && b % TWO_32 == 0
    ensures (a + b) % TWO_32 == 0
  {
    assert a == (a / TWO_32) * TWO_32;
    assert b == (b / TWO_32) * TWO_32;
    assert a + b == (a / TWO_32 + b / TWO_32) * TWO_32;
  }

  /** Java's `a * b` on `int` operands: the exact product, modulo 2^32. */
  function Mul(a: i32, b: i32): (r: i32)
    ensures (r as int - a as int * b as int) % TWO_32 == 0
  {
    Wrap(a as int * b as int)
  }

  /** Java's `a + b` on `int` operands: the exact sum, modulo 2^32. */
  function Add(a: i32, b: i32): (r: i32)
    ensures (r as int - (a as int + b as int)) % TWO_32 == 0
    ensures MIN_INT <= a as int + b as int <= MAX_INT ==> r as int == a as int + b as int
  {
    Wrap(a as int + b as int)
  }

  /**
   * Java's `x / n` for a positive divisor, on exact integers: the quotient
   * truncated toward zero (Dafny's own `/` on `int` rounds toward minus
   * infinity for a negative dividend).
   */
  function TruncQuot(x: int, n: int): int
    requires n >= 1
  {
    if x >= 0 then x / n else -((-x) / n)
  }

  /**
   * Java's `x % n` for a positive divisor: the remainder left by the
   * truncated quotient, so it takes the sign of the dividend (Dafny's own
   * `%` on `int` is Euclidean and never negative).
   */
  function Rem(x: i32, n: i32): (r: i32)
    requires n >= 1
    ensures x as int == TruncQuot(x as int, n as int) * n as int + r as int
    ensures x >= 0 ==> 0 <= r < n
    ensures x < 0 ==> -n < r <= 0
  {
    if x >= 0 then
      (x as int % n as int) as i32
    else
      (-(-(x as int) % n as int)) as i32
  }

  /**
   * Java's `Math.abs(int)`: the magnitude of `x`, except that `MIN_INT`,
   * whose magnitude is not an `int`, is returned unchanged.
   */
  function Abs(x: i32): (r: i32)
    ensures x as int != MIN_INT ==> r >= 0 && (r == x || r as int == -(x as int))
    ensures x as int == MIN_INT ==> r == x
  {
    if x >= 0 || x as int == MIN_INT then x else (-(x as int)) as i32
  }
}
