/**
 * Real arithmetic standing in for numpy's float64 column arithmetic.
 *
 * numpy's sin, cos, sqrt and arctan2 are calls into a library whose code is not part of
 * the model, so they are passed in as a `Math` value.  Only the identities a property
 * needs are assumed of them, and only by the lemmas that need them (`ValidMath`,
 * `Atan2InRange`).  `NaN` stands for a null or NaN cell: every lifted operation
 * yields `NaN` when an operand is `NaN`, when it divides by zero, or when it takes
 * the square root of a negative number.
 */
module Numerics {
  import opened Wrappers

  /** numpy's `np.pi`. */
  const Pi: real := 3.141592653589793

  /** A float64 cell: a number, or NaN for a null, missing or undefined result. */
  datatype Num = NaN | Num(value: real)

  datatype Math = Math(sin: real -> real, cos: real -> real, sqrt: real -> real, atan2: (real, real) -> real)

  /** The square root is the non-negative root, and sin and cos lie on the unit circle. */
  ghost predicate ValidMath(m: Math) {
    && (forall x: real :: 0.0 <= x ==> 0.0 <= m.sqrt(x) && m.sqrt(x) * m.sqrt(x) == x)
    && (forall p: real :: m.sin(p) * m.sin(p) + m.cos(p) * m.cos(p) == 1.0)
  }

  /** `arctan2` returns an angle in [-pi, pi]. */
  ghost predicate Atan2InRange(m: Math) {
    forall y: real, x: real :: -Pi <= m.atan2(y, x) <= Pi
  }

  function Plus(a: Num, b: Num): Num {
    if a.Num? && b.Num? then Num(a.value + b.value) else NaN
  }

  function Minus(a: Num, b: Num): Num {
    if a.Num? && b.Num? then Num(a.value - b.value) else NaN
  }

  function Times(a: Num, b: Num): Num {
    if a.Num? && b.Num? then Num(a.value * b.value) else NaN
  }

  function Negate(a: Num): Num {
    if a.Num? then Num(-a.value) else NaN
  }

  function Square(a: Num): Num {
    Times(a, a)
  }

  /** Division; a zero divisor gives an infinity or NaN in numpy, here an undefined value. */
  function Over(a: Num, b: Num): Num {
    if a.Num? && b.Num? && b.value != 0.0 then Num(a.value / b.value) else NaN
  }

  /** `np.sqrt`; a negative argument gives NaN. */
  function Sqrt(m: Math, a: Num): Num {
    if a.Num? && 0.0 <= a.value then Num(m.sqrt(a.value)) else NaN
  }

  function Sin(m: Math, a: Num): Num {
    if a.Num? then Num(m.sin(a.value)) else NaN
  }

  function Cos(m: Math, a: Num): Num {
    if a.Num? then Num(m.cos(a.value)) else NaN
  }

  function Abs(x: real): real {
    if x < 0.0 then -x else x
  }

  /** `abs` on a cell. */
  function AbsNum(a: Num): Num {
    if a.Num? then Num(Abs(a.value)) else NaN
  }

  /** Two non-negative numbers with the same square are equal. */
  lemma NonnegSquaresEqual(p: real, q: real)
    requires 0.0 <= p && 0.0 <= q
    requires p * p == q * q
    ensures p == q
  {
    assert (p - q) * (p + q) == p * p - q * q;
    if p + q != 0.0 {
      ProductZero(p - q, p + q);
    }
  }

  /** A nonzero number has a positive square. */
  lemma SquarePositive(x: real)
    ensures x != 0.0 ==> x * x > 0.0
  {
    if x < 0.0 {
      assert (-x) * (-x) > 0.0;
      assert x * x == (-x) * (-x);
    }
  }

  /** p^2 + q^2, kept as one term so that its sign survives the solver's rewriting. */
  function SquaredNorm(p: real, q: real): real {
    p * p + q * q
  }

  /** A square is never negative. */
  lemma SquareNonnegative(x: real)
    ensures 0.0 <= x * x
  {
    if x < 0.0 {
      assert x * x == (-x) * (-x);
    }
  }

  lemma SumOfSquaresPositive(p: real, q: real)
    requires q != 0.0
    ensures SquaredNorm(p, q) > 0.0
  {
    if SquaredNorm(p, q) <= 0.0 {
      SquareNonnegative(p);
      SquareNonnegative(q);
      assert q * q == 0.0;
      ProductZero(q, q);
    }
  }

  lemma ProductZero(x: real, y: real)
    requires x * y == 0.0 && y != 0.0
    ensures x == 0.0
  {
    assert x == (x * y) / y;
  }

  /** Dividing bounds on x = lo n .. hi n by a positive n. */
  lemma QuotientBetween(x: real, n: real, lo: real, hi: real)
    requires 0.0 < n && lo * n <= x <= hi * n
    ensures lo <= x / n <= hi
  {
    assert x / n - lo == (x - lo * n) / n;
    assert hi - x / n == (hi * n - x) / n;
  }

  /** A quotient of positives is positive. */
  lemma QuotientPositive(x: real, y: real)
    requires 0.0 < x && 0.0 < y
    ensures 0.0 < x / y
  {
    assert (x / y) * y == x;
  }

  /** |x / y| == |x| / |y| */
  lemma QuotientAbs(x: real, y: real)
    requires y != 0.0
    ensures Abs(x / y) == Abs(x) / Abs(y)
  {
    if y < 0.0 {
      var q := x / -y;
      assert q * -y == x;
      assert (-q) * y == x;
      assert x / y == -q;
    }
  }

  /** The square root is monotone from below: c*c <= x gives c <= sqrt(x). */
  lemma SqrtAtLeast(m: Math, x: real, c: real)
    requires ValidMath(m)
    requires 0.0 <= c && c * c <= x
    ensures c <= m.sqrt(x)
  {
    var s := m.sqrt(x);
    assert 0.0 <= s && s * s == x;
    assert (s - c) * (s + c) == s * s - c * c;
    if s + c != 0.0 {
      assert (s - c) == ((s - c) * (s + c)) / (s + c);
    }
  }

  /** The square root of a square is the absolute value. */
  lemma SqrtOfSquare(m: Math, x: real)
    requires ValidMath(m)
    ensures m.sqrt(x * x) == Abs(x)
  {
    var s := m.sqrt(x * x);
    assert 0.0 <= s && s * s == x * x;
    assert Abs(x) * Abs(x) == x * x;
    NonnegSquaresEqual(s, Abs(x));
  }
}
