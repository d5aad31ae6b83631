/** The f64 operations the solver uses, on Dafny's exact reals.

    Every f64 of the solver is a `real` here.  Rounding, infinities and NaN
    are not modelled: a division by zero (which yields an infinity or NaN in
    f64) is `Div`'s value 0, and every property about a quotient is proved
    under hypotheses that rule the zero divisor out.  The square root is not
    definable on Dafny's reals, so it is passed around as a function value and
    whatever needs its laws requires `IsSqrt`. */
module F64 {

  /** f64::signum on non-NaN values: +1 for every x >= 0 (also for +0.0), -1 below. */
  function Signum(x: real): (r: real)
    ensures r == 1.0 || r == -1.0
    ensures r * x == Abs(x)
  {
    if x >= 0.0 then 1.0 else -1.0
  }

  /** f64::abs */
  function Abs(x: real): (r: real)
    ensures r >= 0.0 && (r == x || r == -x)
  {
    if x >= 0.0 then x else -x
  }

  /** f64::min on non-NaN values */
  function Min(x: real, y: real): (r: real)
    ensures r <= x && r <= y && (r == x || r == y)
  {
    if x <= y then x else y
  }

  /** f64::max on non-NaN values */
  function Max(x: real, y: real): (r: real)
    ensures r >= x && r >= y && (r == x || r == y)
  {
    if x >= y then x else y
  }

  /** The f64 quotient x / y where it is finite; 0 stands for the infinity or NaN of y == 0. */
  function Div(x: real, y: real): (r: real)
    ensures y != 0.0 ==> r * y == x
  {
    if y == 0.0 then 0.0 else x / y
  }

  /** f64::sqrt, supplied by the caller. */
  type SqrtFn = real -> real

  /** The two laws of the square root that the model relies on. */
  ghost predicate IsSqrt(sqrt: SqrtFn)
  {
    forall x: real :: 0.0 <= x ==> 0.0 <= sqrt(x) && sqrt(x) * sqrt(x) == x
  }

  /** A positive argument has a positive root. */
  lemma SqrtPositive(sqrt: SqrtFn, x: real)
    requires IsSqrt(sqrt) && 0.0 <= x && x != 0.0
    ensures sqrt(x) > 0.0 && sqrt(x) * sqrt(x) == x
  {
    assert 0.0 <= sqrt(x) && sqrt(x) * sqrt(x) == x;
    SquareOfZero(sqrt(x));
  }

  lemma SquareOfZero(r: real)
    ensures r == 0.0 ==> r * r == 0.0
  {
  }

  /** The root is monotone. */
  lemma SqrtMonotone(sqrt: SqrtFn, a: real, b: real)
    requires IsSqrt(sqrt) && 0.0 <= a <= b
    ensures sqrt(a) <= sqrt(b)
  {
    var ra := sqrt(a);
    var rb := sqrt(b);
    assert 0.0 <= ra && ra * ra == a;
    assert 0.0 <= rb && rb * rb == b;
    if ra > rb {
      SquareStrictlyMonotone(ra, rb);
    }
  }

  lemma SquareStrictlyMonotone(x: real, y: real)
    requires x > y >= 0.0
    ensures x * x > y * y
  {
    var d := x - y;
    assert d > 0.0;
    assert x * x == (y + d) * (y + d) == y * y + 2.0 * y * d + d * d;
    assert y * d >= 0.0;
    assert d * d > 0.0;
  }

  /** A sum of two squares is not negative. */
  lemma SumOfSquares(a: real, b: real)
    ensures a * a + b * b >= 0.0
  {
  }
}
