/** The optional value used for Python's `None` results and for exceptions
    that a caller turns into "no value". */
module Wrappers {
  datatype Option<+T> = None | Some(value: T)
}

/** Python `float` values and the two operations the energy conversion
    applies to them: `*` and `int(...)`.

    A finite float is an exact real here: IEEE rounding, overflow to
    infinity and the sign of zero are not modelled. The non-finite values
    are kept because they decide whether `int(...)` raises. */
module PyFloat {
  import opened Wrappers

  datatype Float = Finite(r: real) | Inf(negative: bool) | NaN

  /** `x * y` on Python floats (and on the ints 0 and 1 used as defaults,
      which Python promotes to float when the other factor is a float).
      Multiplication never raises: an infinity times zero is NaN. */
  function Mul(x: Float, y: Float): (z: Float)
    ensures z.Finite? <==> x.Finite? && y.Finite?
    ensures x.Finite? && y.Finite? ==> z.r == x.r * y.r
    ensures z.NaN? <==> x.NaN? || y.NaN? || (x.Inf? && y == Finite(0.0)) || (y.Inf? && x == Finite(0.0))
    ensures z.Inf? ==> z.negative == (IsNegative(x) != IsNegative(y))
  {
    if x.NaN? || y.NaN? then NaN
    else if x.Finite? && y.Finite? then Finite(x.r * y.r)
    else if x == Finite(0.0) || y == Finite(0.0) then NaN
    else Inf(IsNegative(x) != IsNegative(y))
  }

  /** The product of two finite floats is their real product. */
  lemma MulOfFinite(x: Float, y: Float)
    ensures x.Finite? && y.Finite? ==> Mul(x, y) == Finite(x.r * y.r)
  {
  }

  /** The sign bit of a non-NaN value, as far as the model keeps it. */
  predicate IsNegative(x: Float) {
    match x
    case Finite(a) => a < 0.0
    case Inf(s) => s
    case NaN => false
  }

  /** `n` is `x` truncated toward zero: the integer nearest `x` on the side
      of zero, never more than one unit away. */
  ghost predicate IsTruncation(x: real, n: int) {
    (x >= 0.0 ==> 0 <= n && n as real <= x < n as real + 1.0) &&
    (x < 0.0 ==> n <= 0 && n as real - 1.0 < x <= n as real)
  }

  /** A real has exactly one truncation. */
  lemma TruncationIsUnique(x: real, n: int, m: int)
    requires IsTruncation(x, n) && IsTruncation(x, m)
    ensures n == m
  {
  }

  /** Truncation of a real toward zero, as Python's `int()` does it. */
  function TruncateTowardZero(x: real): (n: int)
    ensures IsTruncation(x, n)
  {
    if x >= 0.0 then x.Floor else -((-x).Floor)
  }

  /** `int(x)` for a float `x`: `None` stands for the `OverflowError`
      (infinity) or `ValueError` (NaN) Python raises; a finite value is
      truncated toward zero. */
  function Int(x: Float): (n: Option<int>)
    ensures n.None? <==> !x.Finite?
    ensures n.Some? ==> IsTruncation(x.r, n.value)
  {
    match x
    case Finite(a) => Some(TruncateTowardZero(a))
    case _ => None
  }
}
