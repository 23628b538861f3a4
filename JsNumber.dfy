/**
  JavaScript numbers as the screen arithmetic sees them: a finite value, one of
  the two infinities, or NaN. Finite values are exact reals, so rounding is not
  modelled; signed zero is not modelled either (every zero here is +0).

  `Math.sqrt` is a library routine of the JavaScript runtime. Dafny has no
  square root on `real`, so the model receives it as a function `sqrt` that
  obeys the square-root law (`IsSquareRoot`), and every property below holds
  for every such function.
 */
module JsNumber {

  datatype Number = Finite(value: real) | PositiveInfinity | NegativeInfinity | NaN
  {
    predicate IsInfinite() {
      PositiveInfinity? || NegativeInfinity?
    }
  }

  /** The number zero. */
  predicate IsZero(a: Number) {
    a.Finite? && a.value == 0.0
  }

  /** A negative value or minus infinity. */
  predicate IsNegative(a: Number) {
    a.NegativeInfinity? || (a.Finite? && a.value < 0.0)
  }

  /** The infinity whose sign is the product of the signs of two nonzero
      numbers. */
  function InfinityOfSigns(a: Number, b: Number): Number {
    if IsNegative(a) == IsNegative(b) then PositiveInfinity else NegativeInfinity
  }

  /** `a + b` */
  function Add(a: Number, b: Number): Number {
    if a.NaN? || b.NaN? then NaN
    else if a.Finite? && b.Finite? then Finite(a.value + b.value)
    else if a.IsInfinite() && b.IsInfinite() && a != b then NaN
    else if a.IsInfinite() then a
    else b
  }

  /** `a - b`: the difference of two infinities of one sign is NaN. */
  function Sub(a: Number, b: Number): Number {
    if a.NaN? || b.NaN? then NaN
    else if a.Finite? && b.Finite? then Finite(a.value - b.value)
    else if a.IsInfinite() && a == b then NaN
    else if a.IsInfinite() then a
    else if b.PositiveInfinity? then NegativeInfinity
    else PositiveInfinity
  }

  /** `a * b`: an infinity times zero is NaN. */
  function Mul(a: Number, b: Number): Number {
    if a.NaN? || b.NaN? then NaN
    else if a.Finite? && b.Finite? then Finite(a.value * b.value)
    else if IsZero(a) || IsZero(b) then NaN
    else InfinityOfSigns(a, b)
  }

  /** `a / b`: a nonzero value over zero is an infinity, 0/0 and an infinity
      over an infinity are NaN, a finite value over an infinity is zero. */
  function Div(a: Number, b: Number): Number {
    if a.NaN? || b.NaN? then NaN
    else if a.Finite? && b.Finite? then
      if b.value != 0.0 then Finite(a.value / b.value)
      else if a.value == 0.0 then NaN
      else InfinityOfSigns(a, Finite(1.0))
    else if a.Finite? then Finite(0.0)
    else if b.Finite? then
      if b.value == 0.0 then a else InfinityOfSigns(a, b)
    else NaN
  }

  /** `a > b`: every comparison with NaN is false. */
  predicate Greater(a: Number, b: Number) {
    if a.NaN? || b.NaN? then false
    else if a.Finite? && b.Finite? then a.value > b.value
    else if a.PositiveInfinity? then !b.PositiveInfinity?
    else if b.NegativeInfinity? then !a.NegativeInfinity?
    else false
  }

  /** Addition is commutative, zero is its identity, and opposite infinities
      cancel to NaN. */
  lemma AddLaws(a: Number, b: Number)
    ensures Add(a, b) == Add(b, a)
    ensures Add(a, Finite(0.0)) == a
    ensures a.IsInfinite() && b.IsInfinite() && a != b ==> Add(a, b).NaN?
  {
  }

  /** Subtraction is the addition of the negated subtrahend, negation being
      multiplication by -1. */
  lemma SubIsAddNegated(a: Number, b: Number)
    ensures Sub(a, b) == Add(a, Mul(b, Finite(-1.0)))
  {
  }

  /** Multiplication is commutative; zero times an infinity is NaN; a product
      of two nonzero numbers is negative exactly when one factor is. */
  lemma MulLaws(a: Number, b: Number)
    ensures Mul(a, b) == Mul(b, a)
    ensures IsZero(a) && b.IsInfinite() ==> Mul(a, b).NaN?
    ensures !a.NaN? && !b.NaN? && !IsZero(a) && !IsZero(b) ==>
              !IsZero(Mul(a, b)) && (IsNegative(Mul(a, b)) <==> IsNegative(a) != IsNegative(b))
  {
    if a.Finite? && b.Finite? && a.value != 0.0 && b.value != 0.0 {
      if a.value < 0.0 && b.value < 0.0 {
        assert 0.0 < (-a.value) * (-b.value);
      } else if a.value < 0.0 {
        assert 0.0 < (-a.value) * b.value;
      } else if b.value < 0.0 {
        assert 0.0 < a.value * (-b.value);
      } else {
        assert 0.0 < a.value * b.value;
      }
    }
  }

  /** Division by a finite nonzero number is undone by multiplying back. */
  lemma DivMulRoundTrip(a: Number, b: Number)
    requires a.Finite? && b.Finite? && b.value != 0.0
    ensures Mul(Div(a, b), b) == a
  {
  }

  /** Division by zero: a nonzero number gives the infinity of its sign, zero
      gives NaN; a finite number over an infinity is zero. */
  lemma DivByZeroAndInfinity(a: Number, b: Number)
    ensures a.Finite? && a.value != 0.0 ==>
              Div(a, Finite(0.0)) == (if a.value < 0.0 then NegativeInfinity else PositiveInfinity)
    ensures IsZero(a) ==> Div(a, Finite(0.0)).NaN?
    ensures a.Finite? && b.IsInfinite() ==> Div(a, b) == Finite(0.0)
  {
  }

  /** `>` is a strict total order on the numbers other than NaN, and false
      whenever NaN is involved. */
  lemma GreaterOrder(a: Number, b: Number, c: Number)
    ensures a.NaN? || b.NaN? ==> !Greater(a, b) && !Greater(b, a)
    ensures !a.NaN? && !b.NaN? ==>
              (Greater(a, b) || Greater(b, a) || a == b) && !(Greater(a, b) && Greater(b, a))
    ensures !Greater(a, a)
    ensures Greater(a, b) && Greater(b, c) ==> Greater(a, c)
  {
  }

  /** The law `Math.sqrt` obeys at the point `x` on exact reals: from zero on,
      the result is the nonnegative root. */
  ghost predicate IsRootAt(sqrt: real -> real, x: real) {
    0.0 <= x ==> 0.0 <= sqrt(x) && sqrt(x) * sqrt(x) == x
  }

  /** The law `Math.sqrt` obeys everywhere. Proofs call on it at the points
      they need by naming `IsRootAt(sqrt, x)`. */
  ghost predicate IsSquareRoot(sqrt: real -> real) {
    forall x :: IsRootAt(sqrt, x)
  }

  /** `Math.sqrt(a)`: the nonnegative root of a number from zero on, infinity
      at infinity, and NaN for everything else. */
  function Sqrt(a: Number, sqrt: real -> real): (r: Number)
    requires IsSquareRoot(sqrt)
    ensures r.Finite? <==> a.Finite? && 0.0 <= a.value
    ensures r.PositiveInfinity? <==> a.PositiveInfinity?
    ensures !r.Finite? && !r.PositiveInfinity? ==> r.NaN?
    ensures r.Finite? ==> 0.0 <= r.value && r.value * r.value == a.value
  {
    match a
    case Finite(x) => if 0.0 <= x then assert IsRootAt(sqrt, x); Finite(sqrt(x)) else NaN
    case PositiveInfinity => PositiveInfinity
    case _ => NaN
  }

  /** Two nonnegative reals with the same square are equal: the root is unique. */
  lemma SquareRootUnique(x: real, y: real)
    requires 0.0 <= x && 0.0 <= y && x * x == y * y
    ensures x == y
  {
    assert (x - y) * (x + y) == 0.0;
    if x + y != 0.0 {
      assert x - y == (x - y) * (x + y) / (x + y);
    }
  }

  /** On nonnegative reals, squaring is strictly monotone. */
  lemma SquareLessMonotone(x: real, y: real)
    requires 0.0 <= x && 0.0 <= y && x * x < y * y
    ensures x < y
  {
    assert (y - x) * (y + x) == y * y - x * x;
  }
}
