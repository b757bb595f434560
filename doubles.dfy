/**
 * Java `double` values as the model sees them: a finite value (rounding is
 * not modelled, so finite arithmetic is exact), one of the two infinities, or
 * NaN.  Negative zero is not distinguished from zero.  The predicates below
 * follow IEEE 754 comparison, and `Compare` follows `Double.compare`.
 */
module Doubles {

  datatype Double = Num(r: real) | PosInf | NegInf | NaN

  /** `Double.isNaN` */
  predicate IsNaN(d: Double) { d.NaN? }

  /** `Double.isInfinite` */
  predicate IsInfinite(d: Double) { d.PosInf? || d.NegInf? }

  /** IEEE `a < b`: false as soon as either operand is NaN. */
  predicate Lt(a: Double, b: Double)
  {
    match (a, b)
    case (NaN, _) => false
    case (_, NaN) => false
    case (Num(x), Num(y)) => x < y
    case (NegInf, NegInf) => false
    case (NegInf, _) => true
    case (Num(_), PosInf) => true
    case (_, _) => false
  }

  /** IEEE `a > b` */
  predicate Gt(a: Double, b: Double) { Lt(b, a) }

  /** IEEE `a == b`: NaN equals nothing, not even itself. */
  predicate Eq(a: Double, b: Double) { a == b && !a.NaN? }

  function Neg(a: Double): Double
  {
    match a
    case Num(x) => Num(-x)
    case PosInf => NegInf
    case NegInf => PosInf
    case NaN => NaN
  }

  /** IEEE addition without rounding: opposite infinities give NaN. */
  function Add(a: Double, b: Double): (r: Double)
    ensures a.NaN? || b.NaN? ==> r.NaN?
    ensures a.Num? && b.Num? ==> r == Num(a.r + b.r)
  {
    match (a, b)
    case (NaN, _) => NaN
    case (_, NaN) => NaN
    case (Num(x), Num(y)) => Num(x + y)
    case (PosInf, NegInf) => NaN
    case (NegInf, PosInf) => NaN
    case (PosInf, _) => PosInf
    case (NegInf, _) => NegInf
    case (Num(_), _) => b
  }

  /** IEEE subtraction without rounding. */
  function Sub(a: Double, b: Double): Double { Add(a, Neg(b)) }

  /** Multiplication by a finite positive constant (the only products the core forms on possibly infinite values). */
  function Scale(a: Double, k: real): (r: Double)
    requires k > 0.0
    ensures r.Num? <==> a.Num?
    ensures a.Num? ==> r.r == a.r * k
  {
    match a
    case Num(x) => Num(x * k)
    case _ => a
  }

  /** Position of a value in the total order used by `Double.compare`: -inf, the finite values, +inf, NaN. */
  function Band(a: Double): nat
  {
    match a
    case NegInf => 0
    case Num(_) => 1
    case PosInf => 2
    case NaN => 3
  }

  /**
   * `Double.compare(a, b)`: a total order in which NaN is above +infinity
   * and equal to itself.  The result is -1, 0 or 1.
   */
  function Compare(a: Double, b: Double): (r: int)
    ensures r == -1 || r == 0 || r == 1
    ensures r == 0 <==> a == b
    ensures !a.NaN? && !b.NaN? ==> (r < 0 <==> Lt(a, b))
    ensures !a.NaN? && !b.NaN? ==> (r > 0 <==> Gt(a, b))
  {
    if Band(a) < Band(b) then -1
    else if Band(a) > Band(b) then 1
    else if a.Num? && b.Num? then (if a.r < b.r then -1 else if a.r > b.r then 1 else 0)
    else 0
  }

  /** `Compare` is a total preorder: antisymmetric and transitive. */
  lemma CompareOrder(a: Double, b: Double, c: Double)
    ensures Compare(a, b) == -Compare(b, a)
    ensures Compare(a, b) <= 0 && Compare(b, c) <= 0 ==> Compare(a, c) <= 0
    ensures Compare(a, b) < 0 && Compare(b, c) <= 0 ==> Compare(a, c) < 0
  {
  }

  const INT_MIN: int := -0x8000_0000
  const INT_MAX: int := 0x7fff_ffff

  /** Truncation toward zero, as Java's narrowing conversions do. */
  function Trunc(x: real): int
  {
    if x >= 0.0 then x.Floor else -((-x).Floor)
  }

  /**
   * The Java cast `(int) d` (narrowing primitive conversion): NaN becomes 0,
   * finite values are truncated toward zero and clamped to the int range, the
   * infinities become the extreme ints.
   */
  function ToInt(d: Double): (r: int)
    ensures INT_MIN <= r <= INT_MAX
    ensures d.NaN? ==> r == 0
    ensures d.Num? && INT_MIN as real < d.r < INT_MAX as real + 1.0 ==>
              (if d.r >= 0.0 then 0 <= r && r as real <= d.r < r as real + 1.0
               else r <= 0 && r as real - 1.0 < d.r <= r as real)
  {
    match d
    case NaN => 0
    case PosInf => INT_MAX
    case NegInf => INT_MIN
    case Num(x) =>
      var t := Trunc(x);
      if t < INT_MIN then INT_MIN else if t > INT_MAX then INT_MAX else t
  }
}
