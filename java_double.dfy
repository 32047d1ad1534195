/**
 * The few behaviours of Java's `double` the estimators depend on beyond
 * exact arithmetic: a division by zero gives an infinity or NaN, NaN and
 * the infinities flow through the arithmetic that follows, and the `(int)`
 * cast maps NaN to 0 and saturates at the `int` range. Finite values are
 * exact reals; rounding and signed zero are not modelled.
 */
module JavaDouble {

  const IntMin: int := -0x8000_0000
  const IntMax: int := 0x7fff_ffff

  /**
   * A Java `int` product or sum: the exact result wrapped into 32 bits two's
   * complement, so it is unchanged inside the `int` range and otherwise
   * differs from it by a multiple of 2^32.
   */
  function Int32(x: int): (r: int)
    ensures IntMin <= r <= IntMax
    ensures IntMin <= x <= IntMax ==> r == x
    ensures (x - r) % 0x1_0000_0000 == 0
  {
    var low := x % 0x1_0000_0000;
    if low > IntMax then low - 0x1_0000_0000 else low
  }

  datatype Double = Finite(value: real) | PositiveInfinity | NegativeInfinity | NaN
  {
    predicate IsInfinite() { PositiveInfinity? || NegativeInfinity? }
  }

  /** `a / b` on doubles holding `a` and `b`: 0/0 is NaN, x/0 an infinity of the sign of x. */
  function Divide(a: real, b: real): (r: Double)
    ensures b != 0.0 ==> r.Finite? && r.value * b == a
    ensures b == 0.0 ==> (r.NaN? <==> a == 0.0) && (r.PositiveInfinity? <==> a > 0.0) && (r.NegativeInfinity? <==> a < 0.0)
  {
    if b != 0.0 then Finite(a / b)
    else if a > 0.0 then PositiveInfinity
    else if a < 0.0 then NegativeInfinity
    else NaN
  }

  function Negate(a: Double): (r: Double)
    ensures a.Finite? <==> r.Finite?
    ensures a.NaN? <==> r.NaN?
    ensures a.Finite? ==> r.value == -a.value
  {
    match a
    case Finite(v) => Finite(-v)
    case PositiveInfinity => NegativeInfinity
    case NegativeInfinity => PositiveInfinity
    case NaN => NaN
  }

  /** `a + b`: NaN absorbs everything, opposite infinities cancel to NaN. */
  function Add(a: Double, b: Double): (r: Double)
    ensures a.NaN? || b.NaN? ==> r.NaN?
    ensures a.Finite? && b.Finite? ==> r == Finite(a.value + b.value)
    ensures r.Finite? ==> a.Finite? && b.Finite?
  {
    match (a, b)
    case (NaN, _) => NaN
    case (_, NaN) => NaN
    case (Finite(x), Finite(y)) => Finite(x + y)
    case (PositiveInfinity, NegativeInfinity) => NaN
    case (NegativeInfinity, PositiveInfinity) => NaN
    case (Finite(_), _) => b
    case (_, _) => a
  }

  function Subtract(a: Double, b: Double): (r: Double)
    ensures a.NaN? || b.NaN? ==> r.NaN?
    ensures a.Finite? && b.Finite? ==> r == Finite(a.value - b.value)
  {
    Add(a, Negate(b))
  }

  /** `a * b`: an infinity times zero is NaN, otherwise signs multiply. */
  function Multiply(a: Double, b: Double): (r: Double)
    ensures a.NaN? || b.NaN? ==> r.NaN?
    ensures a.Finite? && b.Finite? ==> r == Finite(a.value * b.value)
    ensures r.Finite? ==> a.Finite? && b.Finite?
  {
    if a.NaN? || b.NaN? then NaN
    else if a.Finite? && b.Finite? then Finite(a.value * b.value)
    else if a.Finite? then (if a.value == 0.0 then NaN else if a.value > 0.0 then b else Negate(b))
    else if b.Finite? then (if b.value == 0.0 then NaN else if b.value > 0.0 then a else Negate(a))
    else if a == b then PositiveInfinity
    else NegativeInfinity
  }

  /** `a / b` for a double `a`: a finite `a` divides as above, an infinity keeps or flips its sign, NaN stays NaN. */
  function DivideBy(a: Double, b: real): (r: Double)
    ensures a.Finite? ==> r == Divide(a.value, b)
    ensures a.NaN? ==> r.NaN?
    ensures a == PositiveInfinity && b >= 0.0 ==> r == PositiveInfinity
  {
    match a
    case Finite(v) => Divide(v, b)
    case NaN => NaN
    case PositiveInfinity => if b < 0.0 then NegativeInfinity else PositiveInfinity
    case NegativeInfinity => if b < 0.0 then PositiveInfinity else NegativeInfinity
  }

  /**
   * `root` is what `Math.sqrt` returns for `x`: the non-negative square root
   * of a non-negative finite value, +∞ for +∞, and NaN for NaN and for
   * anything negative.
   */
  predicate SquareRoot(root: Double, x: Double)
  {
    match x
    case Finite(v) =>
      if v >= 0.0 then root.Finite? && root.value >= 0.0 && root.value * root.value == v else root.NaN?
    case PositiveInfinity => root == PositiveInfinity
    case _ => root.NaN?
  }

  /** `Math.abs`. */
  function Abs(a: Double): (r: Double)
    ensures a.NaN? <==> r.NaN?
    ensures a.Finite? ==> r.Finite? && r.value >= 0.0 && (r.value == a.value || r.value == -a.value)
  {
    match a
    case Finite(v) => Finite(if v < 0.0 then -v else v)
    case NaN => NaN
    case _ => PositiveInfinity
  }

  /** `a / 2`. */
  function Half(a: Double): (r: Double)
    ensures a.NaN? <==> r.NaN?
    ensures a.Finite? ==> r == Finite(a.value / 2.0)
  {
    match a
    case Finite(v) => Finite(v / 2.0)
    case _ => a
  }

  /** Truncation toward zero of a real. */
  function Truncate(v: real): (n: int)
    ensures v >= 0.0 ==> n as real <= v < n as real + 1.0
    ensures v < 0.0 ==> n as real - 1.0 < v <= n as real
  {
    if v >= 0.0 then v.Floor else -((-v).Floor)
  }

  /** The `(int)` cast: NaN becomes 0, values beyond the `int` range saturate, others truncate toward zero. */
  function ToInt(a: Double): (n: int)
    ensures IntMin <= n <= IntMax
    ensures a.NaN? ==> n == 0
    ensures a.Finite? && a.value == a.value.Floor as real && IntMin <= a.value.Floor <= IntMax ==> n == a.value.Floor
  {
    match a
    case NaN => 0
    case PositiveInfinity => IntMax
    case NegativeInfinity => IntMin
    case Finite(v) =>
      var t := Truncate(v);
      if t < IntMin then IntMin else if t > IntMax then IntMax else t
  }
}
