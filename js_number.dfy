/**
 * JavaScript numbers as the screens use them. A number is either a finite
 * value (kept exact, as a real: IEEE rounding is not modelled) or one of the
 * three non-finite values. Parsing text into a number (`Number(text)`) is not
 * part of this model: operations receive the parsed number.
 */
module JsNumber {

  datatype Num = Finite(value: real) | PosInfinity | NegInfinity | NaN

  predicate IsIntegral(x: real) {
    x.Floor as real == x
  }

  /** `Number.isFinite(n)` */
  predicate IsFinite(n: Num) {
    n.Finite?
  }

  /** `Math.floor(n)`: the largest integer not above a finite value; non-finite values are kept. */
  function Floor(n: Num): (r: Num)
    ensures r.Finite? <==> n.Finite?
    ensures r.Finite? ==> IsIntegral(r.value) && r.value <= n.value < r.value + 1.0
    ensures !n.Finite? ==> r == n
  {
    if n.Finite? then Finite(n.value.Floor as real) else n
  }

  /** `Math.max(0, n)`: NaN wins over 0, 0 wins over anything below it. */
  function Max0(n: Num): (r: Num)
    ensures r.NaN? <==> n.NaN?
    ensures r.Finite? ==> r.value >= 0.0
    ensures n.Finite? ==> r == Finite(if n.value < 0.0 then 0.0 else n.value)
    ensures n.NegInfinity? ==> r == Finite(0.0)
    ensures n.PosInfinity? ==> r == n
  {
    match n
    case Finite(v) => if v < 0.0 then Finite(0.0) else n
    case NegInfinity => Finite(0.0)
    case PosInfinity => n
    case NaN => n
  }
}
