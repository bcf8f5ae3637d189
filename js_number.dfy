/** JavaScript numbers as far as the modelled formulas need them.  Finite values are
    exact reals (floating-point rounding is not modelled); the three non-finite values
    are kept because several formulas divide by a span or a cosine that may be zero,
    and `Math.min` / `Math.max` then propagate them.  Zero is always taken to be +0:
    every divisor here is a difference `a - b` or a product with a positive constant,
    and IEEE subtraction of equal values gives +0. */
module JsNumber {

  datatype Num = Fin(v: real) | PosInf | NegInf | NaN

  /** The order of non-NaN numbers: -Infinity < every finite value < +Infinity. */
  predicate Le(a: Num, b: Num)
    requires !a.NaN? && !b.NaN?
  {
    match (a, b)
    case (NegInf, _) => true
    case (_, PosInf) => true
    case (Fin(x), Fin(y)) => x <= y
    case _ => false
  }

  /** True when the number is +Infinity or a positive finite value. */
  predicate Positive(a: Num) {
    a.PosInf? || (a.Fin? && a.v > 0.0)
  }

  /** `a / b` */
  function Div(a: Num, b: Num): (r: Num)
    ensures a.Fin? && b.Fin? && b.v != 0.0 ==> r == Fin(a.v / b.v)
    ensures r.Fin? ==> a.Fin?
  {
    match (a, b)
    case (NaN, _) => NaN
    case (_, NaN) => NaN
    case (Fin(x), Fin(y)) =>
      if y != 0.0 then Fin(x / y)
      else if x > 0.0 then PosInf
      else if x < 0.0 then NegInf
      else NaN
    case (Fin(_), _) => Fin(0.0)
    case (_, Fin(y)) =>
      if a.PosInf? == (y >= 0.0) then PosInf else NegInf
    case _ => NaN
  }

  /** `a * b` */
  function Mul(a: Num, b: Num): (r: Num)
    ensures a.Fin? && b.Fin? ==> r == Fin(a.v * b.v)
    ensures r.Fin? ==> a.Fin? && b.Fin?
  {
    if a.NaN? || b.NaN? then NaN
    else if a.Fin? && b.Fin? then Fin(a.v * b.v)
    else if (a.Fin? && a.v == 0.0) || (b.Fin? && b.v == 0.0) then NaN
    else if Positive(a) == Positive(b) then PosInf
    else NegInf
  }

  /** `a + c` for a finite constant `c` */
  function AddReal(a: Num, c: real): (r: Num)
    ensures r.Fin? <==> a.Fin?
    ensures r.NaN? <==> a.NaN?
  {
    if a.Fin? then Fin(a.v + c) else a
  }

  /** `Math.floor(a)` */
  function Floor(a: Num): (r: Num)
    ensures r.Fin? <==> a.Fin?
    ensures r.NaN? <==> a.NaN?
    ensures r.Fin? ==> r.v == r.v.Floor as real
  {
    if a.Fin? then Fin(a.v.Floor as real) else a
  }

  /** `Math.min(a, b)` */
  function Min(a: Num, b: Num): (r: Num)
    ensures r.NaN? <==> a.NaN? || b.NaN?
    ensures !r.NaN? ==> (r == a || r == b) && Le(r, a) && Le(r, b)
  {
    if a.NaN? || b.NaN? then NaN else if Le(a, b) then a else b
  }

  /** `Math.max(a, b)` */
  function Max(a: Num, b: Num): (r: Num)
    ensures r.NaN? <==> a.NaN? || b.NaN?
    ensures !r.NaN? ==> (r == a || r == b) && Le(a, r) && Le(b, r)
  {
    if a.NaN? || b.NaN? then NaN else if Le(a, b) then b else a
  }

  /** `r` clamped to `[lo, hi]` in exact arithmetic. */
  function ClampReal(lo: real, hi: real, r: real): (c: real) {
    if r < lo then lo else if r > hi then hi else r
  }

  /** `Math.max(lo, Math.min(hi, x))`: the clamp the source writes around every
      computed size and zoom level.  It is NaN exactly when `x` is, and otherwise a
      finite value in `[lo, hi]`, equal to `x` when `x` already lies there. */
  function Clamp(lo: real, hi: real, x: Num): (r: Num)
    requires lo <= hi
    ensures r.NaN? <==> x.NaN?
    ensures !x.NaN? ==> r.Fin? && lo <= r.v <= hi
    ensures x.Fin? && lo <= x.v <= hi ==> r == x
    ensures x.Fin? ==> r == Fin(ClampReal(lo, hi, x.v))
  {
    Max(Fin(lo), Min(Fin(hi), x))
  }
}
