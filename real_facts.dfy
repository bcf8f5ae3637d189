/** `Math.abs`, and single steps of real arithmetic that the solver proves one at
    a time but not when several are needed together. */
module RealFacts {

  /** `Math.abs` */
  function Abs(x: real): (r: real)
    ensures r >= 0.0 && (r == x || r == -x)
  {
    if x < 0.0 then -x else x
  }

  lemma DivSelf(d: real)
    requires d != 0.0
    ensures d / d == 1.0
  {
  }

  lemma DivLe(a: real, b: real, d: real)
    requires d > 0.0 && a <= b
    ensures a / d <= b / d
  {
  }

  lemma DivLt(a: real, b: real, d: real)
    requires d > 0.0 && a < b
    ensures a / d < b / d
  {
  }

  lemma MulLe(x: real, y: real, w: real)
    requires w >= 0.0 && x <= y
    ensures x * w <= y * w
  {
  }

  lemma MulLt(x: real, y: real, w: real)
    requires w > 0.0 && x < y
    ensures x * w < y * w
  {
  }

  lemma MulDiv(q: real, w: real)
    requires w != 0.0
    ensures q * w / w == q
  {
  }

  lemma MulNonZero(a: real, b: real)
    requires a != 0.0 && b != 0.0
    ensures a * b != 0.0
  {
  }

  lemma DivMulCancel(a: real, d: real)
    requires d != 0.0
    ensures a / d * d == a
  {
  }
}
