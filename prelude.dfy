/** Small value helpers shared by the matcher and the discrepancy detector. */
module Prelude {

  /** Python's `None` or a present value. */
  datatype Option<+T> = None | Some(value: T)

  /** Python's `abs` on numbers, with totals modelled as exact reals. */
  function Abs(x: real): (r: real)
    ensures r >= 0.0 && (r == x || r == -x)
  {
    if x < 0.0 then -x else x
  }

  /** Python's two-argument `max` on numbers. */
  function MaxReal(a: real, b: real): (r: real)
    ensures r >= a && r >= b && (r == a || r == b)
  {
    if a >= b then a else b
  }
}
