/** Integer helpers shared by the detector model: the C++ float-to-int cast and a minimum. */
module Numeric {

  /** The C++ conversion `(int)x` of a floating value: truncation toward zero
      (rounding of the floating product itself is not modelled). */
  function Trunc(x: real): (r: int)
    ensures 0.0 <= x ==> 0 <= r && r as real <= x < r as real + 1.0
    ensures x < 0.0 ==> r <= 0 && r as real - 1.0 < x <= r as real
  {
    if x >= 0.0 then x.Floor else -((-x).Floor)
  }

  function Min(a: int, b: int): (r: int)
    ensures r <= a && r <= b
    ensures r == a || r == b
  {
    if a <= b then a else b
  }
}
