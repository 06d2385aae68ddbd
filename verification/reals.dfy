/**
  Small facts about exact reals shared by the opacity buckets and the hit test.
*/
module Reals {

  /** `Math.abs`. */
  function Abs(x: real): (a: real)
    ensures 0.0 <= a && (a == x || a == -x)
  {
    if x < 0.0 then -x else x
  }

  /** `x * x <= y * y` for non-negative `y` bounds `x` on both sides by `y`. */
  lemma SquareBound(x: real, y: real)
    requires 0.0 <= y && x * x <= y * y
    ensures -y <= x <= y
  {
    assert y < x ==> y * y <= y * x < x * x;
    assert x < -y ==> y * y <= y * -x < x * x;
  }
}
