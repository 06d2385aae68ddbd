/**
  The easing curve of the zoom animation (`animate`, src/utils/map.js:311-330),
  on exact reals.

  `progress` milliseconds after the first animation frame, the blend factor
  is `progress / 250` capped at 1 (there is no lower cap), eased by the cubic
  `λ·(0.4 + λ·(2.2 − 1.6·λ))`, and every sprite's scale is set to
  `current + eased·(target − current)`.
*/
module Easing {

  /** `delta`: the length of the animation in milliseconds. */
  const Duration: real := 250.0

  /** `progress / delta`, capped at 1. */
  function Lambda(progress: real): (l: real)
    ensures l <= 1.0
    ensures Duration <= progress ==> l == 1.0
    ensures 0.0 <= progress ==> 0.0 <= l
    ensures progress == 0.0 ==> l == 0.0
  {
    if progress / Duration > 1.0 then 1.0 else progress / Duration
  }

  /** `lambda *= 0.4 + lambda * (2.2 + lambda * -1.6)`. */
  function Ease(l: real): real {
    l * (0.4 + l * (2.2 + l * -1.6))
  }

  /** The product of two non-negative reals is non-negative. */
  lemma ProductNonNegative(x: real, y: real)
    requires 0.0 <= x && 0.0 <= y
    ensures 0.0 <= x * y
  {
  }

  /** The difference of two eased values factors through the difference of the inputs. */
  lemma EaseDifference(a: real, b: real)
    ensures Ease(b) - Ease(a) == (b - a) * (0.4 + 2.2 * (a + b) - 1.6 * (a * a + a * b + b * b))
  {
    assert Ease(a) == 0.4 * a + 2.2 * (a * a) - 1.6 * (a * (a * a));
    assert Ease(b) == 0.4 * b + 2.2 * (b * b) - 1.6 * (b * (b * b));
  }

  /** The second factor stays non-negative on the unit square. */
  lemma EaseSlopeNonNegative(a: real, b: real)
    requires 0.0 <= a <= b <= 1.0
    ensures 0.0 <= 0.4 + 2.2 * (a + b) - 1.6 * (a * a + a * b + b * b)
  {
    ProductNonNegative(a, 1.0 - a);
    ProductNonNegative(b, 1.0 - b);
    ProductNonNegative(a, 1.0 - b);
    assert a * a <= a && b * b <= b && a * b <= a;
  }

  /** The eased value never decreases over the animation. */
  lemma EaseMonotone(a: real, b: real)
    requires 0.0 <= a <= b <= 1.0
    ensures Ease(a) <= Ease(b)
  {
    EaseDifference(a, b);
    EaseSlopeNonNegative(a, b);
    ProductNonNegative(b - a, 0.4 + 2.2 * (a + b) - 1.6 * (a * a + a * b + b * b));
  }

  /** The curve starts at 0, ends at 1 and stays within [0, 1] in between. */
  lemma EaseRange(l: real)
    requires 0.0 <= l <= 1.0
    ensures 0.0 <= Ease(l) <= 1.0
    ensures l == 0.0 ==> Ease(l) == 0.0
    ensures l == 1.0 ==> Ease(l) == 1.0
  {
    EaseMonotone(0.0, l);
    EaseMonotone(l, 1.0);
  }

  /** `current + lambda * (target - current)`. */
  function Blend(current: real, target: real, e: real): real {
    current + e * (target - current)
  }

  /** A blend by a factor within [0, 1] lies between its two end points, and is at
      either end point when the factor is 0 or 1. */
  lemma BlendBetween(current: real, target: real, e: real)
    requires 0.0 <= e <= 1.0
    ensures current <= target ==> current <= Blend(current, target, e) <= target
    ensures target <= current ==> target <= Blend(current, target, e) <= current
    ensures e == 0.0 ==> Blend(current, target, e) == current
    ensures e == 1.0 ==> Blend(current, target, e) == target
  {
    if current <= target {
      ProductNonNegative(e, target - current);
      ProductNonNegative(1.0 - e, target - current);
      assert e * (target - current) <= 1.0 * (target - current);
    } else {
      ProductNonNegative(e, current - target);
      ProductNonNegative(1.0 - e, current - target);
      assert e * (current - target) <= 1.0 * (current - target);
    }
  }

  /** The scale of a sprite `progress` milliseconds into an animation from `current` to
      `target`: exactly `current` at the start, exactly `target` once the duration has
      elapsed, and between the two meanwhile. */
  function AnimatedScale(current: real, target: real, progress: real): (s: real)
    ensures progress == 0.0 ==> s == current
    ensures Duration <= progress ==> s == target
    ensures 0.0 <= progress && current <= target ==> current <= s <= target
    ensures 0.0 <= progress && target <= current ==> target <= s <= current
  {
    var e := Ease(Lambda(progress));
    if 0.0 <= progress then
      EaseRange(Lambda(progress));
      BlendBetween(current, target, e);
      Blend(current, target, e)
    else
      Blend(current, target, e)
  }

  /** Later frames never move the scale back towards `current`: the animation is monotone. */
  lemma AnimatedScaleMonotone(current: real, target: real, p: real, q: real)
    requires 0.0 <= p <= q
    ensures current <= target ==> AnimatedScale(current, target, p) <= AnimatedScale(current, target, q)
    ensures target <= current ==> AnimatedScale(current, target, q) <= AnimatedScale(current, target, p)
  {
    var a, b := Lambda(p), Lambda(q);
    assert a <= b;
    EaseMonotone(a, b);
    var d := Ease(b) - Ease(a);
    assert AnimatedScale(current, target, q) - AnimatedScale(current, target, p) == d * (target - current) by {
      assert AnimatedScale(current, target, q) == current + Ease(b) * (target - current);
      assert AnimatedScale(current, target, p) == current + Ease(a) * (target - current);
    }
    assert 0.0 <= d;
    if current <= target {
      ProductNonNegative(d, target - current);
    } else {
      ProductNonNegative(d, current - target);
      assert d * (target - current) == -(d * (current - target));
    }
  }
}
