/** Linear interpolation, used to blend key-frame transforms. */
module Transforms {
  /** `lerp(v0, v1, t) = (1 - t) * v0 + t * v1`; `t` is not clamped. */
  function Lerp(v0: real, v1: real, t: real): (r: real)
    ensures t == 0.0 ==> r == v0
    ensures t == 1.0 ==> r == v1
    ensures v0 == v1 ==> r == v0
    ensures t == 0.5 ==> r == (v0 + v1) / 2.0
  {
    (1.0 - t) * v0 + t * v1
  }

  /** For `t` in [0, 1] the result lies between the two end values, whichever is larger. */
  lemma LerpBetween(v0: real, v1: real, t: real)
    requires 0.0 <= t <= 1.0
    ensures v0 <= v1 ==> v0 <= Lerp(v0, v1, t) <= v1
    ensures v1 <= v0 ==> v1 <= Lerp(v0, v1, t) <= v0
  {
    var gap := v1 - v0;
    assert Lerp(v0, v1, t) == v0 + t * gap;
    if gap >= 0.0 {
      assert t * gap >= 0.0;
      var rest := 1.0 - t;
      assert rest * gap >= 0.0;
      assert gap - t * gap == rest * gap;
    } else {
      assert t * -gap >= 0.0;
      var rest := 1.0 - t;
      assert rest * -gap >= 0.0;
      assert gap - t * gap == -(rest * -gap);
    }
  }
}
