/** js/math-utils.js: the clamp, interpolation and colour helpers shared by the canvases. */
module MathUtils {
  import opened JsNumbers

  /** `clamp01`: the value forced into the unit interval. */
  function Clamp01(v: real): (r: real)
    ensures 0.0 <= r <= 1.0
    ensures 0.0 <= v <= 1.0 ==> r == v
    ensures v < 0.0 ==> r == 0.0
    ensures v > 1.0 ==> r == 1.0
  {
    Max(0.0, Min(1.0, v))
  }

  /** `lerp`: the point a fraction `t` of the way from `start` to `end`. */
  function Lerp(start: real, end: real, t: real): real
  {
    start + (end - start) * t
  }

  /** The interpolation meets both ends and stays between them on the unit interval. */
  lemma LerpBetween(start: real, end: real, t: real)
    requires 0.0 <= t <= 1.0
    ensures Lerp(start, end, 0.0) == start && Lerp(start, end, 1.0) == end
    ensures Min(start, end) <= Lerp(start, end, t) <= Max(start, end)
  {
    var d := end - start;
    MulUnit(d);
    assert Lerp(start, end, t) == start + d * t;
    if start <= end {
      MulBetween(d, t);
    } else {
      MulBetweenNegative(d, t);
    }
  }

  /** Moving `t` towards 1 moves the result towards `end`. */
  lemma LerpMonotone(start: real, end: real, t: real, u: real)
    requires t <= u
    ensures start <= end ==> Lerp(start, end, t) <= Lerp(start, end, u)
    ensures end <= start ==> Lerp(start, end, u) <= Lerp(start, end, t)
  {
    var d := end - start;
    assert d * u - d * t == d * (u - t);
    if start <= end {
      MulNonNegative(d, u - t);
    } else {
      MulNonNegative(-d, u - t);
      assert (-d) * (u - t) == -(d * (u - t));
    }
  }

  lemma MulUnit(a: real)
    ensures a * 0.0 == 0.0 && a * 1.0 == a
  {
  }

  lemma MulNonNegative(a: real, b: real)
    requires a >= 0.0 && b >= 0.0
    ensures a * b >= 0.0
  {
  }

  lemma NegateProduct(a: real, b: real)
    ensures (-a) * b == -(a * b)
  {
  }

  lemma MulBetween(a: real, t: real)
    requires a >= 0.0 && 0.0 <= t <= 1.0
    ensures 0.0 <= a * t <= a
  {
    MulNonNegative(a, t);
    MulNonNegative(a, 1.0 - t);
    assert a * (1.0 - t) == a - a * t;
  }

  lemma MulBetweenNegative(a: real, t: real)
    requires a <= 0.0 && 0.0 <= t <= 1.0
    ensures a <= a * t <= 0.0
  {
    MulBetween(-a, t);
    NegateProduct(a, t);
  }

  /** The colour `rgba(${rgb}, ${alpha})`, kept as its parts; the number's text form is not modelled. */
  datatype RgbaColor = RgbaColor(rgb: string, alpha: real)

  /** `rgba`: the channels passed through, the alpha clamped to the unit interval. */
  function Rgba(rgb: string, alpha: real): (c: RgbaColor)
    ensures c.rgb == rgb
    ensures 0.0 <= c.alpha <= 1.0
    ensures 0.0 <= alpha <= 1.0 ==> c.alpha == alpha
  {
    RgbaColor(rgb, Clamp01(alpha))
  }
}
