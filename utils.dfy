/**
 * The linear rescale of utils.js (`scale`), stated over exact reals.
 * `Math.round` rounds to the nearest integer with halves going up,
 * which is `Floor(v + 1/2)`.
 */
module Utils {

  /** JavaScript's Math.round over exact reals. */
  function Round(v: real): (r: int)
    ensures v - 0.5 < r as real <= v + 0.5
  {
    (v + 0.5).Floor
  }

  /** The exact linear interpolation that `scale` rounds. */
  function Interpolate(num: real, inMin: real, inMax: real, outMin: real, outMax: real): real
    requires inMax != inMin
  {
    (num - inMin) * (outMax - outMin) / (inMax - inMin) + outMin
  }

  /**
   * `scale(num, inMin, inMax, outMin, outMax)`: the nearest integer (halves up)
   * to the point that divides [outMin, outMax] in the ratio that `num`
   * divides [inMin, inMax]. The source divides by `inMax - inMin` unguarded.
   */
  function Scale(num: real, inMin: real, inMax: real, outMin: real, outMax: real): (r: int)
    requires inMax != inMin
    ensures var exact := Interpolate(num, inMin, inMax, outMin, outMax);
      exact - 0.5 < r as real <= exact + 0.5
  {
    Round(Interpolate(num, inMin, inMax, outMin, outMax))
  }

  /** Rounding an integer gives it back. */
  lemma RoundInt(k: int)
    ensures Round(k as real) == k
  {
  }

  /** Rounding is monotone. */
  lemma RoundMonotone(u: real, v: real)
    requires u <= v
    ensures Round(u) <= Round(v)
  {
  }

  /** The left end of the input range maps to an integral left end of the output range. */
  lemma ScaleAtInMin(inMin: real, inMax: real, outMin: int, outMax: real)
    requires inMax != inMin
    ensures Scale(inMin, inMin, inMax, outMin as real, outMax) == outMin
  {
    assert Interpolate(inMin, inMin, inMax, outMin as real, outMax) == outMin as real;
    RoundInt(outMin);
  }

  /** The right end of the input range maps to an integral right end of the output range. */
  lemma ScaleAtInMax(inMin: real, inMax: real, outMin: real, outMax: int)
    requires inMax != inMin
    ensures Scale(inMax, inMin, inMax, outMin, outMax as real) == outMax
  {
    var w := inMax - inMin;
    var d := outMax as real - outMin;
    assert w * d / w == d;
    assert Interpolate(inMax, inMin, inMax, outMin, outMax as real) == outMax as real;
    RoundInt(outMax);
  }

  /** The midpoint of the input range maps to the rounded midpoint of the output range. */
  lemma ScaleAtMidpoint(inMin: real, inMax: real, outMin: real, outMax: real)
    requires inMax != inMin
    ensures Scale((inMin + inMax) / 2.0, inMin, inMax, outMin, outMax) == Round((outMin + outMax) / 2.0)
  {
    var w := inMax - inMin;
    var d := outMax - outMin;
    assert (inMin + inMax) / 2.0 - inMin == w / 2.0;
    assert (w / 2.0) * d / w == d / 2.0;
    assert Interpolate((inMin + inMax) / 2.0, inMin, inMax, outMin, outMax) == (outMin + outMax) / 2.0;
  }

  /** On an increasing input range and a non-decreasing output range, `scale` is non-decreasing. */
  lemma ScaleMonotone(a: real, b: real, inMin: real, inMax: real, outMin: real, outMax: real)
    requires inMin < inMax && outMin <= outMax && a <= b
    ensures Scale(a, inMin, inMax, outMin, outMax) <= Scale(b, inMin, inMax, outMin, outMax)
  {
    var w := inMax - inMin;
    var d := outMax - outMin;
    var t := d / w;
    assert t >= 0.0;
    assert (a - inMin) * d / w == (a - inMin) * t;
    assert (b - inMin) * d / w == (b - inMin) * t;
    assert (a - inMin) * t <= (b - inMin) * t;
    assert Interpolate(a, inMin, inMax, outMin, outMax) == (a - inMin) * t + outMin;
    assert Interpolate(b, inMin, inMax, outMin, outMax) == (b - inMin) * t + outMin;
    RoundMonotone(Interpolate(a, inMin, inMax, outMin, outMax), Interpolate(b, inMin, inMax, outMin, outMax));
  }
}
