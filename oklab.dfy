/**
 * OKLAB with floating components: every operation builds and returns a new value.
 * The cube roots, powers, sines and cosines come from a Libm parameter.
 */
module Oklab {
  import opened Numeric
  import opened Basic
  import opened Srgb

  datatype OklabValue = OklabValue(l: real, a: real, b: real) {

    /** adjust_lightness: L moved by delta and clamped to [0, 1]; a and b kept. */
    function AdjustLightness(delta: real): (r: OklabValue)
      ensures 0.0 <= r.l <= 1.0
      ensures r.a == a && r.b == b
      ensures 0.0 <= l + delta <= 1.0 ==> r.l == l + delta
      ensures l + delta < 0.0 ==> r.l == 0.0
      ensures 1.0 < l + delta ==> r.l == 1.0
    {
      OklabValue(ClampReal(l + delta, 0.0, 1.0), a, b)
    }

    /** adjust_chroma: a and b multiplied by the factor; L kept. */
    function AdjustChroma(factor: real): (r: OklabValue)
      ensures r.l == l
      ensures factor == 1.0 ==> r == this
      ensures factor == 0.0 ==> r == OklabValue(l, 0.0, 0.0)
    {
      OklabValue(l, a * factor, b * factor)
    }

    /** rotate_hue: the (a, b) plane turned by the angle; L kept. */
    function RotateHue(m: Libm, degrees: real): (r: OklabValue)
      ensures r.l == l
      ensures m.cos(degrees * PI / 180.0) == 1.0 && m.sin(degrees * PI / 180.0) == 0.0 ==> r == this
    {
      var radians := degrees * PI / 180.0;
      var cosH, sinH := m.cos(radians), m.sin(radians);
      OklabValue(l, a * cosH - b * sinH, a * sinH + b * cosH)
    }

    /** The squared Euclidean distance that distance takes the root of. */
    function SquaredDistance(o: OklabValue): (d: real)
      ensures 0.0 <= d
      ensures d == 0.0 <==> this == o
    {
      SumOfSquares(l - o.l, a - o.a, b - o.b);
      Sq(l - o.l) + Sq(a - o.a) + Sq(b - o.b)
    }

    /**
     * distance: the Euclidean distance of the three components. It is symmetric, and 0
     * from a colour to itself when sqrt(0) is 0.
     */
    function Distance(m: Libm, o: OklabValue): (r: real)
      ensures r == m.sqrt(o.SquaredDistance(this))
      ensures o == this && m.sqrt(0.0) == 0.0 ==> r == 0.0
    {
      Square(l - o.l);
      Square(a - o.a);
      Square(b - o.b);
      assert o.l - l == -(l - o.l) && o.a - a == -(a - o.a) && o.b - b == -(b - o.b);
      m.sqrt(SquaredDistance(o))
    }

    /** operator==: every component within the 1e-6 tolerance. */
    predicate Equals(o: OklabValue): (r: bool)
      ensures o == this ==> r
      ensures r <==> Near(o.l, l) && Near(o.a, a) && Near(o.b, b)
    {
      Near(l, o.l) && Near(a, o.a) && Near(b, o.b)
    }

    /** operator!=: the negation of operator==. */
    predicate NotEquals(o: OklabValue) {
      !Equals(o)
    }

    /** chroma: the length of (a, b). */
    function Chroma(m: Libm): real {
      m.sqrt(Sq(a) + Sq(b))
    }

    /** to_rgb: to LMS, cube, to linear RGB, the transfer curve, round and clamp; alpha is always 255. */
    function ToRGB(m: Libm): (c: RGB)
      ensures c.a == 255
    {
      var lmsL := Cube(l + 0.3963377774 * a + 0.2158037573 * b);
      var lmsM := Cube(l - 0.1055613458 * a - 0.0638541728 * b);
      var lmsS := Cube(l - 0.0894841775 * a - 1.2914855480 * b);
      var r := 4.0767416621 * lmsL - 3.3077115913 * lmsM + 0.2309699292 * lmsS;
      var g := -1.2684380046 * lmsL + 2.6097574011 * lmsM - 0.3413193965 * lmsS;
      var bl := -0.0041960863 * lmsL - 0.7034186147 * lmsM + 1.7076147010 * lmsS;
      RGB(EncodeChannel(m, r), EncodeChannel(m, g), EncodeChannel(m, bl), 255)
    }
  }

  /** fromRGB: linearize, to LMS, cube root, to OKLAB; the alpha is dropped. */
  function OklabOfRgb(m: Libm, c: RGB): (v: OklabValue)
    ensures c.r == c.g == c.b == 0 && m.cbrt(0.0) == 0.0 ==> v == OklabValue(0.0, 0.0, 0.0)
  {
    var r, g, b := ChannelToLinear(m, c.r), ChannelToLinear(m, c.g), ChannelToLinear(m, c.b);
    var lmsL := m.cbrt(0.4122214708 * r + 0.5363325363 * g + 0.0514459929 * b);
    var lmsM := m.cbrt(0.2119034982 * r + 0.6806995451 * g + 0.1073969566 * b);
    var lmsS := m.cbrt(0.0883024619 * r + 0.2817188376 * g + 0.6299787005 * b);
    OklabValue(0.2104542553 * lmsL + 0.7936177850 * lmsM - 0.0040720468 * lmsS,
               1.9779984951 * lmsL - 2.4285922050 * lmsM + 0.4505937099 * lmsS,
               0.0259040371 * lmsL + 0.7827717662 * lmsM - 0.8086757660 * lmsS)
  }

  /** distance is symmetric, and it is 0 on identical colours when sqrt(0) is 0. */
  lemma DistanceLaws(m: Libm, u: OklabValue, v: OklabValue)
    ensures u.Distance(m, v) == v.Distance(m, u)
    ensures m.sqrt(0.0) == 0.0 ==> u.Distance(m, u) == 0.0
  {
    Square(u.l - v.l);
    Square(u.a - v.a);
    Square(u.b - v.b);
    assert v.l - u.l == -(u.l - v.l) && v.a - u.a == -(u.a - v.a) && v.b - u.b == -(u.b - v.b);
  }

  /** operator== is reflexive and symmetric, and operator!= is its negation. */
  lemma EqualityLaws(u: OklabValue, v: OklabValue)
    ensures u.Equals(u)
    ensures u.Equals(v) <==> v.Equals(u)
    ensures u.NotEquals(v) <==> !u.Equals(v)
  {
    NearLaws(u.l, v.l);
    NearLaws(u.a, v.a);
    NearLaws(u.b, v.b);
  }

  /** Lightness adjustments: a zero delta keeps a lightness already in [0, 1]; two compose before clamping. */
  lemma AdjustLightnessLaws(v: OklabValue, d: real, e: real)
    ensures 0.0 <= v.l <= 1.0 ==> v.AdjustLightness(0.0) == v
    ensures 0.0 <= v.l + d <= 1.0 ==> v.AdjustLightness(d).AdjustLightness(e) == v.AdjustLightness(d + e)
  {
  }

  /** operator!= is false against itself, symmetric, and true exactly when some component is not within the tolerance. */
  lemma NotEqualsLaws(u: OklabValue, v: OklabValue)
    ensures !u.NotEquals(u)
    ensures u.NotEquals(v) <==> v.NotEquals(u)
    ensures u.NotEquals(v) <==> !Near(u.l, v.l) || !Near(u.a, v.a) || !Near(u.b, v.b)
  {
    NearLaws(u.l, v.l);
    NearLaws(u.a, v.a);
    NearLaws(u.b, v.b);
  }

  /** chroma is the distance to the gray of the same lightness, so 0 for a gray when sqrt(0) is 0. */
  lemma ChromaIsGrayDistance(m: Libm, v: OklabValue)
    ensures v.Chroma(m) == v.Distance(m, OklabValue(v.l, 0.0, 0.0))
    ensures v.a == 0.0 && v.b == 0.0 && m.sqrt(0.0) == 0.0 ==> v.Chroma(m) == 0.0
  {
    Square(v.a);
    Square(v.b);
  }

  /** Chroma factors compose multiplicatively. */
  lemma AdjustChromaCompose(v: OklabValue, f: real, g: real)
    ensures v.AdjustChroma(f).AdjustChroma(g) == v.AdjustChroma(f * g)
  {
    ProductAssociates(v.a, f, g, v.a * f * g);
    ProductAssociates(v.b, f, g, v.b * f * g);
  }

  lemma ProductAssociates(x: real, f: real, g: real, p: real)
    requires p == x * f * g
    ensures p == x * (f * g)
  {
  }
}
