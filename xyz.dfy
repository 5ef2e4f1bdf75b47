/**
 * CIE XYZ with floating components. The object (class XYZ) is rewritten in place by
 * normalize; fromRGB fills a fresh object. Conversions go through the sRGB curve and
 * matrices of module Srgb with `pow` as a parameter.
 */
module Xyz {
  import opened Numeric
  import opened Basic
  import opened Srgb

  /** The three stored components of an XYZ object. */
  datatype XyzValue = XyzValue(x: real, y: real, z: real) {

    /** normalize: every component raised to at least 0, with no upper bound. */
    function Normalized(): (r: XyzValue)
      ensures 0.0 <= r.x && 0.0 <= r.y && 0.0 <= r.z
      ensures r.x == MaxReal(0.0, x) && r.y == MaxReal(0.0, y) && r.z == MaxReal(0.0, z)
      ensures 0.0 <= x && 0.0 <= y && 0.0 <= z ==> r == this
    {
      XyzValue(MaxReal(0.0, x), MaxReal(0.0, y), MaxReal(0.0, z))
    }

    /** luminance: the Y component. */
    function Luminance(): real {
      y
    }

    /** operator==: every component within the 1e-6 tolerance. */
    predicate Equals(o: XyzValue): (r: bool)
      ensures o == this ==> r
      ensures r <==> Near(o.x, x) && Near(o.y, y) && Near(o.z, z)
    {
      Near(x, o.x) && Near(y, o.y) && Near(z, o.z)
    }

    /** operator!=: the negation of operator==. */
    predicate NotEquals(o: XyzValue) {
      !Equals(o)
    }

    /** to_rgb as written: X divided by 95.047, Y by 100 and Z by 108.883; alpha is always 255. */
    function ToRGBAsWritten(m: Libm): (c: RGB)
      ensures c.a == 255
      ensures x == y == z == 0.0 ==> c == RGB(0, 0, 0, 255)
    {
      RgbOfScaled(m, this, SOURCE_SCALE)
    }

    /** to_rgb corrected to the D65 scale of 100 on every component; alpha is always 255. */
    function ToRGBD65(m: Libm): (c: RGB)
      ensures c.a == 255
      ensures x == y == z == 0.0 ==> c == RGB(0, 0, 0, 255)
    {
      RgbOfScaled(m, this, D65_SCALE)
    }
  }

  /** The per-component factors fromRGB multiplies by, as written. */
  const SOURCE_SCALE := Triple(95.047, 100.0, 108.883)

  /** The corrected factor, which puts white at the D65 white point (95.047, 100, 108.883). */
  const D65_SCALE := Triple(100.0, 100.0, 100.0)

  /** The scale is a triple of positive factors. */
  predicate PositiveScale(s: Triple) {
    0.0 < s.x && 0.0 < s.y && 0.0 < s.z
  }

  /** fromRGB's matrix output multiplied componentwise by a scale. */
  function XyzOfRgbScaled(m: Libm, c: RGB, s: Triple): XyzValue {
    Scaled(LinearToXyz(ChannelToLinear(m, c.r), ChannelToLinear(m, c.g), ChannelToLinear(m, c.b)), s)
  }

  /** A triple multiplied componentwise by a scale. */
  function Scaled(t: Triple, s: Triple): XyzValue {
    XyzValue(t.x * s.x, t.y * s.y, t.z * s.z)
  }

  /** to_rgb's first step: each component divided by its scale factor. */
  function Unscaled(v: XyzValue, s: Triple): Triple
    requires PositiveScale(s)
  {
    Triple(v.x / s.x, v.y / s.y, v.z / s.z)
  }

  /** to_rgb: unscale, the inverse matrix, the transfer curve, round and clamp each channel. */
  function RgbOfScaled(m: Libm, v: XyzValue, s: Triple): (c: RGB)
    requires PositiveScale(s)
    ensures c.a == 255
  {
    var n := Unscaled(v, s);
    var lin := XyzToLinear(n.x, n.y, n.z);
    RGB(EncodeChannel(m, lin.x), EncodeChannel(m, lin.y), EncodeChannel(m, lin.z), 255)
  }

  /** fromRGB exactly as written: the matrix output times (95.047, 100, 108.883). */
  function XyzOfRgbAsWritten(m: Libm, c: RGB): (v: XyzValue)
    ensures c.r == c.g == c.b == 0 ==> v == XyzValue(0.0, 0.0, 0.0)
  {
    XyzOfRgbScaled(m, c, SOURCE_SCALE)
  }

  /** fromRGB corrected to the D65 scale: the matrix output times 100. */
  function XyzOfRgbD65(m: Libm, c: RGB): (v: XyzValue)
    ensures c.r == c.g == c.b == 0 ==> v == XyzValue(0.0, 0.0, 0.0)
  {
    XyzOfRgbScaled(m, c, D65_SCALE)
  }

  /**
   * to_rgb divides by the same factors fromRGB multiplies by, so either scale hands
   * the inverse matrix exactly the forward matrix's output.
   */
  lemma UnscaleRecoversMatrix(m: Libm, c: RGB, s: Triple)
    requires PositiveScale(s)
    ensures Unscaled(XyzOfRgbScaled(m, c, s), s)
         == LinearToXyz(ChannelToLinear(m, c.r), ChannelToLinear(m, c.g), ChannelToLinear(m, c.b))
  {
    UnscaleScaled(LinearToXyz(ChannelToLinear(m, c.r), ChannelToLinear(m, c.g), ChannelToLinear(m, c.b)), s);
  }

  /** Dividing by a positive scale undoes multiplying by it. */
  lemma UnscaleScaled(t: Triple, s: Triple)
    requires PositiveScale(s)
    ensures Unscaled(Scaled(t, s), s) == t
  {
    var v := Scaled(t, s);
    CancelScale(t.x, s.x, v.x);
    CancelScale(t.y, s.y, v.y);
    CancelScale(t.z, s.z, v.z);
  }

  lemma CancelScale(v: real, f: real, p: real)
    requires 0.0 < f && p == v * f
    ensures p / f == v
  {
  }

  /**
   * As written, white does not land on the D65 white point the type documents:
   * X is about 90.34 instead of 95.047 and Z about 118.55 instead of 108.883.
   */
  lemma WhiteAsWritten(m: Libm)
    requires m.pow(1.0, 2.4) == 1.0
    ensures var w := XyzOfRgbAsWritten(m, RGB(255, 255, 255, 255));
            w.x < 90.34 && 118.5 < w.z && w.z > 108.883
  {
    assert ChannelToLinear(m, 255) == 1.0;
  }

  /** With the D65 scale, white is the D65 white point (Y up to the matrix's seventh decimal). */
  lemma WhiteIsD65(m: Libm)
    requires m.pow(1.0, 2.4) == 1.0
    ensures XyzOfRgbD65(m, RGB(255, 255, 255, 255)) == XyzValue(95.047, 100.00001, 108.883)
  {
    assert ChannelToLinear(m, 255) == 1.0;
  }

  /**
   * The scale does not change the round trip: fromRGB then to_rgb gives the same
   * colour with the factors as written and with the corrected ones.
   */
  lemma RoundTripUnaffectedByScale(m: Libm, c: RGB)
    ensures XyzOfRgbAsWritten(m, c).ToRGBAsWritten(m) == XyzOfRgbD65(m, c).ToRGBD65(m)
  {
    UnscaleRecoversMatrix(m, c, SOURCE_SCALE);
    UnscaleRecoversMatrix(m, c, D65_SCALE);
  }

  /**
   * luminance is Y, and Y is scaled by 100 either way, so the scale factors leave
   * it alone; white has luminance 100 up to the matrix's seventh decimal.
   */
  lemma LuminanceOfRgb(m: Libm, c: RGB)
    ensures XyzOfRgbAsWritten(m, c).Luminance() == XyzOfRgbD65(m, c).Luminance()
    ensures m.pow(1.0, 2.4) == 1.0 ==> XyzOfRgbAsWritten(m, RGB(255, 255, 255, c.a)).Luminance() == 100.00001
  {
    var t := LinearToXyz(ChannelToLinear(m, c.r), ChannelToLinear(m, c.g), ChannelToLinear(m, c.b));
    assert XyzOfRgbAsWritten(m, c).y == t.y * 100.0 == XyzOfRgbD65(m, c).y;
    if m.pow(1.0, 2.4) == 1.0 {
      assert ChannelToLinear(m, 255) == 1.0;
      assert LinearToXyz(1.0, 1.0, 1.0).y == 1.0000001;
    }
  }

  /**
   * luminance of a converted colour lies in [0, 100] up to the matrix's seventh
   * decimal, provided pow keeps [0, 1] in [0, 1].
   */
  lemma LuminanceBounded(m: Libm, c: RGB)
    requires forall u :: 0.0 <= u <= 1.0 ==> 0.0 <= m.pow(u, 2.4) <= 1.0
    ensures 0.0 <= XyzOfRgbAsWritten(m, c).Luminance() <= 100.00001
  {
    LinearInUnit(m, c.r);
    LinearInUnit(m, c.g);
    LinearInUnit(m, c.b);
  }

  /** A linearized channel lies in [0, 1] when pow keeps [0, 1] in [0, 1]. */
  lemma LinearInUnit(m: Libm, x: Byte)
    requires forall u :: 0.0 <= u <= 1.0 ==> 0.0 <= m.pow(u, 2.4) <= 1.0
    ensures 0.0 <= ChannelToLinear(m, x) <= 1.0
  {
    var u := x as real / 255.0;
    if 0.04045 < u {
      assert 0.0 <= (u + 0.055) / 1.055 <= 1.0;
    }
  }

  /**
   * normalize is idempotent; the luminance it leaves is never negative and is Y when Y
   * already was; (-10, 50, 200) becomes (0, 50, 200).
   */
  lemma NormalizeLaws(v: XyzValue)
    ensures v.Normalized().Normalized() == v.Normalized()
    ensures 0.0 <= v.Normalized().Luminance()
    ensures 0.0 <= v.y ==> v.Normalized().Luminance() == v.Luminance()
    ensures XyzValue(-10.0, 50.0, 200.0).Normalized() == XyzValue(0.0, 50.0, 200.0)
  {
  }

  /** operator== is reflexive and symmetric, and operator!= is its negation. */
  lemma EqualityLaws(u: XyzValue, v: XyzValue)
    ensures u.Equals(u)
    ensures u.Equals(v) <==> v.Equals(u)
    ensures u.NotEquals(v) <==> !u.Equals(v)
  {
    NearLaws(u.x, v.x);
    NearLaws(u.y, v.y);
    NearLaws(u.z, v.z);
  }
  /** operator!= is false against itself, symmetric, and true exactly when some component is not within the tolerance. */
  lemma NotEqualsLaws(u: XyzValue, v: XyzValue)
    ensures !u.NotEquals(u)
    ensures u.NotEquals(v) <==> v.NotEquals(u)
    ensures u.NotEquals(v) <==> !Near(u.x, v.x) || !Near(u.y, v.y) || !Near(u.z, v.z)
  {
    NearLaws(u.x, v.x);
    NearLaws(u.y, v.y);
    NearLaws(u.z, v.z);
  }


  /** An XYZ object: three floating components rewritten in place. */
  class XYZ {
    var x: real
    var y: real
    var z: real

    function Value(): XyzValue
      reads this
    {
      XyzValue(x, y, z)
    }

    /** XYZ(): all zero. */
    constructor ()
      ensures Value() == XyzValue(0.0, 0.0, 0.0)
    {
      x, y, z := 0.0, 0.0, 0.0;
    }

    /** XYZ(x, y, z): the components as given, not normalized. */
    constructor FromComponents(x0: real, y0: real, z0: real)
      ensures Value() == XyzValue(x0, y0, z0)
    {
      x, y, z := x0, y0, z0;
    }

    /** normalize: each component replaced by max(0, component). */
    method Normalize()
      modifies this
      ensures Value() == old(Value()).Normalized()
    {
      x := MaxReal(0.0, x);
      y := MaxReal(0.0, y);
      z := MaxReal(0.0, z);
    }

    /** fromRGB: a zero object filled with the matrix output, then scaled as written. */
    static method FromRGB(m: Libm, c: RGB) returns (out: XYZ)
      ensures fresh(out)
      ensures out.Value() == XyzOfRgbAsWritten(m, c)
    {
      var t := LinearToXyz(ChannelToLinear(m, c.r), ChannelToLinear(m, c.g), ChannelToLinear(m, c.b));
      out := new XYZ();
      out.x, out.y, out.z := t.x, t.y, t.z;
      out.x := out.x * SOURCE_SCALE.x;
      out.y := out.y * SOURCE_SCALE.y;
      out.z := out.z * SOURCE_SCALE.z;
    }
  }
}
