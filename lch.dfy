/**
 * LCH, the polar form of LAB: lightness in [0, 100], chroma at least 0, hue in
 * degrees. The object (class LCH) is rewritten in place by normalize, which its
 * constructor and fromLAB run; the adjustments and harmonies build new values
 * through the constructor, so each returns a normalized value (LchValue).
 */
module Lch {
  import opened Numeric
  import opened Basic
  import opened Lab

  /** The three stored components of an LCH object. */
  datatype LchValue = LchValue(l: real, c: real, h: real) {

    predicate IsNormal() {
      0.0 <= l <= 100.0 && 0.0 <= c && 0.0 <= h < 360.0
    }

    /**
     * normalize: L clamped to [0, 100], C raised to at least 0, H wrapped into
     * [0, 360) when it is outside. A normal value is kept.
     */
    function Normalized(): (r: LchValue)
      ensures r.IsNormal()
      ensures r.l == ClampReal(l, 0.0, 100.0) && r.c == MaxReal(0.0, c) && r.h == WrapDegrees(h)
      ensures IsNormal() ==> r == this
    {
      WrapIfOutsideIsWrap(h);
      WrapDegreesNormalizes(h);
      LchValue(ClampReal(l, 0.0, 100.0), MaxReal(0.0, c), WrapDegreesIfOutside(h))
    }

    /** adjust_lightness: L moved by delta and clamped; C and H kept when already normal. */
    function AdjustLightness(delta: real): (r: LchValue)
      ensures r.IsNormal()
      ensures r.l == ClampReal(l + delta, 0.0, 100.0)
      ensures IsNormal() ==> r.c == c && r.h == h
    {
      LchValue(ClampReal(l + delta, 0.0, 100.0), c, h).Normalized()
    }

    /** adjust_chroma: C moved by delta and raised to at least 0; L and H kept when already normal. */
    function AdjustChroma(delta: real): (r: LchValue)
      ensures r.IsNormal()
      ensures r.c == MaxReal(0.0, c + delta)
      ensures IsNormal() ==> r.l == l && r.h == h
    {
      LchValue(l, MaxReal(0.0, c + delta), h).Normalized()
    }

    /** scale_chroma: C multiplied by the factor and raised to at least 0; L and H kept when already normal. */
    function ScaleChroma(factor: real): (r: LchValue)
      ensures r.IsNormal()
      ensures r.c == MaxReal(0.0, c * factor)
      ensures IsNormal() ==> r.l == l && r.h == h
    {
      LchValue(l, MaxReal(0.0, c * factor), h).Normalized()
    }

    /** rotate_hue: H moved by the angle and wrapped; L and C kept when already normal. */
    function RotateHue(degrees: real): (r: LchValue)
      ensures r.IsNormal()
      ensures r.h == WrapDegrees(h + degrees)
      ensures IsNormal() ==> r.l == l && r.c == c
    {
      LchValue(l, c, h + degrees).Normalized()
    }

    /** set_hue: H replaced by the wrapped angle; L and C kept when already normal. */
    function SetHue(degrees: real): (r: LchValue)
      ensures r.IsNormal()
      ensures r.h == WrapDegrees(degrees)
      ensures IsNormal() ==> r.l == l && r.c == c
    {
      LchValue(l, c, degrees).Normalized()
    }

    /** complement: the hue turned by 180 degrees. */
    function Complement(): (r: LchValue)
      ensures r.IsNormal() && r.h == WrapDegrees(h + 180.0)
      ensures IsNormal() ==> r.l == l && r.c == c && AbsReal(r.h - h) == 180.0
    {
      RotateHue(180.0)
    }

    /** analogous: the hue turned by -30 and +30 degrees. */
    function Analogous(): (r: (LchValue, LchValue))
      ensures r.0.IsNormal() && r.0.h == WrapDegrees(h + -30.0)
      ensures r.1.IsNormal() && r.1.h == WrapDegrees(h + 30.0)
      ensures IsNormal() ==> r.0.l == l && r.0.c == c && r.1.l == l && r.1.c == c
    {
      (RotateHue(-30.0), RotateHue(30.0))
    }

    /** triadic: the hue turned by 120 and 240 degrees. */
    function Triadic(): (r: (LchValue, LchValue))
      ensures r.0.IsNormal() && r.0.h == WrapDegrees(h + 120.0)
      ensures r.1.IsNormal() && r.1.h == WrapDegrees(h + 240.0)
      ensures IsNormal() ==> r.0.l == l && r.0.c == c && r.1.l == l && r.1.c == c
    {
      (RotateHue(120.0), RotateHue(240.0))
    }

    /** split_complementary: the hue turned by 150 and 210 degrees. */
    function SplitComplementary(): (r: (LchValue, LchValue))
      ensures r.0.IsNormal() && r.0.h == WrapDegrees(h + 150.0)
      ensures r.1.IsNormal() && r.1.h == WrapDegrees(h + 210.0)
      ensures IsNormal() ==> r.0.l == l && r.0.c == c && r.1.l == l && r.1.c == c
    {
      (RotateHue(150.0), RotateHue(210.0))
    }

    /** tetradic: the hue turned by 90, 180 and 270 degrees. */
    function Tetradic(): (r: (LchValue, LchValue, LchValue))
      ensures r.0.IsNormal() && r.0.h == WrapDegrees(h + 90.0)
      ensures r.1.IsNormal() && r.1.h == WrapDegrees(h + 180.0)
      ensures r.2.IsNormal() && r.2.h == WrapDegrees(h + 270.0)
      ensures IsNormal() ==> r.0.l == l && r.0.c == c && r.1.l == l && r.1.c == c && r.2.l == l && r.2.c == c
    {
      (RotateHue(90.0), RotateHue(180.0), RotateHue(270.0))
    }

    /** operator==: every component within the 1e-6 tolerance. */
    predicate Equals(o: LchValue): (r: bool)
      ensures o == this ==> r
      ensures r <==> Near(o.l, l) && Near(o.c, c) && Near(o.h, h)
    {
      Near(l, o.l) && Near(c, o.c) && Near(h, o.h)
    }

    /** operator!=: the negation of operator==, so some component differs by the tolerance or more. */
    predicate NotEquals(o: LchValue): (r: bool)
      ensures o == this ==> !r
      ensures r <==> !Near(o.l, l) || !Near(o.c, c) || !Near(o.h, h)
    {
      !Equals(o)
    }

    /**
     * distance: the lightness and chroma differences, and the hue difference folded
     * onto the shorter arc and weighted by the chroma; 0 from a colour to itself when
     * sqrt(0) and sin(0) are 0.
     */
    function Distance(m: Libm, o: LchValue): (r: real)
      ensures o == this && m.sqrt(0.0) == 0.0 && m.sin(0.0) == 0.0 ==> r == 0.0
    {
      var dh := FoldHue(h - o.h);
      var avgC := (c + o.c) / 2.0;
      var weighted := 2.0 * m.sqrt(avgC * o.c) * m.sin(dh * PI / 360.0);
      m.sqrt(Sq(l - o.l) + Sq(c - o.c) + Sq(weighted))
    }

    /** to_lab: the polar form back to rectangular a and b; alpha 255. */
    function ToLab(m: Libm): (lab: LabValue)
      ensures lab.l == l && lab.alpha == 255.0
    {
      var radians := h * PI / 180.0;
      LabValue(l, c * m.cos(radians), c * m.sin(radians), 255.0)
    }

    /** to_rgb: through LAB; the result is always opaque. */
    function ToRGB(m: Libm): (rgb: RGB)
      ensures rgb.a == 255
    {
      ToLab(m).ToRGB(m)
    }
  }

  /**
   * distance's hue folding: a difference of more than 180 degrees either way is
   * replaced by the same angle the other way round.
   */
  function FoldHue(dh: real): (r: real)
    ensures r == dh || r == dh - 360.0 || r == dh + 360.0
    ensures -540.0 <= dh <= 540.0 ==> -180.0 <= r <= 180.0
    ensures -180.0 <= dh <= 180.0 ==> r == dh
  {
    if AbsReal(dh) > 180.0 then (if dh > 0.0 then dh - 360.0 else dh + 360.0) else dh
  }

  /** fromLAB before normalize: the length and angle of (a, b), a negative angle turned once. */
  function PolarOfLab(m: Libm, lab: LabValue): LchValue {
    var hue := m.atan2(lab.b, lab.a) * 180.0 / PI;
    LchValue(lab.l, m.sqrt(Sq(lab.a) + Sq(lab.b)), if hue < 0.0 then hue + 360.0 else hue)
  }

  /** fromLAB: normalized whatever sqrt and atan2 return. */
  function LchOfLab(m: Libm, lab: LabValue): (v: LchValue)
    ensures v.IsNormal()
    ensures 0.0 <= lab.l <= 100.0 ==> v.l == lab.l
  {
    PolarOfLab(m, lab).Normalized()
  }

  /** fromRGB: fromLAB of LAB's fromRGB. */
  function LchOfRgb(m: Libm, rgb: RGB): (v: LchValue)
    ensures v.IsNormal()
  {
    LchOfLab(m, LabOfRgb(m, rgb))
  }

  /** normalize is idempotent, and LCH(400, -10, 450) is (100, 0, 90). */
  lemma NormalizeLaws(v: LchValue)
    ensures v.Normalized().Normalized() == v.Normalized()
    ensures LchValue(400.0, -10.0, 450.0).Normalized() == LchValue(100.0, 0.0, 90.0)
  {
    WrapDegreesNear(450.0);
  }

  /** Two rotations compose into one. */
  lemma {:induction false} RotationsCompose(v: LchValue, a: real, b: real)
    ensures v.RotateHue(a).RotateHue(b) == v.RotateHue(a + b)
  {
    WrapDegreesAdd(v.h + a, b);
    assert v.h + a + b == v.h + (a + b);
  }

  /** The complement of the complement of a normal value is the value itself. */
  lemma ComplementTwice(v: LchValue)
    requires v.IsNormal()
    ensures v.Complement().Complement() == v
  {
    RotationsCompose(v, 180.0, 180.0);
    FloorMod360Shift(v.h, 1);
    WrapDegreesIsFloorMod(v.h + 360.0);
    WrapDegreesNormalizes(v.h);
    WrapDegreesIsFloorMod(v.h);
  }

  /** The complement's hue lies exactly 180 degrees from a normal value's hue. */
  lemma ComplementOpposite(v: LchValue)
    requires v.IsNormal()
    ensures AbsReal(v.Complement().h - v.h) == 180.0
  {
    WrapDegreesNear(v.h + 180.0);
  }

  /** A rotation by an angle strictly between 0 and 360 degrees changes a normal hue. */
  lemma RotationChangesHue(v: LchValue, degrees: real)
    requires v.IsNormal()
    requires -360.0 < degrees < 360.0 && degrees != 0.0
    ensures v.RotateHue(degrees).h != v.h
  {
    WrapDegreesNear(v.h + degrees);
  }

  /** Every harmony member is a different hue from the base, as long as the base is normal. */
  lemma HarmoniesChangeHue(v: LchValue)
    requires v.IsNormal()
    ensures v.Complement().h != v.h
    ensures v.Analogous().0.h != v.h && v.Analogous().1.h != v.h
    ensures v.Triadic().0.h != v.h && v.Triadic().1.h != v.h
    ensures v.SplitComplementary().0.h != v.h && v.SplitComplementary().1.h != v.h
    ensures v.Tetradic().0.h != v.h && v.Tetradic().1.h != v.h && v.Tetradic().2.h != v.h
  {
    RotationChangesHue(v, 180.0);
    RotationChangesHue(v, -30.0);
    RotationChangesHue(v, 30.0);
    RotationChangesHue(v, 120.0);
    RotationChangesHue(v, 240.0);
    RotationChangesHue(v, 150.0);
    RotationChangesHue(v, 210.0);
    RotationChangesHue(v, 90.0);
    RotationChangesHue(v, 270.0);
  }

  /**
   * For normal values the folded hue difference is at most 180 degrees either way,
   * and the distance of a colour to itself is 0 when sqrt(0) and sin(0) are 0.
   */
  lemma DistanceLaws(m: Libm, u: LchValue, v: LchValue)
    requires u.IsNormal() && v.IsNormal()
    ensures -180.0 <= FoldHue(u.h - v.h) <= 180.0
    ensures m.sqrt(0.0) == 0.0 && m.sin(0.0) == 0.0 ==> u.Distance(m, u) == 0.0
  {
    Square(0.0);
  }

  /** operator== is reflexive and symmetric, and operator!= is its negation. */
  lemma EqualityLaws(u: LchValue, v: LchValue)
    ensures u.Equals(u)
    ensures u.Equals(v) <==> v.Equals(u)
    ensures u.NotEquals(v) <==> !u.Equals(v)
  {
    NearLaws(u.l, v.l);
    NearLaws(u.c, v.c);
    NearLaws(u.h, v.h);
  }

  /** An LCH object: three floating components rewritten in place. */
  class LCH {
    var l: real
    var c: real
    var h: real

    function Value(): LchValue
      reads this
    {
      LchValue(l, c, h)
    }

    /** LCH(): all zero. */
    constructor ()
      ensures Value() == LchValue(0.0, 0.0, 0.0)
    {
      l, c, h := 0.0, 0.0, 0.0;
    }

    /** LCH(l, c, h): the components as given, then normalize. */
    constructor FromComponents(l0: real, c0: real, h0: real)
      ensures Value() == LchValue(l0, c0, h0).Normalized()
    {
      l, c, h := l0, c0, h0;
      new;
      Normalize();
    }

    /** normalize: clamp L, raise C to 0, wrap H when it is outside [0, 360). */
    method Normalize()
      modifies this
      ensures Value() == old(Value()).Normalized()
    {
      l := ClampReal(l, 0.0, 100.0);
      c := MaxReal(0.0, c);
      if h < 0.0 || h >= 360.0 {
        h := FMod(h, 360.0);
        if h < 0.0 {
          h := h + 360.0;
        }
      }
    }

    /** fromLAB: a zero object filled with the polar form, a negative hue turned once, then normalized. */
    static method FromLAB(m: Libm, lab: LabValue) returns (out: LCH)
      ensures fresh(out)
      ensures out.Value() == LchOfLab(m, lab)
    {
      out := new LCH();
      out.l := lab.l;
      out.c := m.sqrt(Sq(lab.a) + Sq(lab.b));
      out.h := m.atan2(lab.b, lab.a) * 180.0 / PI;
      if out.h < 0.0 {
        out.h := out.h + 360.0;
      }
      assert out.Value() == PolarOfLab(m, lab);
      out.Normalize();
    }

    /** fromRGB: LAB's fromRGB, then fromLAB. */
    static method FromRGB(m: Libm, rgb: RGB) returns (out: LCH)
      ensures fresh(out)
      ensures out.Value() == LchOfRgb(m, rgb)
    {
      out := FromLAB(m, LabOfRgb(m, rgb));
    }
  }
}
