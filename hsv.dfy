/**
 * HSV with floating components: hue in degrees, saturation and value in [0, 1].
 * The object (class HSV) is rewritten in place by normalize, adjust_brightness and
 * adjust_saturation; fromRGB fills a fresh object and normalizes it. to_rgb is a
 * function of the value (HsvValue).
 */
module Hsv {
  import opened Results
  import opened Numeric
  import opened Text
  import opened Basic

  /** The 1e-6f threshold fromRGB uses for "no spread" and "black". */
  const EPSILON: real := 0.000001

  /** The three stored components of an HSV object. */
  datatype HsvValue = HsvValue(h: real, s: real, v: real) {

    predicate IsNormal() {
      0.0 <= h < 360.0 && 0.0 <= s <= 1.0 && 0.0 <= v <= 1.0
    }

    /**
     * normalize: the hue wrapped into [0, 360) when it is outside, s and v clamped to
     * [0, 1]. The guard on the wrap changes nothing, and a normal value is kept.
     */
    function Normalized(): (r: HsvValue)
      ensures r.IsNormal()
      ensures r.h == WrapDegrees(h) && r.s == ClampReal(s, 0.0, 1.0) && r.v == ClampReal(v, 0.0, 1.0)
      ensures IsNormal() ==> r == this
    {
      WrapIfOutsideIsWrap(h);
      WrapDegreesNormalizes(h);
      HsvValue(WrapDegreesIfOutside(h), ClampReal(s, 0.0, 1.0), ClampReal(v, 0.0, 1.0))
    }

    /** to_rgb: chroma C = v·s, the sector of the hue places C, X and 0; alpha is always 255. */
    function ToRGB(): (c: RGB)
      ensures c.a == 255
      ensures s == 0.0 ==> c.r == c.g == c.b == RoundByte(v * 255.0)
      ensures h < 60.0 || 300.0 <= h ==> c.r == RoundByte(v * 255.0)
      ensures 60.0 <= h < 180.0 ==> c.g == RoundByte(v * 255.0)
      ensures 180.0 <= h < 300.0 ==> c.b == RoundByte(v * 255.0)
      ensures 120.0 <= h < 240.0 ==> c.r == RoundByte((v - v * s) * 255.0)
      ensures h < 120.0 ==> c.b == RoundByte((v - v * s) * 255.0)
      ensures 240.0 <= h ==> c.g == RoundByte((v - v * s) * 255.0)
    {
      var chroma := Chroma(v, s);
      var x := SecondLargest(h, chroma);
      var m := v - chroma;
      var p := Sector(h, chroma, x);
      assert (chroma + m) * 255.0 == v * 255.0 && (0.0 + m) * 255.0 == (v - v * s) * 255.0;
      RGB(RoundByte((p.0 + m) * 255.0), RoundByte((p.1 + m) * 255.0), RoundByte((p.2 + m) * 255.0), 255)
    }
  }

  /** to_rgb's chroma C = v·s. */
  function Chroma(v: real, s: real): (c: real)
    ensures s == 0.0 ==> c == 0.0
  {
    v * s
  }

  /** to_rgb's second component X = C·(1 - |fmod(h/60, 2) - 1|). */
  function SecondLargest(h: real, chroma: real): (x: real)
    ensures chroma == 0.0 ==> x == 0.0
  {
    chroma * (1.0 - AbsReal(FMod(h / 60.0, 2.0) - 1.0))
  }

  /** The six 60-degree sectors of to_rgb: each places C, X and 0 in a different order. */
  function Sector(h: real, c: real, x: real): (p: (real, real, real))
    ensures multiset{p.0, p.1, p.2} == multiset{c, x, 0.0}
    ensures h < 60.0 ==> p == (c, x, 0.0)
    ensures 300.0 <= h ==> p == (c, 0.0, x)
    ensures 60.0 <= h < 180.0 ==> p.1 == c
    ensures 180.0 <= h < 300.0 ==> p.2 == c
    ensures 120.0 <= h < 240.0 ==> p.0 == 0.0
    ensures h < 120.0 ==> p.2 == 0.0
    ensures 240.0 <= h ==> p.1 == 0.0
    ensures c == 0.0 && x == 0.0 ==> p == (0.0, 0.0, 0.0)
  {
    if h < 60.0 then (c, x, 0.0)
    else if h < 120.0 then (x, c, 0.0)
    else if h < 180.0 then (0.0, c, x)
    else if h < 240.0 then (0.0, x, c)
    else if h < 300.0 then (x, 0.0, c)
    else (c, 0.0, x)
  }

  /**
   * The law of adjust_brightness and adjust_saturation on one component x: the delta
   * clamped to [-1, 1] moves x that fraction of the way toward 1 when positive, toward 0
   * otherwise, and the result is clamped to [0, 1].
   */
  function AdjustUnit(x: real, delta: real): (y: real)
    ensures 0.0 <= y <= 1.0
    ensures 0.0 <= x <= 1.0 && delta == 0.0 ==> y == x
    ensures 1.0 <= delta ==> y == 1.0
    ensures delta <= -1.0 ==> y == 0.0
    ensures 0.0 <= x <= 1.0 && 0.0 < delta ==> x <= y
    ensures 0.0 <= x <= 1.0 && delta < 0.0 ==> y <= x
  {
    var d := ClampReal(delta, -1.0, 1.0);
    MoveLaw(x, d, Moved(x, d));
    ClampReal(Moved(x, d), 0.0, 1.0)
  }

  /** The unclamped move of x by a delta d in [-1, 1]. */
  function Moved(x: real, d: real): real {
    if d > 0.0 then x + d * (1.0 - x) else x + d * x
  }

  /** Where the unclamped move lands, by the sign of the delta. */
  lemma MoveLaw(x: real, d: real, moved: real)
    requires -1.0 <= d <= 1.0
    requires moved == if d > 0.0 then x + d * (1.0 - x) else x + d * x
    ensures d == 1.0 ==> moved == 1.0
    ensures d == -1.0 ==> moved == 0.0
    ensures d == 0.0 ==> moved == x
    ensures 0.0 <= x <= 1.0 ==> 0.0 <= moved <= 1.0
    ensures 0.0 <= x <= 1.0 && 0.0 < d ==> x <= moved
    ensures 0.0 <= x <= 1.0 && d < 0.0 ==> moved <= x
  {
    if 0.0 <= x <= 1.0 {
      if d > 0.0 {
        ProductNonNegative(d, 1.0 - x);
        ProductNonNegative(1.0 - d, 1.0 - x);
      } else {
        ProductNonNegative(-d, x);
        ProductNonNegative(1.0 + d, x);
      }
    }
  }

  /** For a component already in [0, 1] the final clamp never bites: the move is the asymptotic law itself. */
  lemma AdjustUnitUnclamped(x: real, delta: real)
    requires 0.0 <= x <= 1.0
    ensures var d := ClampReal(delta, -1.0, 1.0);
            AdjustUnit(x, delta) == if d > 0.0 then x + d * (1.0 - x) else x + d * x
  {
    var d := ClampReal(delta, -1.0, 1.0);
    MoveLaw(x, d, Moved(x, d));
    assert AdjustUnit(x, delta) == Moved(x, d);
  }

  /**
   * fromRGB's hue before normalize: the sector of the largest channel, shifted into
   * [0, 360) -- so normalize has nothing left to wrap. A gray has hue 0; a red
   * maximum lies within 60 degrees of 0, a green one in [60, 180], a blue one in [180, 300].
   */
  function HsvHue(c: RGB): (hue: real)
    ensures 0.0 <= hue < 360.0
    ensures IsGray(c) ==> hue == 0.0
    ensures !IsGray(c) && c.r == MaxChannel(c) ==> hue <= 60.0 || 300.0 <= hue
    ensures !IsGray(c) && c.r != MaxChannel(c) && c.g == MaxChannel(c) ==> 60.0 <= hue <= 180.0
    ensures !IsGray(c) && c.r != MaxChannel(c) && c.g != MaxChannel(c) ==> 180.0 <= hue <= 300.0
  {
    var rf, gf, bf := Unit(c.r), Unit(c.g), Unit(c.b);
    var mx, delta := MaxUnit(c), MaxUnit(c) - MinUnit(c);
    SpreadOfChromatic(c);
    var hue :=
      if delta < EPSILON then 0.0
      else if mx == rf then (RatioInUnit(gf - bf, delta); FModSmall((gf - bf) / delta); 60.0 * FMod((gf - bf) / delta, 6.0))
      else if mx == gf then (RatioInUnit(bf - rf, delta); 60.0 * ((bf - rf) / delta + 2.0))
      else (RatioInUnit(rf - gf, delta); 60.0 * ((rf - gf) / delta + 4.0));
    if hue < 0.0 then hue + 360.0 else hue
  }

  /** fromRGB's saturation: the spread over the maximum, 0 for black; in [0, 1], and 0 exactly for grays. */
  function HsvSaturation(c: RGB): (s: real)
    ensures 0.0 <= s <= 1.0
    ensures s == 0.0 <==> IsGray(c)
  {
    SpreadOfChromatic(c);
    if MaxUnit(c) < EPSILON then 0.0
    else (RatioInUnit(MaxUnit(c) - MinUnit(c), MaxUnit(c)); (MaxUnit(c) - MinUnit(c)) / MaxUnit(c))
  }

  /** A chromatic colour's spread, and so its maximum, is at least one step of 1/255. */
  lemma SpreadOfChromatic(c: RGB)
    ensures IsGray(c) <==> MaxUnit(c) == MinUnit(c)
    ensures !IsGray(c) ==> 1.0 / 255.0 <= MaxUnit(c) - MinUnit(c) <= MaxUnit(c)
  {
  }

  /** A quotient whose numerator is within the positive denominator either way lies in [-1, 1]. */
  lemma RatioInUnit(x: real, d: real)
    requires 0.0 < d && -d <= x <= d
    ensures -1.0 <= x / d <= 1.0
    ensures 0.0 < x ==> 0.0 < x / d
  {
  }

  /** fmod by 6 leaves a value in [-1, 1] as it is. */
  lemma FModSmall(x: real)
    requires -1.0 <= x <= 1.0
    ensures FMod(x, 6.0) == x
  {
  }

  /** fromRGB: hue, saturation and the maximum as value, normalized; the alpha is dropped. */
  function HsvOfRgb(c: RGB): (v: HsvValue)
    ensures v.IsNormal()
  {
    HsvValue(HsvHue(c), HsvSaturation(c), MaxUnit(c)).Normalized()
  }

  /** fromRGB of a gray gives h = 0, s = 0 and v = r/255. */
  lemma FromRgbGray(c: RGB)
    requires IsGray(c)
    ensures HsvOfRgb(c) == HsvValue(0.0, 0.0, c.r as real / 255.0)
  {
    assert MaxChannel(c) == MinChannel(c) == c.r;
    assert HsvHue(c) == 0.0;
    assert HsvSaturation(c) == 0.0;
  }

  /** A gray survives fromRGB followed by to_rgb, made opaque. */
  lemma GrayRoundTrip(c: RGB)
    requires IsGray(c)
    ensures HsvOfRgb(c).ToRGB() == c.WithAlpha(255)
  {
    FromRgbGray(c);
    assert (c.r as real / 255.0) * 255.0 == c.r as real;
    assert Round(c.r as real) == c.r;
  }

  /** The test colour HSV(240, 1, 1) is pure blue. */
  lemma BlueExample()
    ensures HsvValue(240.0, 1.0, 1.0).ToRGB() == RGB(0, 0, 255, 255)
  {
    assert Trunc(4.0 / 2.0) == 2;
    assert FMod(240.0 / 60.0, 2.0) == 0.0;
  }

  /** An HSV object: three floating components rewritten in place. */
  class HSV {
    var h: real
    var s: real
    var v: real

    function Value(): HsvValue
      reads this
    {
      HsvValue(h, s, v)
    }

    /** HSV(): all zero. */
    constructor ()
      ensures Value() == HsvValue(0.0, 0.0, 0.0)
    {
      h, s, v := 0.0, 0.0, 0.0;
    }

    /** HSV(h, s, v): the components as given, then normalize. */
    constructor FromComponents(h0: real, s0: real, v0: real)
      ensures Value() == HsvValue(h0, s0, v0).Normalized()
    {
      h, s, v := h0, s0, v0;
      new;
      Normalize();
    }

    /** normalize: wrap the hue when it is outside [0, 360), clamp s and v. */
    method Normalize()
      modifies this
      ensures Value() == old(Value()).Normalized()
    {
      if h < 0.0 || h >= 360.0 {
        h := FMod(h, 360.0);
        if h < 0.0 {
          h := h + 360.0;
        }
      }
      s := ClampReal(s, 0.0, 1.0);
      v := ClampReal(v, 0.0, 1.0);
    }

    /** adjust_brightness: v moved toward 1 or 0 by the clamped delta; h and s unchanged. */
    method AdjustBrightness(delta: real)
      modifies this
      ensures v == AdjustUnit(old(v), delta)
      ensures h == old(h) && s == old(s)
    {
      var d := ClampReal(delta, -1.0, 1.0);
      if d > 0.0 {
        v := ClampReal(v + d * (1.0 - v), 0.0, 1.0);
      } else {
        v := ClampReal(v + d * v, 0.0, 1.0);
      }
    }

    /** adjust_saturation: s moved toward 1 or 0 by the clamped delta; h and v unchanged. */
    method AdjustSaturation(delta: real)
      modifies this
      ensures s == AdjustUnit(old(s), delta)
      ensures h == old(h) && v == old(v)
    {
      var d := ClampReal(delta, -1.0, 1.0);
      if d > 0.0 {
        s := ClampReal(s + d * (1.0 - s), 0.0, 1.0);
      } else {
        s := ClampReal(s + d * s, 0.0, 1.0);
      }
    }

    /** fromRGB: fills a zero object component by component, then normalizes. */
    static method FromRGB(c: RGB) returns (out: HSV)
      ensures fresh(out)
      ensures out.Value() == HsvOfRgb(c)
    {
      out := new HSV();
      out.h := HsvHue(c);
      out.s := HsvSaturation(c);
      out.v := MaxUnit(c);
      out.Normalize();
    }

    /** HSV(const std::string&): the RGB string constructor, then fromRGB. */
    static method Parse(text: string, stod: Stod) returns (res: Result<HSV, ParseError>)
      ensures res.Ok? <==> ParsedColor(text, stod).Ok?
      ensures res.Err? ==> ParsedColor(text, stod) == Err(res.error)
      ensures res.Ok? ==> fresh(res.value) && res.value.Value() == HsvOfRgb(ParsedColor(text, stod).value)
    {
      var rgb := ParseColor(text, stod);
      if rgb.Err? {
        return Err(rgb.error);
      }
      var out := FromRGB(rgb.value);
      return Ok(out);
    }
  }
}
