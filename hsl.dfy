/**
 * HSL with a fixed-point hue: h counts hundredths of a degree and is kept in [0, 36000)
 * by the wrap ((h % 36000) + 36000) % 36000; saturation, lightness and alpha are bytes.
 * The object form (class HSL) carries the in-place steps of the source: the constructors,
 * normalize(), the CSS parser that assigns the fields, and fromRGB. The const members,
 * which copy the object, change one field and return the copy, are functions on the
 * four-field value HslValue.
 */
module Hsl {
  import opened Results
  import opened Numeric
  import opened Text
  import opened Basic

  /** One full turn, in hundredths of a degree. */
  const TURN: int := 36000

  /** ((x % 36000) + 36000) % 36000 with C++'s truncating remainder: the non-negative residue. */
  function WrapHue(x: int): (w: int)
    ensures 0 <= w < TURN
    ensures w == x % TURN
  {
    RemShifted(x);
    Rem(Rem(x, TURN) + TURN, TURN)
  }

  /** Adding one turn to the truncating remainder lands on the Euclidean residue. */
  lemma RemShifted(a: int)
    ensures 0 <= Rem(a, TURN) + TURN
    ensures (Rem(a, TURN) + TURN) % TURN == a % TURN
  {
    if a < 0 {
      var q, r := (-a) / TURN, (-a) % TURN;
      assert -a == TURN * q + r;
      assert Rem(a, TURN) + TURN == a + TURN * (q + 1);
    }
  }

  /** A hue already in [0, 36000) is its own residue. */
  lemma WrappedHue(x: int)
    requires 0 <= x < TURN
    ensures x % TURN == x
  {
  }

  /** The wrap is insensitive to whole turns added before it. */
  lemma ModShift(a: int, b: int)
    ensures (a % TURN + b) % TURN == (a + b) % TURN
  {
    var q := a / TURN;
    assert a == TURN * q + a % TURN;
    assert a % TURN + b == (a + b) - TURN * q;
  }

  /** A hue in degrees as a double, wrapped into [0, 360) and scaled to hundredths. */
  function HueOfDegrees(x: real): (h: U16)
    ensures h < TURN
    ensures h as real <= FloorMod360(x) * 100.0 < h as real + 1.0
  {
    WrapDegreesIsFloorMod(x);
    CastU16(WrapDegrees(x) * 100.0)
  }

  /** static_cast<uint8_t>(std::clamp(x, 0.0, 1.0) * 255). */
  function UnitByte(x: real): (b: Byte)
    ensures x <= 0.0 ==> b == 0
    ensures 1.0 <= x ==> b == 255
    ensures 0.0 <= x <= 1.0 ==> b as real <= x * 255.0 < b as real + 1.0
  {
    CastByte(ClampReal(x, 0.0, 1.0) * 255.0)
  }

  /** Replaces a hue delta in degrees by the whole hundredths static_cast<int> keeps. */
  function HueDelta(degrees: real): int {
    Trunc(degrees * 100.0)
  }

  /** A delta that is a whole number of hundredths of a degree. */
  predicate WholeHundredths(degrees: real) {
    (degrees * 100.0).Floor as real == degrees * 100.0
  }

  /** The four stored fields of an HSL object; the const members act on this value. */
  datatype HslValue = HslValue(h: U16, s: Byte, l: Byte, alpha: Byte) {

    /** adjust_hue: the hue moves by the truncated delta in hundredths, modulo a full turn. */
    function AdjustHue(degrees: real): (r: HslValue)
      ensures r.h == (h + HueDelta(degrees)) % TURN
      ensures r.s == s && r.l == l && r.alpha == alpha
    {
      HslValue(WrapHue(h + HueDelta(degrees)), s, l, alpha)
    }

    /** adjust_saturation: s scaled by the factor, clamped to [0, 255]. */
    function AdjustSaturation(factor: real): (r: HslValue)
      ensures 0.0 <= factor <= 1.0 ==> r.s <= s
      ensures 1.0 <= factor ==> s <= r.s
      ensures factor == 1.0 ==> r == this
      ensures factor <= 0.0 ==> r.s == 0
      ensures r.h == h && r.l == l && r.alpha == alpha
    {
      HslValue(h, ScaledByte(s, factor), l, alpha)
    }

    /** adjust_lightness: l scaled by the factor, clamped to [0, 255]. */
    function AdjustLightness(factor: real): (r: HslValue)
      ensures 0.0 <= factor <= 1.0 ==> r.l <= l
      ensures 1.0 <= factor ==> l <= r.l
      ensures factor == 1.0 ==> r == this
      ensures factor <= 0.0 ==> r.l == 0
      ensures r.h == h && r.s == s && r.alpha == alpha
    {
      HslValue(h, s, ScaledByte(l, factor), alpha)
    }

    /** saturate: s moves up by amount·255, truncated and clamped to [0, 255]. */
    function Saturate(amount: real): (r: HslValue)
      ensures 0.0 <= amount ==> s <= r.s
      ensures amount <= 0.0 ==> r.s <= s
      ensures 1.0 <= amount ==> r.s == 255
      ensures amount == 0.0 ==> r == this
      ensures r.h == h && r.l == l && r.alpha == alpha
    {
      HslValue(h, ShiftedByte(s, amount), l, alpha)
    }

    /** desaturate: s moves down by amount·255, truncated and clamped to [0, 255]. */
    function Desaturate(amount: real): (r: HslValue)
      ensures 0.0 <= amount ==> r.s <= s
      ensures 1.0 <= amount ==> r.s == 0
      ensures r == Saturate(-amount)
    {
      HslValue(h, ShiftedByte(s, -amount), l, alpha)
    }

    /** lighten: l moves up by amount·255, truncated and clamped to [0, 255]. */
    function Lighten(amount: real): (r: HslValue)
      ensures 0.0 <= amount ==> l <= r.l
      ensures amount <= 0.0 ==> r.l <= l
      ensures 1.0 <= amount ==> r.l == 255
      ensures amount == 0.0 ==> r == this
      ensures r.h == h && r.s == s && r.alpha == alpha
    {
      HslValue(h, s, ShiftedByte(l, amount), alpha)
    }

    /** darken: l moves down by amount·255, truncated and clamped to [0, 255]. */
    function Darken(amount: real): (r: HslValue)
      ensures 0.0 <= amount ==> r.l <= l
      ensures 1.0 <= amount ==> r.l == 0
      ensures r == Lighten(-amount)
    {
      HslValue(h, s, ShiftedByte(l, -amount), alpha)
    }

    /** complement: half a turn round the wheel. */
    function Complement(): (r: HslValue)
      ensures r.h == (h + 18000) % TURN
      ensures r.s == s && r.l == l && r.alpha == alpha
    {
      AdjustHue(180.0)
    }

    /** triadic: this colour, then a third and two thirds of a turn further. */
    function Triadic(): (r: seq<HslValue>)
      ensures |r| == 3 && r[0] == this
      ensures r[1].h == (h + 12000) % TURN && r[2].h == (h + 24000) % TURN
      ensures forall i :: 0 <= i < 3 ==> r[i].s == s && r[i].l == l && r[i].alpha == alpha
    {
      [this, AdjustHue(120.0), AdjustHue(240.0)]
    }

    /** analogous: the two neighbours at -angle and +angle, this colour in the middle. */
    function Analogous(angle: real): (r: seq<HslValue>)
      ensures |r| == 3 && r[1] == this
      ensures r[0].h == (h - HueDelta(angle)) % TURN && r[2].h == (h + HueDelta(angle)) % TURN
      ensures forall i :: 0 <= i < 3 ==> r[i].s == s && r[i].l == l && r[i].alpha == alpha
    {
      TruncNegate(angle * 100.0);
      assert -angle * 100.0 == -(angle * 100.0);
      [AdjustHue(-angle), this, AdjustHue(angle)]
    }

    /** split_complementary: this colour, then the two sides of its complement. */
    function SplitComplementary(angle: real): (r: seq<HslValue>)
      ensures |r| == 3 && r[0] == this
      ensures r[1].h == (h + HueDelta(180.0 - angle)) % TURN && r[2].h == (h + HueDelta(180.0 + angle)) % TURN
      ensures forall i :: 0 <= i < 3 ==> r[i].s == s && r[i].l == l && r[i].alpha == alpha
    {
      [this, AdjustHue(180.0 - angle), AdjustHue(180.0 + angle)]
    }

    /** to_rgb: a gray of lightness l when s is 0, otherwise the hue_to_rgb construction. */
    function ToRGB(): (c: RGB)
      ensures c.a == alpha
      ensures s == 0 ==> c == RGB(l, l, l, alpha)
    {
      if s == 0 then RGB(l, l, l, alpha)
      else
        var ln := l as real / 255.0;
        var sn := s as real / 255.0;
        var q := if ln < 0.5 then ln * (1.0 + sn) else ln + sn - ln * sn;
        var p := 2.0 * ln - q;
        var hn := (h as real / 100.0) / 360.0;
        RGB(RoundByte(HueToRgb(p, q, hn + 1.0 / 3.0) * 255.0),
            RoundByte(HueToRgb(p, q, hn) * 255.0),
            RoundByte(HueToRgb(p, q, hn - 1.0 / 3.0) * 255.0),
            alpha)
    }
  }

  /** static_cast<uint8_t>(std::clamp(x * factor, 0.0, 255.0)). */
  function ScaledByte(x: Byte, factor: real): (b: Byte)
    ensures 0.0 <= factor <= 1.0 ==> b <= x
    ensures 1.0 <= factor ==> x <= b
    ensures factor == 1.0 ==> b == x
    ensures factor <= 0.0 ==> b == 0
  {
    var v := x as real * factor;
    ScaleRange(x as real, factor, v);
    ScaledBetween(x, factor, v);
    CastByte(ClampReal(v, 0.0, 255.0))
  }

  /** Where a non-negative x times a factor falls, by the size of the factor. */
  lemma ScaleRange(x: real, factor: real, v: real)
    requires 0.0 <= x && v == x * factor
    ensures 0.0 <= factor <= 1.0 ==> 0.0 <= v <= x
    ensures 1.0 <= factor ==> x <= v
    ensures factor <= 0.0 ==> v <= 0.0
  {
    if 0.0 <= factor <= 1.0 {
      ProductNonNegative(x, factor);
      ProductNonNegative(x, 1.0 - factor);
    } else if 1.0 <= factor {
      ProductNonNegative(x, factor - 1.0);
    } else {
      ProductNonNegative(x, -factor);
    }
  }

  /** The clamped cast of a scaled byte, by the size of the factor. */
  lemma ScaledBetween(x: Byte, factor: real, v: real)
    requires 0.0 <= factor <= 1.0 ==> 0.0 <= v <= x as real
    requires 1.0 <= factor ==> x as real <= v
    requires factor <= 0.0 ==> v <= 0.0
    ensures 0.0 <= factor <= 1.0 ==> CastByte(ClampReal(v, 0.0, 255.0)) <= x
    ensures 1.0 <= factor ==> x <= CastByte(ClampReal(v, 0.0, 255.0))
    ensures factor <= 0.0 ==> CastByte(ClampReal(v, 0.0, 255.0)) == 0
  {
    if 0.0 <= factor <= 1.0 {
      CastByteBetween(ClampReal(v, 0.0, 255.0), 0, x);
    } else if 1.0 <= factor {
      CastByteBetween(ClampReal(v, 0.0, 255.0), x, 255);
    }
  }

  /** std::clamp(static_cast<int>(x + amount * 255), 0, 255). */
  function ShiftedByte(x: Byte, amount: real): (b: Byte)
    ensures 0.0 <= amount ==> x <= b
    ensures amount <= 0.0 ==> b <= x
    ensures 1.0 <= amount ==> b == 255
    ensures amount <= -1.0 ==> b == 0
    ensures amount == 0.0 ==> b == x
  {
    Clamp(Trunc(x as real + amount * 255.0), 0, 255)
  }

  /** A C++ conversion to int is symmetric about zero. */
  lemma TruncNegate(x: real)
    ensures Trunc(-x) == -Trunc(x)
  {
  }

  /** The delta of a whole number of hundredths is exact. */
  lemma WholeDelta(degrees: real)
    requires WholeHundredths(degrees)
    ensures HueDelta(degrees) as real == degrees * 100.0
  {
  }

  /** The hue_to_rgb lambda of to_rgb: one channel of the piecewise-linear hue profile. */
  function HueToRgb(p: real, q: real, t: real): real {
    var t1 := if t < 0.0 then t + 1.0 else t;
    var t2 := if t1 > 1.0 then t1 - 1.0 else t1;
    if t2 < 1.0 / 6.0 then p + (q - p) * 6.0 * t2
    else if t2 < 1.0 / 2.0 then q
    else if t2 < 2.0 / 3.0 then p + (q - p) * (2.0 / 3.0 - t2) * 6.0
    else p
  }

  /** fromRGB's lightness: the mean of the extreme channel fractions. */
  function HslLightness(c: RGB): real {
    (MaxUnit(c) + MinUnit(c)) / 2.0
  }

  /** fromRGB's saturation of a chromatic colour: the spread over its distance from black or white. */
  function HslSaturation(c: RGB): real
    requires !IsGray(c)
  {
    var mx, mn := MaxUnit(c), MinUnit(c);
    if HslLightness(c) > 0.5 then (mx - mn) / (2.0 - mx - mn) else (mx - mn) / (mx + mn)
  }

  /** fromRGB's hue in degrees of a chromatic colour: the sector of the largest channel, then the offset in it. */
  function HslHue(c: RGB): real
    requires !IsGray(c)
  {
    var rv, gv, bv := Unit(c.r), Unit(c.g), Unit(c.b);
    var mx, delta := MaxUnit(c), MaxUnit(c) - MinUnit(c);
    var sector :=
      if mx == rv then (gv - bv) / delta + (if gv < bv then 6.0 else 0.0)
      else if mx == gv then (bv - rv) / delta + 2.0
      else (rv - gv) / delta + 4.0;
    sector / 6.0 * 360.0
  }

  /**
   * fromRGB: l from the lightness; for a gray (no spread) h = s = 0, otherwise the
   * saturation and hue; alpha copied; then normalize.
   */
  function HslOfRgb(c: RGB): (v: HslValue)
    ensures v.alpha == c.a
    ensures v.h < TURN
  {
    var l := CastByte(HslLightness(c) * 255.0);
    if MaxUnit(c) - MinUnit(c) == 0.0 then HslValue(WrapHue(0), 0, l, c.a)
    else HslValue(WrapHue(CastU16(HslHue(c) * 100.0)), CastByte(HslSaturation(c) * 255.0), l, c.a)
  }

  /** The spread is zero exactly for the grays. */
  lemma SpreadOfGray(c: RGB)
    ensures MaxUnit(c) - MinUnit(c) == 0.0 <==> IsGray(c)
  {
    if !IsGray(c) {
      assert MinChannel(c) < MaxChannel(c);
    }
  }

  /** fromRGB's lightness is (max + min) div 2 of the channels, for every colour. */
  lemma FromRgbLightness(c: RGB)
    ensures HslOfRgb(c).l == (MaxChannel(c) + MinChannel(c)) / 2
  {
    var n := MaxChannel(c) + MinChannel(c);
    assert HslLightness(c) * 255.0 == n as real / 2.0;
    assert Trunc(n as real / 2.0) == n / 2;
  }

  /** fromRGB of a gray gives h = 0, s = 0, l = the channel value and keeps alpha. */
  lemma FromRgbGray(c: RGB)
    requires IsGray(c)
    ensures HslOfRgb(c) == HslValue(0, 0, c.r, c.a)
  {
    FromRgbLightness(c);
    SpreadOfGray(c);
  }

  /** A chromatic colour has a saturation of at least one step of 1/255. */
  lemma SaturationOfChromatic(c: RGB)
    requires !IsGray(c)
    ensures 1.0 <= HslSaturation(c) * 255.0
  {
    var mx, mn := MaxUnit(c), MinUnit(c);
    assert MinChannel(c) < MaxChannel(c);
    assert 1.0 / 255.0 <= mx - mn;
    if HslLightness(c) > 0.5 {
      DivideAtMostOne(mx - mn, 2.0 - mx - mn);
    } else {
      DivideAtMostOne(mx - mn, mx + mn);
    }
  }

  /** fromRGB gives zero saturation exactly for the grays. */
  lemma FromRgbSaturation(c: RGB)
    ensures HslOfRgb(c).s == 0 <==> IsGray(c)
  {
    SpreadOfGray(c);
    if IsGray(c) {
      FromRgbGray(c);
    } else {
      SaturationOfChromatic(c);
    }
  }

  /** Dividing by a positive number at most 1 does not make a positive number smaller. */
  lemma DivideAtMostOne(x: real, d: real)
    requires 0.0 < x && 0.0 < d <= 1.0
    ensures x <= x / d
  {
    var y := x / d;
    assert y * d == x;
    ProductNonNegative(y, 1.0 - d);
  }

  /** A gray survives fromRGB followed by to_rgb unchanged. */
  lemma GrayRoundTrip(c: RGB)
    requires IsGray(c)
    ensures HslOfRgb(c).ToRGB() == c
  {
    FromRgbGray(c);
  }

  /** Hue shifts add up, modulo a full turn, in whole hundredths of a degree. */
  lemma {:induction false} HueShiftsCompose(v: HslValue, a: real, b: real)
    ensures v.AdjustHue(a).AdjustHue(b).h == (v.h + HueDelta(a) + HueDelta(b)) % TURN
    ensures WholeHundredths(a) && WholeHundredths(b) ==> v.AdjustHue(a).AdjustHue(b) == v.AdjustHue(a + b)
  {
    ModShift(v.h + HueDelta(a), HueDelta(b));
    if WholeHundredths(a) && WholeHundredths(b) {
      WholeDelta(a);
      WholeDelta(b);
      assert (a + b) * 100.0 == a * 100.0 + b * 100.0;
      assert HueDelta(a + b) == HueDelta(a) + HueDelta(b);
    }
  }

  /** Taking the complement twice restores a normalized colour exactly. */
  lemma ComplementTwice(v: HslValue)
    requires v.h < TURN
    ensures v.Complement().Complement() == v
  {
    HueShiftsCompose(v, 180.0, 180.0);
  }

  /** With a whole number of hundredths, the split complements sit symmetrically about the complement. */
  lemma SplitComplementarySymmetric(v: HslValue, angle: real)
    requires WholeHundredths(angle)
    ensures v.SplitComplementary(angle)[1].h == (v.h + 18000 - HueDelta(angle)) % TURN
    ensures v.SplitComplementary(angle)[2].h == (v.h + 18000 + HueDelta(angle)) % TURN
  {
    WholeDelta(angle);
    assert (180.0 - angle) * 100.0 == 18000.0 - angle * 100.0;
    assert (180.0 + angle) * 100.0 == 18000.0 + angle * 100.0;
    assert HueDelta(180.0 - angle) == 18000 - HueDelta(angle);
    assert HueDelta(180.0 + angle) == 18000 + HueDelta(angle);
  }

  /** Lightening then darkening by the same whole number of steps of 1/255 is exact away from the bounds. */
  lemma LightenDarkenInverse(v: HslValue, k: int)
    requires 0 <= v.l + k <= 255 && 0 <= v.l <= 255
    ensures v.Lighten(k as real / 255.0).l == v.l + k
    ensures v.Lighten(k as real / 255.0).Darken(k as real / 255.0) == v
  {
    assert (k as real / 255.0) * 255.0 == k as real;
    assert Trunc(v.l as real + k as real) == v.l + k;
    assert Trunc((v.l + k) as real - k as real) == v.l;
  }

  /** The test colours: HSL(120, 0.5, 0.7) and the wrapped and clamped HSL(370, 1.5, -0.1). */
  lemma ConstructorExamples()
    ensures OfDegrees(120.0, 0.5, 0.7, 255) == HslValue(12000, 127, 178, 255)
    ensures OfDegrees(370.0, 1.5, -0.1, 255) == HslValue(1000, 255, 0, 255)
  {
    assert Trunc(120.0 / 360.0) == 0;
    assert Trunc(370.0 / 360.0) == 1;
  }

  /** The adjustment tests: base HSL(180, 0.5, 0.5) moved by 30 degrees and by 0.2 of the range. */
  lemma AdjustmentExamples()
    ensures OfDegrees(180.0, 0.5, 0.5, 255).AdjustHue(30.0).h == 21000
    ensures OfDegrees(180.0, 0.5, 0.5, 255).Saturate(0.2).s == 178
    ensures OfDegrees(180.0, 0.5, 0.5, 255).Desaturate(0.2).s == 76
    ensures OfDegrees(180.0, 0.5, 0.5, 255).Lighten(0.2).l == 178
    ensures OfDegrees(180.0, 0.5, 0.5, 255).Darken(0.2).l == 76
  {
    assert Trunc(180.0 / 360.0) == 0;
    assert OfDegrees(180.0, 0.5, 0.5, 255) == HslValue(18000, 127, 127, 255);
  }

  /** HSL(h, s, l, a): the value the double constructor stores, normalize included. */
  function OfDegrees(hue: real, sat: real, light: real, a: Byte): (v: HslValue)
    ensures v.h < TURN && v.alpha == a
  {
    HslValue(HueOfDegrees(hue), UnitByte(sat), UnitByte(light), a)
  }

  /** One trailing '%' removed, as the parser does for the saturation and lightness parts. */
  function StripPercent(p: string): string {
    if |p| > 0 && p[|p| - 1] == '%' then p[..|p| - 1] else p
  }

  /** A saturation or lightness part: stod of the part without its '%', over 100, to a byte. */
  function PercentByte(part: string, stod: Stod): (r: Result<Byte, ParseError>)
    ensures r.Ok? <==> stod(StripPercent(part)).Ok?
    ensures r.Ok? && stod(StripPercent(part)).value <= 0.0 ==> r.value == 0
    ensures r.Ok? && 100.0 <= stod(StripPercent(part)).value ==> r.value == 255
  {
    match stod(StripPercent(part))
    case Ok(x) => Ok(UnitByte(x / 100.0))
    case Err(e) => Err(BadNumber(e))
  }

  /** The alpha part: stod clamped to [0, 1], scaled to a byte. */
  function UnitAlpha(part: string, stod: Stod): (r: Result<Byte, ParseError>)
    ensures r.Ok? <==> stod(part).Ok?
  {
    match stod(part)
    case Ok(x) => Ok(UnitByte(x))
    case Err(e) => Err(BadNumber(e))
  }

  /** The hue part: stod, wrapped into [0, 360), scaled to hundredths. */
  function HuePart(part: string, stod: Stod): (r: Result<U16, ParseError>)
    ensures r.Ok? <==> stod(part).Ok?
    ensures r.Ok? ==> r.value < TURN
  {
    match stod(part)
    case Ok(x) => Ok(HueOfDegrees(x))
    case Err(e) => Err(BadNumber(e))
  }

  /** The fields parse_css_hsl reads from three or four comma parts: hue, s%, l% and an optional alpha. */
  function HslParts(parts: seq<string>, stod: Stod): (r: Result<HslValue, ParseError>)
    requires 3 <= |parts| <= 4
    ensures r.Ok? <==> stod(parts[0]).Ok? && stod(StripPercent(parts[1])).Ok? &&
                       stod(StripPercent(parts[2])).Ok? && (|parts| == 4 ==> stod(parts[3]).Ok?)
    ensures r.Ok? ==>
              && r.value.h < TURN
              && r.value.h == HueOfDegrees(stod(parts[0]).value)
              && r.value.s == UnitByte(stod(StripPercent(parts[1])).value / 100.0)
              && r.value.l == UnitByte(stod(StripPercent(parts[2])).value / 100.0)
              && r.value.alpha == (if |parts| == 4 then UnitByte(stod(parts[3]).value) else 255)
  {
    var h :- HuePart(parts[0], stod);
    var s :- PercentByte(parts[1], stod);
    var l :- PercentByte(parts[2], stod);
    var a :- if |parts| == 4 then UnitAlpha(parts[3], stod) else Ok(255);
    Ok(HslValue(h, s, l, a))
  }

  /** parse_css_hsl: the comma parts between the parentheses, three or four of them. */
  function CssHsl(css: string, stod: Stod): (r: Result<HslValue, ParseError>)
    ensures CssArguments(css).None? ==> r == Err(InvalidCssFormat)
    ensures CssArguments(css).Some? && !(3 <= |SplitCommas(CssArguments(css).value)| <= 4) ==>
              r == Err(InvalidComponentCount)
    ensures CssArguments(css).Some? && 3 <= |SplitCommas(CssArguments(css).value)| <= 4 ==>
              r == HslParts(SplitCommas(CssArguments(css).value), stod)
  {
    match CssArguments(css)
    case None => Err(InvalidCssFormat)
    case Some(values) =>
      var parts := SplitCommas(values);
      if |parts| < 3 || |parts| > 4 then Err(InvalidComponentCount)
      else HslParts(parts, stod)
  }

  predicate IsCssHslPrefixed(s: string) {
    StartsWith(s, "hsl(") || StartsWith(s, "hsla(")
  }

  /** HSL(const std::string&): empty throws, anything but hsl(/hsla( throws, the rest is parsed. */
  function ParsedHsl(text: string, stod: Stod): (r: Result<HslValue, ParseError>)
    ensures text == [] ==> r == Err(EmptyString)
    ensures text != [] && !IsCssHslPrefixed(text) ==> r == Err(InvalidHsl)
    ensures r.Ok? ==> IsCssHslPrefixed(text) && r == CssHsl(text, stod)
  {
    if text == [] then Err(EmptyString)
    else if IsCssHslPrefixed(text) then CssHsl(text, stod)
    else Err(InvalidHsl)
  }

  /** An HSL object: the four fields the source stores and rewrites in place. */
  class HSL {
    var h: U16
    var s: Byte
    var l: Byte
    var alpha: Byte

    function Value(): HslValue
      reads this
    {
      HslValue(h, s, l, alpha)
    }

    /** HSL() = default: black, opaque. */
    constructor ()
      ensures Value() == HslValue(0, 0, 0, 255)
    {
      h, s, l, alpha := 0, 0, 0, 255;
    }

    /** HSL(h, s, l, a): clamp and scale s and l, wrap the hue in degrees, then normalize. */
    constructor FromDegrees(hue: real, sat: real, light: real, a: Byte)
      ensures Value() == OfDegrees(hue, sat, light, a)
    {
      s := UnitByte(sat);
      l := UnitByte(light);
      alpha := a;
      var normalized := FMod(hue, 360.0);
      if normalized < 0.0 {
        normalized := normalized + 360.0;
      }
      h := CastU16(normalized * 100.0);
      new;
      Normalize();
    }

    /** normalize: the hue wrapped into [0, 36000); the byte clamps change nothing. */
    method Normalize()
      modifies this
      ensures h == old(h) % TURN
      ensures s == old(s) && l == old(l) && alpha == old(alpha)
    {
      RemShifted(h);
      h := Rem(Rem(h, TURN) + TURN, TURN);
      s := Clamp(s, 0, 255);
      l := Clamp(l, 0, 255);
      alpha := Clamp(alpha, 0, 255);
    }

    /** parse_css_hsl: assigns h, s, l and alpha from the parts, then normalizes; a thrown error is returned. */
    method ParseCss(css: string, stod: Stod) returns (err: Option<ParseError>)
      modifies this
      ensures err == CssHsl(css, stod).ErrorOf()
      ensures err.None? ==> Value() == CssHsl(css, stod).value
    {
      err := None;
      var args := CssArguments(css);
      if args.None? {
        err := Some(InvalidCssFormat);
      } else {
        var parts := SplitOnCommas(args.value);
        if |parts| < 3 || |parts| > 4 {
          err := Some(InvalidComponentCount);
        } else {
          var fields := HslParts(parts, stod);
          if fields.Err? {
            err := Some(fields.error);
          } else {
            assert CssHsl(css, stod) == fields;
            var v := fields.value;
            h, s, l, alpha := v.h, v.s, v.l, v.alpha;
            WrappedHue(h);
            Normalize();
            assert Value() == v;
          }
        }
      }
    }

    /** HSL(const std::string&) as a factory: the new object, or the error the constructor throws. */
    static method Parse(text: string, stod: Stod) returns (res: Result<HSL, ParseError>)
      ensures res.Ok? <==> ParsedHsl(text, stod).Ok?
      ensures res.Err? ==> ParsedHsl(text, stod) == Err(res.error)
      ensures res.Ok? ==> fresh(res.value) && res.value.Value() == ParsedHsl(text, stod).value
    {
      if |text| == 0 {
        return Err(EmptyString);
      }
      if !(StartsWith(text, "hsl(") || StartsWith(text, "hsla(")) {
        return Err(InvalidHsl);
      }
      var hsl := new HSL();
      var err := hsl.ParseCss(text, stod);
      if err.Some? {
        return Err(err.value);
      }
      return Ok(hsl);
    }

    /** fromRGB: fills a default object field by field, then normalizes. */
    static method FromRGB(c: RGB) returns (hsl: HSL)
      ensures fresh(hsl)
      ensures hsl.Value() == HslOfRgb(c)
    {
      hsl := new HSL();
      hsl.l := CastByte(HslLightness(c) * 255.0);
      if MaxUnit(c) - MinUnit(c) == 0.0 {
        hsl.h := 0;
        hsl.s := 0;
      } else {
        SpreadOfGray(c);
        hsl.s := CastByte(HslSaturation(c) * 255.0);
        hsl.h := CastU16(HslHue(c) * 100.0);
      }
      hsl.alpha := c.a;
      hsl.Normalize();
    }
  }
}
