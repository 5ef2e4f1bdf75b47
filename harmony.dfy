/**
 * The colour-scheme generators of utils.hpp: each converts the base colour to HSL,
 * moves the hue or the lightness, and converts back, always starting from or keeping the
 * base colour itself. The loops that push the colours are methods proved equal to the
 * list functions.
 */
module Harmony {
  import opened Results
  import opened Numeric
  import opened Basic
  import opened Hsl

  /** The RGB of every HSL value, in order. */
  function ToRgbs(vs: seq<HslValue>): (cs: seq<RGB>)
    ensures |cs| == |vs|
    ensures forall i :: 0 <= i < |vs| ==> cs[i] == vs[i].ToRGB() && cs[i].a == vs[i].alpha
  {
    seq(|vs|, i requires 0 <= i < |vs| => vs[i].ToRGB())
  }

  // ---------------------------------------------------------------------------
  // generate_monochromatic.

  /** The i-th HSL variation: darkened by 0.1 per step below the middle, lightened above it. */
  function Variation(hsl: HslValue, count: int, i: int): HslValue {
    var mid := count / 2;
    if i < mid then hsl.Darken(0.1 * (mid - i) as real)
    else if i == mid then hsl
    else hsl.Lighten(0.1 * (i - mid) as real)
  }

  /** The i-th colour: the base itself in the middle, otherwise the variation's RGB. */
  function MonochromaticEntry(hsl: HslValue, base: RGB, count: int, i: int): RGB {
    if i == count / 2 then base else Variation(hsl, count, i).ToRGB()
  }

  /**
   * What generate_monochromatic returns; None for a negative count, for which
   * reserve(count) throws std::length_error.
   */
  function Monochromatic(base: RGB, count: Int32): (r: Option<seq<RGB>>)
    ensures r.None? <==> count < 0
    ensures r.Some? ==> |r.value| == count
    ensures r.Some? && 0 < count ==> r.value[count / 2] == base
    ensures r.Some? ==> forall i :: 0 <= i < |r.value| ==> r.value[i].a == base.a
  {
    if count < 0 then None
    else
      var hsl := HslOfRgb(base);
      Some(seq(count, i requires 0 <= i < count => MonochromaticEntry(hsl, base, count, i)))
  }

  /**
   * The variations below the middle are no lighter than the base's HSL value and those
   * above no darker; hue, saturation and alpha are kept.
   */
  lemma VariationLightness(hsl: HslValue, count: nat, i: int)
    ensures var v := Variation(hsl, count, i);
            && v.h == hsl.h && v.s == hsl.s && v.alpha == hsl.alpha
            && (i <= count / 2 ==> v.l <= hsl.l)
            && (count / 2 <= i ==> hsl.l <= v.l)
  {
    var mid := count / 2;
    if i < mid {
      assert 0.0 <= 0.1 * (mid - i) as real;
    } else if i > mid {
      assert 0.0 <= 0.1 * (i - mid) as real;
    }
  }

  /** generate_monochromatic: reserve, then push count colours, the base in the middle. */
  method GenerateMonochromatic(base: RGB, count: Int32) returns (res: Option<seq<RGB>>)
    ensures res == Monochromatic(base, count)
  {
    if count < 0 {
      return None;
    }
    var hsl := HslOfRgb(base);
    var colors: seq<RGB> := [];
    for i := 0 to count
      invariant |colors| == i
      invariant forall j :: 0 <= j < i ==> colors[j] == MonochromaticEntry(hsl, base, count, j)
    {
      var variation := hsl;
      if i == count / 2 {
        colors := colors + [base];
      } else if i < count / 2 {
        variation := hsl.Darken(0.1 * (count / 2 - i) as real);
        assert variation == Variation(hsl, count, i);
      } else {
        variation := hsl.Lighten(0.1 * (i - count / 2) as real);
        assert variation == Variation(hsl, count, i);
      }
      if i != count / 2 {
        colors := colors + [variation.ToRGB()];
      }
      assert colors[i] == MonochromaticEntry(hsl, base, count, i);
    }
    assert colors == Monochromatic(base, count).value;
    return Some(colors);
  }

  // ---------------------------------------------------------------------------
  // generate_golden_ratio_scheme and generate_split_complementary.

  /** The golden angle in degrees. */
  const GOLDEN_ANGLE: real := 137.507764050

  /** The i-th golden-ratio colour: the hue turned by i golden angles. */
  function GoldenEntry(hsl: HslValue, i: nat): RGB {
    hsl.AdjustHue(GOLDEN_ANGLE * i as real).ToRGB()
  }

  /** What generate_golden_ratio_scheme returns: the base, then count - 1 golden-angle turns. */
  function GoldenRatio(base: RGB, count: Int32): (r: seq<RGB>)
    ensures |r| == if count <= 1 then 1 else count
    ensures r[0] == base
    ensures forall i :: 0 <= i < |r| ==> r[i].a == base.a
  {
    var hsl := HslOfRgb(base);
    var n := if count <= 1 then 0 else count - 1;
    [base] + seq(n, i requires 0 <= i < n => GoldenEntry(hsl, i + 1))
  }

  /**
   * The i-th golden-ratio colour is the base's HSL value turned by i golden angles (only
   * the hue moves, by the contract of AdjustHue).
   */
  lemma GoldenHues(base: RGB, count: Int32, i: nat)
    requires 1 <= i < count
    ensures GoldenRatio(base, count)[i] == HslOfRgb(base).AdjustHue(GOLDEN_ANGLE * i as real).ToRGB()
  {
    var hsl := HslOfRgb(base);
    var n := count - 1;
    var tail := seq(n, j requires 0 <= j < n => GoldenEntry(hsl, j + 1));
    assert GoldenRatio(base, count) == [base] + tail;
    assert tail[i - 1] == GoldenEntry(hsl, i);
  }

  /** generate_golden_ratio_scheme: start with the base, push one turned colour per step. */
  method GenerateGoldenRatioScheme(base: RGB, count: Int32) returns (colors: seq<RGB>)
    ensures colors == GoldenRatio(base, count)
  {
    var hsl := HslOfRgb(base);
    colors := [base];
    for i := 1 to if count < 1 then 1 else count
      invariant |colors| == i && colors[0] == base
      invariant forall j :: 1 <= j < i ==> colors[j] == GoldenEntry(hsl, j)
    {
      var variation := hsl.AdjustHue(GOLDEN_ANGLE * i as real);
      colors := colors + [variation.ToRGB()];
    }
    var n := if count <= 1 then 0 else count - 1;
    assert colors == [base] + seq(n, j requires 0 <= j < n => GoldenEntry(hsl, j + 1));
  }

  /** generate_split_complementary: the base, then the hue turned by 180 - angle and 180 + angle. */
  function SplitComplementaryScheme(base: RGB, angle: real): (r: seq<RGB>)
    ensures |r| == 3 && r[0] == base
    ensures forall i :: 0 <= i < 3 ==> r[i].a == base.a
  {
    var hsl := HslOfRgb(base);
    [base, hsl.AdjustHue(180.0 - angle).ToRGB(), hsl.AdjustHue(180.0 + angle).ToRGB()]
  }

  /**
   * The split-complementary generator at its default angle gives the same colours as the
   * "split_complementary" scheme of generate_harmony; with a zero angle both other colours
   * are the complement.
   */
  lemma SplitComplementaryAgrees(base: RGB)
    ensures SplitComplementaryScheme(base, 30.0) == Harmony(base, "split_complementary")
    ensures SplitComplementaryScheme(base, 0.0)[1] == SplitComplementaryScheme(base, 0.0)[2]
              == HslOfRgb(base).Complement().ToRGB()
  {
    var hsl := HslOfRgb(base);
    var tail := RgbsExcept(hsl.SplitComplementary(30.0), 0);
    assert Harmony(base, "split_complementary") == [base] + tail;
  }

  // ---------------------------------------------------------------------------
  // generate_harmony.

  /** The RGB of every HSL value except the one at index skip, in order. */
  function RgbsExcept(vs: seq<HslValue>, skip: nat): (cs: seq<RGB>)
    requires skip < |vs|
    ensures |cs| == |vs| - 1
    ensures forall i :: 0 <= i < skip ==> cs[i] == vs[i].ToRGB()
    ensures forall i :: skip <= i < |cs| ==> cs[i] == vs[i + 1].ToRGB()
  {
    ToRgbs(vs[..skip]) + ToRgbs(vs[skip + 1..])
  }

  /**
   * The colours generate_harmony pushes after the base for the five schemes that only turn
   * the hue of the base's HSL value; any other name pushes nothing.
   */
  function HueColors(hsl: HslValue, scheme: string): (tail: seq<RGB>)
    ensures forall i :: 0 <= i < |tail| ==> tail[i].a == hsl.alpha
  {
    if scheme == "complementary" then [hsl.Complement().ToRGB()]
    else if scheme == "triadic" then RgbsExcept(hsl.Triadic(), 0)
    else if scheme == "split_complementary" then RgbsExcept(hsl.SplitComplementary(30.0), 0)
    else if scheme == "analogous" then RgbsExcept(hsl.Analogous(30.0), 1)
    else if scheme == "tetradic" then
      [hsl.AdjustHue(90.0).ToRGB(), hsl.AdjustHue(180.0).ToRGB(), hsl.AdjustHue(270.0).ToRGB()]
    else []
  }

  /**
   * What generate_harmony returns for a scheme name; an unknown name gives the base alone.
   * Every scheme contains the base, and all but the monochromatic one (which darkens its
   * first entries) start with it. The scheme names are distinct, so testing the two
   * delegating schemes first gives the same result as the source's order of tests.
   */
  function Harmony(base: RGB, scheme: string): (colors: seq<RGB>)
    ensures base in colors
    ensures scheme != "monochromatic" ==> colors[0] == base
    ensures forall i :: 0 <= i < |colors| ==> colors[i].a == base.a
  {
    if scheme == "monochromatic" then Monochromatic(base, 5).value
    else if scheme == "golden_ratio" then GoldenRatio(base, 5)
    else [base] + HueColors(HslOfRgb(base), scheme)
  }

  /** The sizes of the schemes: 2, 3, 3, 3, 4, 5 with the base in the middle, and 5. */
  lemma HarmonyShapes(base: RGB)
    ensures |Harmony(base, "complementary")| == 2
    ensures |Harmony(base, "triadic")| == 3
    ensures |Harmony(base, "split_complementary")| == 3
    ensures |Harmony(base, "analogous")| == 3
    ensures |Harmony(base, "tetradic")| == 4
    ensures |Harmony(base, "monochromatic")| == 5 && Harmony(base, "monochromatic")[2] == base
    ensures |Harmony(base, "golden_ratio")| == 5
  {
  }

  /** A name that is none of the seven schemes gives the base colour alone. */
  lemma HarmonyUnknown(base: RGB, scheme: string)
    requires scheme !in {"complementary", "triadic", "split_complementary", "analogous",
                         "tetradic", "monochromatic", "golden_ratio"}
    ensures Harmony(base, scheme) == [base]
  {
  }

  /**
   * The loops of generate_harmony: push the RGB of every HSL value of the harmony except
   * the one at index skip (the base's own entry), in order.
   */
  method PushRgbs(colors: seq<RGB>, vs: seq<HslValue>, skip: nat) returns (out: seq<RGB>)
    requires skip < |vs|
    ensures out == colors + RgbsExcept(vs, skip)
  {
    out := colors;
    for i := 0 to |vs|
      invariant |out| == |colors| + (if i <= skip then i else i - 1)
      invariant out[..|colors|] == colors
      invariant forall j :: 0 <= j < i && j < skip ==> out[|colors| + j] == vs[j].ToRGB()
      invariant forall j :: skip < j < i ==> out[|colors| + j - 1] == vs[j].ToRGB()
    {
      if i != skip {
        out := out + [vs[i].ToRGB()];
      }
    }
    var expected := colors + RgbsExcept(vs, skip);
    assert forall j :: 0 <= j < |out| ==> out[j] == expected[j];
  }

  /** The hue-turning branches of generate_harmony, pushing after the colours so far. */
  method PushHueColors(colors: seq<RGB>, hsl: HslValue, scheme: string) returns (out: seq<RGB>)
    ensures out == colors + HueColors(hsl, scheme)
  {
    out := colors;
    if scheme == "complementary" {
      out := out + [hsl.Complement().ToRGB()];
    } else if scheme == "triadic" {
      var triadic := hsl.Triadic();
      out := PushRgbs(out, triadic, 0);
    } else if scheme == "split_complementary" {
      var split := hsl.SplitComplementary(30.0);
      out := PushRgbs(out, split, 0);
    } else if scheme == "analogous" {
      var analogous := hsl.Analogous(30.0);
      out := PushRgbs(out, analogous, 1);
    } else if scheme == "tetradic" {
      out := out + [hsl.AdjustHue(90.0).ToRGB()];
      out := out + [hsl.AdjustHue(180.0).ToRGB()];
      out := out + [hsl.AdjustHue(270.0).ToRGB()];
    }
  }

  /** generate_harmony: the base, then the scheme's colours pushed one by one. */
  method GenerateHarmony(base: RGB, scheme: string) returns (colors: seq<RGB>)
    ensures colors == Harmony(base, scheme)
  {
    var hsl := HslOfRgb(base);
    colors := [base];
    if scheme == "monochromatic" {
      var res := GenerateMonochromatic(base, 5);
      colors := res.value;
    } else if scheme == "golden_ratio" {
      colors := GenerateGoldenRatioScheme(base, 5);
    } else {
      colors := PushHueColors(colors, hsl, scheme);
    }
  }
}
