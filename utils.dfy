/**
 * The expression-only helpers of utils.hpp: the validators and sanitize_rgb, the
 * integer grayscale variants, the two distances, and the WCAG contrast ladder.
 */
module Utils {
  import opened Results
  import opened Numeric
  import opened Text
  import opened Basic
  import opened Hsl
  import Lab
  import Hsv

  // ---------------------------------------------------------------------------
  // Validation and sanitizing.

  /** is_valid_rgb: all four integers in [0, 255], so clamping them to a byte changes none. */
  predicate IsValidRgb(r: int, g: int, b: int, a: int): (valid: bool)
    ensures valid <==> Clamp(r, 0, 255) == r && Clamp(g, 0, 255) == g && Clamp(b, 0, 255) == b && Clamp(a, 0, 255) == a
  {
    0 <= r <= 255 && 0 <= g <= 255 && 0 <= b <= 255 && 0 <= a <= 255
  }

  /**
   * is_valid_hsl: hue in [0, 360), saturation and lightness in [0, 1], that is, exactly
   * the arguments that wrapping the hue and clamping the other two leave unchanged.
   */
  predicate IsValidHsl(h: real, s: real, l: real) {
    0.0 <= h < 360.0 && 0.0 <= s <= 1.0 && 0.0 <= l <= 1.0
  }

  /** is_valid_hsl accepts exactly the values that wrapping the hue and clamping saturation and lightness leave unchanged. */
  lemma ValidHslUnwrapped(h: real, s: real, l: real)
    ensures IsValidHsl(h, s, l) <==> WrapDegrees(h) == h && ClampReal(s, 0.0, 1.0) == s && ClampReal(l, 0.0, 1.0) == l
  {
    WrapDegreesNormalizes(h);
  }

  /** is_valid_hsv: hue in [0, 360), saturation and value in [0, 1]: exactly the normal HSV values. */
  predicate IsValidHsv(h: real, s: real, v: real) {
    0.0 <= h < 360.0 && 0.0 <= s <= 1.0 && 0.0 <= v <= 1.0
  }

  /** is_valid_hsv accepts exactly the components of a normal HSV value. */
  lemma ValidHsvIsNormal(h: real, s: real, v: real)
    ensures IsValidHsv(h, s, v) <==> Hsv.HsvValue(h, s, v).IsNormal()
  {
  }

  /** is_valid_lab: L in [0, 100], a and b in [-128, 127]. */
  predicate IsValidLab(l: real, a: real, b: real) {
    0.0 <= l <= 100.0 && -128.0 <= a <= 127.0 && -128.0 <= b <= 127.0
  }

  /** is_valid_lab accepts exactly the values that clamping L to [0, 100] and a, b to [-128, 127] leaves unchanged. */
  lemma ValidLabUnclamped(l: real, a: real, b: real)
    ensures IsValidLab(l, a, b) <==> ClampReal(l, 0.0, 100.0) == l && ClampReal(a, -128.0, 127.0) == a && ClampReal(b, -128.0, 127.0) == b
  {
  }

  /** sanitize_rgb: each integer clamped to [0, 255]. */
  function SanitizeRgb(r: int, g: int, b: int, a: int): (c: RGB)
    ensures IsValidRgb(r, g, b, a) <==> (c.r == r && c.g == g && c.b == b && c.a == a)
    ensures (r < 0 ==> c.r == 0) && (255 < r ==> c.r == 255)
    ensures (g < 0 ==> c.g == 0) && (255 < g ==> c.g == 255)
    ensures (b < 0 ==> c.b == 0) && (255 < b ==> c.b == 255)
    ensures (a < 0 ==> c.a == 0) && (255 < a ==> c.a == 255)
  {
    RGB(ClampByte(r), ClampByte(g), ClampByte(b), ClampByte(a))
  }

  /** Sanitizing the channels of a colour gives the colour back, so sanitize_rgb is idempotent. */
  lemma SanitizeIdempotent(r: int, g: int, b: int, a: int)
    ensures var c := SanitizeRgb(r, g, b, a); SanitizeRgb(c.r, c.g, c.b, c.a) == c
  {
    var c := SanitizeRgb(r, g, b, a);
    assert IsValidRgb(c.r, c.g, c.b, c.a);
  }

  /**
   * is_valid_hex_color: non-empty; after one optional '#', 3, 6 or 8 characters, all
   * hexadecimal. An accepted string has 3 to 9 characters, 9 only with the '#', and
   * expands to an 8-digit body.
   */
  predicate IsValidHexColor(s: string): (valid: bool)
    ensures valid ==> 3 <= |s| <= 9 && |HexBody(s)| == 8
    ensures valid && |s| == 9 ==> s[0] == '#'
  {
    s != [] && |StripHash(s)| in {3, 6, 8} && AllHexDigits(StripHash(s))
  }

  /** Every hexadecimal digit doubled is still all hexadecimal digits, and so is "ff" after them. */
  lemma HexBodyDigits(s: string)
    requires IsValidHexColor(s)
    ensures |HexBody(s)| == 8 && AllHexDigits(HexBody(s))
  {
    var body := StripHash(s);
    if |body| == 3 {
      var d := Doubled(body);
      assert forall k :: 0 <= k < |d| ==> IsHexDigit(d[k]) by {
        forall k | 0 <= k < |d| ensures IsHexDigit(d[k]) {
          assert d[k] == body[k / 2];
        }
      }
    }
  }

  /** A valid hex colour cannot start with "rgb(" or "rgba(": its first character is '#' or a hexadecimal digit. */
  lemma HexColorIsNotCss(s: string)
    requires IsValidHexColor(s)
    ensures !IsCssRgbPrefixed(s)
  {
    if s[0] == '#' {
      HashIsNotCss(s);
    } else {
      assert IsHexDigit(StripHash(s)[0]);
      if |s| >= 4 {
        assert s[..4][0] == s[0];
      }
      if |s| >= 5 {
        assert s[..5][0] == s[0];
      }
    }
  }

  /**
   * Every string is_valid_hex_color accepts is read by the RGB string constructor without
   * an error, each channel being the value of its digit pair in the expanded body.
   */
  lemma ValidHexParses(s: string, stod: Stod)
    requires IsValidHexColor(s)
    ensures var h := HexBody(s);
            |h| == 8 &&
            ParsedColor(s, stod) == Ok(RGB(DigitValue(h[0]) * 16 + DigitValue(h[1]),
                                           DigitValue(h[2]) * 16 + DigitValue(h[3]),
                                           DigitValue(h[4]) * 16 + DigitValue(h[5]),
                                           DigitValue(h[6]) * 16 + DigitValue(h[7])))
  {
    HexBodyDigits(s);
    HexColorIsNotCss(s);
    HexChannelsOfDigits(HexBody(s));
  }

  /** is_valid_css_rgb: non-empty and starting with "rgb(" or "rgba(". */
  predicate IsValidCssRgb(css: string) {
    css != [] && (StartsWith(css, "rgb(") || StartsWith(css, "rgba("))
  }

  /** is_valid_css_hsl: non-empty and starting with "hsl(" or "hsla(". */
  predicate IsValidCssHsl(css: string) {
    css != [] && (StartsWith(css, "hsl(") || StartsWith(css, "hsla("))
  }

  /** is_valid_css_rgb, written as the substring comparisons it makes: the first 4 characters are "rgb(" or the first 5 are "rgba(". */
  lemma ValidCssRgbSubstrings(css: string)
    ensures IsValidCssRgb(css) <==> (4 <= |css| && css[..4] == "rgb(") || (5 <= |css| && css[..5] == "rgba(")
  {
  }

  /** is_valid_css_hsl, written as the substring comparisons it makes: the first 4 characters are "hsl(" or the first 5 are "hsla(". */
  lemma ValidCssHslSubstrings(css: string)
    ensures IsValidCssHsl(css) <==> (4 <= |css| && css[..4] == "hsl(") || (5 <= |css| && css[..5] == "hsla(")
  {
  }

  /** The CSS validators accept exactly the strings the RGB and HSL constructors send to their CSS parsers. */
  lemma CssValidatorsMatchParsers(css: string, stod: Stod)
    ensures IsValidCssRgb(css) <==> IsCssRgbPrefixed(css)
    ensures IsValidCssHsl(css) <==> IsCssHslPrefixed(css)
    ensures IsValidCssRgb(css) ==> ParsedColor(css, stod) == ParsedCssRgb(css, stod)
    ensures !IsValidCssHsl(css) ==> ParsedHsl(css, stod).Err?
  {
  }

  // ---------------------------------------------------------------------------
  // Grayscale.

  /** to_grayscale_average: every channel the integer mean of r, g and b; alpha kept. */
  function ToGrayscaleAverage(c: RGB): (g: RGB)
    ensures IsGray(g) && g.a == c.a
    ensures 3 * g.r <= c.r + c.g + c.b < 3 * g.r + 3
    ensures MinChannel(c) <= g.r <= MaxChannel(c)
  {
    var gray := (c.r + c.g + c.b) / 3;
    RGB(gray, gray, gray, c.a)
  }

  /** to_grayscale_lightness: every channel (max + min) div 2, HSL's lightness byte; alpha kept. */
  function ToGrayscaleLightness(c: RGB): (g: RGB)
    ensures IsGray(g) && g.a == c.a
    ensures g.r == HslOfRgb(c).l
    ensures MinChannel(c) <= g.r <= MaxChannel(c)
  {
    var gray := (MaxChannel(c) + MinChannel(c)) / 2;
    FromRgbLightness(c);
    RGB(gray, gray, gray, c.a)
  }

  /** Both grayscale variants leave a gray colour unchanged, and so are idempotent. */
  lemma GrayscaleFixesGray(c: RGB)
    ensures IsGray(c) ==> ToGrayscaleAverage(c) == c && ToGrayscaleLightness(c) == c
    ensures ToGrayscaleAverage(ToGrayscaleAverage(c)) == ToGrayscaleAverage(c)
    ensures ToGrayscaleLightness(ToGrayscaleLightness(c)) == ToGrayscaleLightness(c)
  {
  }

  // ---------------------------------------------------------------------------
  // Distances.

  function IntSq(x: int): nat {
    x * x
  }

  /** The radicand of rgb_distance: the sum of the squared channel differences, alpha ignored. */
  function RgbDistanceSquared(c1: RGB, c2: RGB): (d: nat)
    ensures d <= 3 * 255 * 255
    ensures d == 0 <==> c1.r == c2.r && c1.g == c2.g && c1.b == c2.b
  {
    SquareBelow(c1.r - c2.r);
    SquareBelow(c1.g - c2.g);
    SquareBelow(c1.b - c2.b);
    IntSq(c1.r - c2.r) + IntSq(c1.g - c2.g) + IntSq(c1.b - c2.b)
  }

  lemma SquareBelow(x: int)
    requires -255 <= x <= 255
    ensures IntSq(x) <= 255 * 255
    ensures IntSq(x) == 0 <==> x == 0
  {
    var y := if x < 0 then -x else x;
    assert IntSq(x) == IntSq(y);
    ProductBelow(y, y, 255);
    if y != 0 {
      ProductBelow(1, y, y);
    }
  }

  lemma ProductBelow(a: int, b: int, bound: int)
    requires 0 <= a <= bound && 0 <= b <= bound
    ensures a * b <= bound * bound
    ensures 0 < a && 0 < b ==> 0 < a * b
  {
  }

  /** rgb_distance: the square root of the radicand. */
  function RgbDistance(m: Libm, c1: RGB, c2: RGB): (d: real)
    ensures d == m.sqrt(RgbDistanceSquared(c2, c1) as real)
    ensures c1.r == c2.r && c1.g == c2.g && c1.b == c2.b && m.sqrt(0.0) == 0.0 ==> d == 0.0
  {
    RgbDistanceSymmetric(c1, c2);
    m.sqrt(RgbDistanceSquared(c1, c2) as real)
  }

  /** The radicand is symmetric. */
  lemma RgbDistanceSymmetric(c1: RGB, c2: RGB)
    ensures RgbDistanceSquared(c1, c2) == RgbDistanceSquared(c2, c1)
  {
    assert IntSq(c1.r - c2.r) == IntSq(c2.r - c1.r);
    assert IntSq(c1.g - c2.g) == IntSq(c2.g - c1.g);
    assert IntSq(c1.b - c2.b) == IntSq(c2.b - c1.b);
  }

  /**
   * rgb_distance(c, u) < threshold, decided on the exact radicand: the distance is a
   * non-negative square root, so it is below the threshold iff the threshold is positive
   * and the radicand is below its square.
   */
  predicate Closer(c: RGB, u: RGB, threshold: real) {
    0.0 < threshold && (RgbDistanceSquared(c, u) as real) < threshold * threshold
  }

  /** With an exact square root, Closer is rgb_distance(c, u) < threshold. */
  lemma CloserIsDistanceBelow(m: Libm, c: RGB, u: RGB, threshold: real)
    requires var d := RgbDistanceSquared(c, u) as real; 0.0 <= m.sqrt(d) && Sq(m.sqrt(d)) == d
    ensures RgbDistance(m, c, u) < threshold <==> Closer(c, u, threshold)
  {
    var s := RgbDistance(m, c, u);
    if s < threshold {
      SquareLess(s, threshold);
    } else if 0.0 < threshold {
      SquareAtMost(threshold, s);
    }
  }

  lemma SquareLess(x: real, y: real)
    requires 0.0 <= x < y
    ensures Sq(x) < Sq(y)
  {
    ProductPositive(y - x, y + x, (y - x) * (y + x));
    assert Sq(y) - Sq(x) == (y - x) * (y + x);
  }

  lemma SquareAtMost(x: real, y: real)
    requires 0.0 <= x <= y
    ensures Sq(x) <= Sq(y)
  {
    if x < y {
      SquareLess(x, y);
    }
  }

  /** Closer is symmetric. */
  lemma CloserSymmetric(c: RGB, u: RGB, threshold: real)
    ensures Closer(c, u, threshold) <==> Closer(u, c, threshold)
  {
    RgbDistanceSymmetric(c, u);
  }

  /** color_distance: the CIE76 delta E of the two colours' LAB values. */
  function ColorDistance(m: Libm, c1: RGB, c2: RGB): (d: real)
    ensures d == Lab.LabOfRgb(m, c2).DeltaE(m, Lab.LabOfRgb(m, c1))
    ensures c1.r == c2.r && c1.g == c2.g && c1.b == c2.b && m.sqrt(0.0) == 0.0 ==> d == 0.0
  {
    var lab1, lab2 := Lab.LabOfRgb(m, c1), Lab.LabOfRgb(m, c2);
    Lab.DeltaELaws(m, lab1, lab2, 0.0);
    if c1.r == c2.r && c1.g == c2.g && c1.b == c2.b then
      assert c2 == c1.(a := c2.a);
      lab1.DeltaE(m, lab2)
    else
      lab1.DeltaE(m, lab2)
  }

  // ---------------------------------------------------------------------------
  // Contrast and WCAG levels.

  /** luminance: the weighted sum 0.299 r + 0.587 g + 0.114 b. */
  function Luminance(c: RGB): (y: real)
    ensures 0.0 <= y <= 255.0
    ensures IsGray(c) ==> y == c.r as real
  {
    0.299 * c.r as real + 0.587 * c.g as real + 0.114 * c.b as real
  }

  /** contrast_ratio: (lighter + 0.05) / (darker + 0.05) of the luminances over 255. */
  function ContrastRatio(c1: RGB, c2: RGB): (ratio: real)
    ensures 1.0 <= ratio <= 21.0
  {
    LuminanceRatio(Luminance(c1) / 255.0, Luminance(c2) / 255.0)
  }

  /** The ratio of the lighter to the darker relative luminance, each offset by 0.05. */
  function LuminanceRatio(lum1: real, lum2: real): (ratio: real)
    requires 0.0 <= lum1 <= 1.0 && 0.0 <= lum2 <= 1.0
    ensures 1.0 <= ratio <= 21.0
  {
    var hi, lo := if lum1 < lum2 then lum2 else lum1, if lum1 < lum2 then lum1 else lum2;
    var ratio := (hi + 0.05) / (lo + 0.05);
    RatioBounds(hi + 0.05, lo + 0.05, ratio);
    ratio
  }

  lemma RatioBounds(n: real, d: real, q: real)
    requires 0.05 <= d <= n <= 1.05
    requires q == n / d
    ensures 1.0 <= q <= 21.0
  {
    assert q * d == n;
  }

  const WHITE := RGB(255, 255, 255, 255)
  const BLACK := RGB(0, 0, 0, 255)

  /** contrast_ratio does not depend on the order of its arguments, and a colour against itself is 1:1. */
  lemma ContrastRatioSymmetric(c1: RGB, c2: RGB)
    ensures ContrastRatio(c1, c2) == ContrastRatio(c2, c1)
    ensures ContrastRatio(c1, c1) == 1.0
  {
    LuminanceRatioSymmetric(Luminance(c1) / 255.0, Luminance(c2) / 255.0);
  }

  lemma LuminanceRatioSymmetric(lum1: real, lum2: real)
    requires 0.0 <= lum1 <= 1.0 && 0.0 <= lum2 <= 1.0
    ensures LuminanceRatio(lum1, lum2) == LuminanceRatio(lum2, lum1)
    ensures LuminanceRatio(lum1, lum1) == 1.0
  {
    if lum1 < lum2 {
      assert LuminanceRatio(lum1, lum2) == (lum2 + 0.05) / (lum1 + 0.05) == LuminanceRatio(lum2, lum1);
    } else if lum2 < lum1 {
      assert LuminanceRatio(lum1, lum2) == (lum1 + 0.05) / (lum2 + 0.05) == LuminanceRatio(lum2, lum1);
    }
    assert LuminanceRatio(lum1, lum1) == (lum1 + 0.05) / (lum1 + 0.05) == 1.0;
  }

  /** Black against white is 21:1, the largest ratio there is. */
  lemma BlackOnWhite()
    ensures ContrastRatio(BLACK, WHITE) == 21.0
  {
    assert Luminance(WHITE) == 255.0;
    assert Luminance(BLACK) == 0.0;
  }

  /** The levels check_accessibility reports. */
  datatype AccessibilityLevel = Fail | AaNormal | AaLarge | AaaNormal | AaaLarge

  /**
   * check_accessibility's ladder on a ratio. Against WCAG 2.1: success criterion 1.4.3
   * (AA) asks 4.5:1, or 3:1 for large text; 1.4.6 (AAA) asks 7:1, or 4.5:1 for large text.
   */
  function AccessibilityOf(ratio: real, largeText: bool): (level: AccessibilityLevel)
    ensures level != Fail <==> ratio >= (if largeText then 3.0 else 4.5)
    ensures (level == AaaNormal || level == AaaLarge) <==> ratio >= (if largeText then 4.5 else 7.0)
    ensures level == AaaNormal <==> ratio >= 7.0
    ensures largeText ==> level != AaNormal
    ensures !largeText ==> level != AaLarge && level != AaaLarge
  {
    if ratio >= 7.0 then AaaNormal
    else if ratio >= 4.5 then (if largeText then AaaLarge else AaNormal)
    else if ratio >= 3.0 && largeText then AaLarge
    else Fail
  }

  /**
   * check_accessibility: the ladder applied to the contrast ratio of the two colours,
   * which does not depend on which is the foreground; black on white is AAA.
   */
  function CheckAccessibility(foreground: RGB, background: RGB, largeText: bool): (level: AccessibilityLevel)
    ensures level == AccessibilityOf(ContrastRatio(background, foreground), largeText)
    ensures foreground == BLACK && background == WHITE ==> level == AaaNormal
  {
    ContrastRatioSymmetric(foreground, background);
    BlackOnWhite();
    AccessibilityOf(ContrastRatio(foreground, background), largeText)
  }

  /** How much a level passes: fail, AA large, AA normal or AAA large, AAA normal. */
  function Rank(level: AccessibilityLevel): nat {
    match level
    case Fail => 0
    case AaLarge => 1
    case AaNormal => 2
    case AaaLarge => 2
    case AaaNormal => 3
  }

  /** A higher ratio never gives a lower level; swapping the colours changes nothing; black on white is AAA. */
  lemma AccessibilityLaws(r1: real, r2: real, largeText: bool, fg: RGB, bg: RGB)
    ensures r1 <= r2 ==> Rank(AccessibilityOf(r1, largeText)) <= Rank(AccessibilityOf(r2, largeText))
    ensures CheckAccessibility(fg, bg, largeText) == CheckAccessibility(bg, fg, largeText)
    ensures CheckAccessibility(BLACK, WHITE, largeText) == AaaNormal
  {
    ContrastRatioSymmetric(fg, bg);
    BlackOnWhite();
  }

  /** best_contrast_color: white when it contrasts strictly more than black, otherwise black. */
  function BestContrastColor(background: RGB): (c: RGB)
    ensures c == WHITE || c == BLACK
    ensures ContrastRatio(c, background) >= ContrastRatio(WHITE, background)
    ensures ContrastRatio(c, background) >= ContrastRatio(BLACK, background)
  {
    if ContrastRatio(WHITE, background) > ContrastRatio(BLACK, background) then WHITE else BLACK
  }
}
