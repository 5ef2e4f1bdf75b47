/**
 * The 8-bit RGB hub and the MONO gray value of types_basic.hpp: saturating
 * arithmetic, the integer blend modes, alpha helpers, mixing, hex formatting and
 * the string constructor with its hex and CSS rgb()/rgba() parsers.
 */
module Basic {
  import opened Results
  import opened Numeric
  import opened Text

  /** A saturated sum: the exact sum, or 255 when the sum does not fit in a byte. */
  predicate SaturatedSum(z: int, x: int, y: int) {
    (x + y <= 255 && z == x + y) || (255 < x + y && z == 255)
  }

  /** A saturated difference: the exact difference, or 0 when it would be negative. */
  predicate SaturatedDifference(z: int, x: int, y: int) {
    (0 <= x - y && z == x - y) || (x - y < 0 && z == 0)
  }

  /** One channel of blend_multiply. */
  function MultiplyChannel(x: Byte, y: Byte): (z: Byte)
    ensures z <= x && z <= y
    ensures y == 255 ==> z == x
    ensures y == 0 ==> z == 0
  {
    MultiplyBounds(x, y, x * y);
    (x * y) / 255
  }

  /** The scaled product of two channels is at most either of them. */
  lemma MultiplyBounds(x: Byte, y: Byte, p: int)
    requires p == x * y
    ensures 0 <= p / 255 <= x && p / 255 <= y
    ensures y == 255 ==> p / 255 == x
    ensures y == 0 ==> p / 255 == 0
  {
    ProductMonotone(x, y, 255);
    ProductMonotone(y, x, 255);
  }

  /** Multiplying by a larger factor gives a larger product. */
  lemma ProductMonotone(a: nat, b: nat, c: nat)
    requires b <= c
    ensures 0 <= a * b <= a * c
  {
  }

  /** One channel of blend_screen. */
  function ScreenChannel(x: Byte, y: Byte): (z: Byte)
    ensures x <= z && y <= z
    ensures y == 0 ==> z == x
    ensures y == 255 ==> z == 255
  {
    255 - MultiplyChannel(255 - x, 255 - y)
  }

  /** One channel of blend_overlay: multiply the doubled base when it is dark, screen it when it is light. */
  function OverlayChannel(base: Byte, blend: Byte): (z: Byte)
    ensures base < 128 ==> z == MultiplyChannel(2 * base, blend)
    ensures 128 <= base ==> z == ScreenChannel(2 * base - 255, blend)
  {
    if base < 128 then
      assert (2 * base * blend) / 255 == MultiplyChannel(2 * base, blend);
      (2 * base * blend) / 255
    else
      assert 2 * (255 - base) == 255 - (2 * base - 255);
      assert (2 * (255 - base) * (255 - blend)) / 255 == MultiplyChannel(2 * (255 - base), 255 - blend);
      255 - (2 * (255 - base) * (255 - blend)) / 255
  }

  /** One channel of mix: the cast of x*(1-t) + y*t. */
  function MixChannel(x: Byte, y: Byte, t: real): (z: Byte)
    requires 0.0 <= t <= 1.0
    ensures t == 0.0 ==> z == x
    ensures t == 1.0 ==> z == y
    ensures (x <= y ==> x <= z <= y) && (y <= x ==> y <= z <= x)
  {
    CastLerpBetween(x, y, t);
    CastByte(x as real * (1.0 - t) + y as real * t)
  }

  /** Two lower-case hexadecimal digits, zero-padded, as `std::setw(2)` with `std::hex` writes them. */
  function HexByte(x: Byte): (s: string)
    ensures |s| == 2 && IsHexDigit(s[0]) && IsHexDigit(s[1])
    ensures DigitValue(s[0]) * 16 + DigitValue(s[1]) == x
  {
    [HexDigitChar(x / 16), HexDigitChar(x % 16)]
  }

  datatype RGB = RGB(r: Byte, g: Byte, b: Byte, a: Byte) {

    /** operator+: every channel, alpha included, saturates at 255. */
    function Add(o: RGB): (c: RGB)
      ensures SaturatedSum(c.r, r, o.r) && SaturatedSum(c.g, g, o.g)
      ensures SaturatedSum(c.b, b, o.b) && SaturatedSum(c.a, a, o.a)
    {
      RGB(Clamp(r + o.r, 0, 255), Clamp(g + o.g, 0, 255), Clamp(b + o.b, 0, 255), Clamp(a + o.a, 0, 255))
    }

    /** operator-: every channel, alpha included, saturates at 0. */
    function Sub(o: RGB): (c: RGB)
      ensures SaturatedDifference(c.r, r, o.r) && SaturatedDifference(c.g, g, o.g)
      ensures SaturatedDifference(c.b, b, o.b) && SaturatedDifference(c.a, a, o.a)
    {
      RGB(Clamp(r - o.r, 0, 255), Clamp(g - o.g, 0, 255), Clamp(b - o.b, 0, 255), Clamp(a - o.a, 0, 255))
    }

    /** with_alpha: the same colour with another alpha. */
    function WithAlpha(newAlpha: Byte): (c: RGB)
      ensures c.a == newAlpha
      ensures c.r == r && c.g == g && c.b == b
    {
      RGB(r, g, b, newAlpha)
    }

    /** blend_add: the saturated sum of the colour channels, keeping this alpha. */
    function BlendAdd(o: RGB): (c: RGB)
      ensures c == Add(o).WithAlpha(a)
    {
      RGB(if r + o.r > 255 then 255 else r + o.r,
          if g + o.g > 255 then 255 else g + o.g,
          if b + o.b > 255 then 255 else b + o.b, a)
    }

    /** blend_subtract: the saturated difference of the colour channels, keeping this alpha. */
    function BlendSubtract(o: RGB): (c: RGB)
      ensures c == Sub(o).WithAlpha(a)
    {
      RGB(if r > o.r then r - o.r else 0,
          if g > o.g then g - o.g else 0,
          if b > o.b then b - o.b else 0, a)
    }

    /** blend_multiply: never lighter than either input, keeping this alpha. */
    function BlendMultiply(o: RGB): (c: RGB)
      ensures c.r <= r && c.r <= o.r && c.g <= g && c.g <= o.g && c.b <= b && c.b <= o.b
      ensures c.a == a
    {
      RGB(MultiplyChannel(r, o.r), MultiplyChannel(g, o.g), MultiplyChannel(b, o.b), a)
    }

    /** blend_screen: the inverse of multiplying the inverses, keeping this alpha. */
    function BlendScreen(o: RGB): (c: RGB)
      ensures c == Invert().BlendMultiply(o.Invert()).Invert()
      ensures r <= c.r && o.r <= c.r && g <= c.g && o.g <= c.g && b <= c.b && o.b <= c.b
    {
      RGB(ScreenChannel(r, o.r), ScreenChannel(g, o.g), ScreenChannel(b, o.b), a)
    }

    /** blend_overlay: per channel, multiply where this colour is dark and screen where it is light. */
    function BlendOverlay(o: RGB): (c: RGB)
      ensures c.a == a
      ensures r < 128 ==> c.r == MultiplyChannel(2 * r, o.r)
      ensures 128 <= r ==> c.r == ScreenChannel(2 * r - 255, o.r)
      ensures g < 128 ==> c.g == MultiplyChannel(2 * g, o.g)
      ensures 128 <= g ==> c.g == ScreenChannel(2 * g - 255, o.g)
      ensures b < 128 ==> c.b == MultiplyChannel(2 * b, o.b)
      ensures 128 <= b ==> c.b == ScreenChannel(2 * b - 255, o.b)
    {
      RGB(OverlayChannel(r, o.r), OverlayChannel(g, o.g), OverlayChannel(b, o.b), a)
    }

    /** mix: the ratio is clamped to [0, 1] and all four channels are interpolated. */
    function Mix(o: RGB, ratio: real): (c: RGB)
      ensures ratio <= 0.0 ==> c == this
      ensures 1.0 <= ratio ==> c == o
      ensures (r <= o.r ==> r <= c.r <= o.r) && (o.r <= r ==> o.r <= c.r <= r)
      ensures (g <= o.g ==> g <= c.g <= o.g) && (o.g <= g ==> o.g <= c.g <= g)
      ensures (b <= o.b ==> b <= c.b <= o.b) && (o.b <= b ==> o.b <= c.b <= b)
      ensures (a <= o.a ==> a <= c.a <= o.a) && (o.a <= a ==> o.a <= c.a <= a)
    {
      var t := if ratio < 0.0 then 0.0 else if ratio > 1.0 then 1.0 else ratio;
      RGB(MixChannel(r, o.r, t), MixChannel(g, o.g, t), MixChannel(b, o.b, t), MixChannel(a, o.a, t))
    }

    /** transparency: 1 - a/255, zero exactly for an opaque colour. */
    function Transparency(): (t: real)
      ensures 0.0 <= t <= 1.0
      ensures t == 0.0 <==> IsOpaque()
      ensures t == 1.0 <==> a == 0
    {
      1.0 - a as real / 255.0
    }

    /** is_opaque: alpha is 255. */
    predicate IsOpaque() {
      a == 255
    }

    /** is_transparent: any alpha below 255, that is, exactly the colours that are not opaque. */
    predicate IsTransparent()
      ensures IsTransparent() <==> !IsOpaque()
    {
      a < 255
    }

    /** invert: each colour channel becomes its complement to 255; alpha is kept. */
    function Invert(): (c: RGB)
      ensures c.r + r == 255 && c.g + g == 255 && c.b + b == 255
      ensures c.a == a
    {
      RGB(255 - r, 255 - g, 255 - b, a)
    }

    /** to_hex: '#', then r, g, b, and a only when asked for and not 255, as lower-case pairs. */
    function ToHex(includeAlpha: bool): (s: string)
      ensures |s| == if includeAlpha && a != 255 then 9 else 7
      ensures s[0] == '#' && AllHexDigits(s[1..])
      ensures s[1..7] == HexByte(r) + HexByte(g) + HexByte(b)
      ensures |s| == 9 ==> s[7..] == HexByte(a)
    {
      var rgb := "#" + HexByte(r) + HexByte(g) + HexByte(b);
      if includeAlpha && a != 255 then rgb + HexByte(a) else rgb
    }
  }

  /** operator+ does not depend on the order of its operands. */
  lemma AddCommutative(x: RGB, y: RGB)
    ensures x.Add(y) == y.Add(x)
  {
  }

  /** blend_multiply is commutative on the colour channels, white is its identity and black its zero. */
  lemma MultiplyLaws(x: RGB, y: RGB)
    ensures x.BlendMultiply(y).WithAlpha(0) == y.BlendMultiply(x).WithAlpha(0)
    ensures x.BlendMultiply(RGB(255, 255, 255, 255)) == x
    ensures x.BlendMultiply(RGB(0, 0, 0, 255)) == RGB(0, 0, 0, x.a)
  {
  }

  /** Black is the identity of blend_screen, and white saturates it. */
  lemma ScreenLaws(x: RGB)
    ensures x.BlendScreen(RGB(0, 0, 0, 255)) == x
    ensures x.BlendScreen(RGB(255, 255, 255, 255)) == RGB(255, 255, 255, x.a)
  {
  }

  /** invert is an involution. */
  lemma InvertInvolution(x: RGB)
    ensures x.Invert().Invert() == x
  {
  }

  /** The largest channel among r, g and b. */
  function MaxChannel(c: RGB): (m: Byte)
    ensures c.r <= m && c.g <= m && c.b <= m
    ensures m == c.r || m == c.g || m == c.b
  {
    if c.r < c.g then (if c.g < c.b then c.b else c.g) else (if c.r < c.b then c.b else c.r)
  }

  /** The smallest channel among r, g and b. */
  function MinChannel(c: RGB): (m: Byte)
    ensures m <= c.r && m <= c.g && m <= c.b
    ensures m == c.r || m == c.g || m == c.b
  {
    if c.g < c.r then (if c.b < c.g then c.b else c.g) else (if c.b < c.r then c.b else c.r)
  }

  predicate IsGray(c: RGB) {
    c.r == c.g && c.g == c.b
  }

  /** A channel as a fraction of 255. */
  function Unit(x: Byte): (u: real)
    ensures 0.0 <= u <= 1.0
  {
    x as real / 255.0
  }

  /** std::max({r, g, b}) of the channel fractions. */
  function MaxUnit(c: RGB): (m: real)
    ensures m == Unit(MaxChannel(c))
  {
    MaxReal(Unit(c.r), MaxReal(Unit(c.g), Unit(c.b)))
  }

  /** std::min({r, g, b}) of the channel fractions. */
  function MinUnit(c: RGB): (m: real)
    ensures m == Unit(MinChannel(c))
  {
    MinReal(Unit(c.r), MinReal(Unit(c.g), Unit(c.b)))
  }

  /** A MONO gray: a value and an alpha. */
  datatype MONO = MONO(v: Byte, a: Byte) {

    /** to_rgb, and the converting constructor RGB(MONO): v in every colour channel, alpha carried. */
    function ToRGB(): (c: RGB)
      ensures c.r == v && c.g == v && c.b == v && c.a == a
    {
      RGB(v, v, v, a)
    }

    /** operator+: v saturates at 255; this alpha is kept. */
    function Add(o: MONO): (m: MONO)
      ensures SaturatedSum(m.v, v, o.v) && m.a == a
    {
      MONO(Clamp(v + o.v, 0, 255), a)
    }

    /** operator-: v saturates at 0; this alpha is kept. */
    function Sub(o: MONO): (m: MONO)
      ensures SaturatedDifference(m.v, v, o.v) && m.a == a
    {
      MONO(Clamp(v - o.v, 0, 255), a)
    }

    /** invert: v becomes its complement to 255. */
    function Invert(): (m: MONO)
      ensures m.v + v == 255 && m.a == a
      ensures m.ToRGB() == ToRGB().Invert()
    {
      MONO(255 - v, a)
    }

    /** operator<: an order on the gray value alone, blind to alpha. */
    predicate Less(o: MONO)
      ensures Less(o) <==> ToRGB().r < o.ToRGB().r
    {
      v < o.v
    }

    /** to_hex: '#' and the two digits of v, the prefix of the RGB form's hex. */
    function ToHex(): (s: string)
      ensures s == ToRGB().ToHex(false)[..3]
    {
      "#" + HexByte(v)
    }
  }

  /** The MONO operators agree with the RGB ones on grays, and invert is an involution. */
  lemma MonoLaws(x: MONO, y: MONO)
    ensures x.Add(y).ToRGB() == x.ToRGB().Add(y.ToRGB()).WithAlpha(x.a)
    ensures x.Sub(y).ToRGB() == x.ToRGB().Sub(y.ToRGB()).WithAlpha(x.a)
    ensures x.Invert().Invert() == x
    ensures x.Less(y) ==> !y.Less(x)
  {
  }

  // ---------------------------------------------------------------------------
  // The string constructor.

  /** The body without one leading '#'. */
  function StripHash(s: string): (h: string)
    ensures |s| > 0 && s[0] == '#' ==> h == s[1..]
    ensures !(|s| > 0 && s[0] == '#') ==> h == s
  {
    if |s| > 0 && s[0] == '#' then s[1..] else s
  }

  /** Every character twice in a row: the 3-to-6 digit expansion. */
  function Doubled(h: string): (d: string)
    ensures |d| == 2 * |h|
    ensures forall k :: 0 <= k < |d| ==> d[k] == h[k / 2]
  {
    seq(2 * |h|, k requires 0 <= k < 2 * |h| => h[k / 2])
  }

  /** The hex body after the '#' is stripped, a 3-digit body doubled and a 6-digit body given "ff". */
  function HexBody(s: string): (h: string)
    ensures |StripHash(s)| == 3 ==> h == Doubled(StripHash(s)) + "ff"
    ensures |StripHash(s)| == 6 ==> h == StripHash(s) + "ff"
    ensures |StripHash(s)| != 3 && |StripHash(s)| != 6 ==> h == StripHash(s)
    ensures |h| == 8 <==> |StripHash(s)| in {3, 6, 8}
  {
    var body := StripHash(s);
    var expanded := if |body| == 3 then Doubled(body) else body;
    if |expanded| == 6 then expanded + "ff" else expanded
  }

  /**
   * One channel as the constructor reads it: std::stoi in base 16 of a two-character
   * substring, stored into a uint8_t, which keeps the value mod 256.
   */
  function StoiChannel(c0: char, c1: char): Result<Byte, ParseError> {
    match Stoi([c0, c1], 16)
    case Ok(v) => Ok(v % 256)
    case Err(e) => Err(BadNumber(e))
  }

  /**
   * The same channel, with the case of two hexadecimal digits written out: their
   * value. HexChannelIsStoi shows the two definitions agree on every pair.
   */
  function HexChannel(c0: char, c1: char): (r: Result<Byte, ParseError>)
    ensures IsHexDigit(c0) && IsHexDigit(c1) ==> r == Ok(DigitValue(c0) * 16 + DigitValue(c1))
  {
    if IsHexDigit(c0) && IsHexDigit(c1) then Ok(DigitValue(c0) * 16 + DigitValue(c1))
    else StoiChannel(c0, c1)
  }

  /** The hex path of the string constructor. */
  function ParsedHex(s: string): (r: Result<RGB, ParseError>)
    ensures |HexBody(s)| != 8 ==> r == Err(InvalidHex)
  {
    var h := HexBody(s);
    if |h| != 8 then Err(InvalidHex) else HexChannels(h)
  }

  /** The four stoi calls on the successive digit pairs of an 8-character body. */
  function HexChannels(h: string): (r: Result<RGB, ParseError>)
    requires |h| == 8
  {
    Channels(HexChannel(h[0], h[1]), HexChannel(h[2], h[3]), HexChannel(h[4], h[5]), HexChannel(h[6], h[7]))
  }

  /** Four channels read in order; the first failure is the one reported. */
  function Channels(r: Result<Byte, ParseError>, g: Result<Byte, ParseError>,
                    b: Result<Byte, ParseError>, a: Result<Byte, ParseError>): (c: Result<RGB, ParseError>)
    ensures c.Ok? <==> r.Ok? && g.Ok? && b.Ok? && a.Ok?
    ensures c.Ok? ==> c == Ok(RGB(r.value, g.value, b.value, a.value))
  {
    var rv :- r;
    var gv :- g;
    var bv :- b;
    var av :- a;
    Ok(RGB(rv, gv, bv, av))
  }

  /** A CSS colour channel: stoi in base 10, clamped to [0, 255]. */
  function CssChannel(part: string): (r: Result<Byte, ParseError>)
    ensures r.Ok? <==> Stoi(part, 10).Ok?
    ensures r.Ok? ==> r.value == Clamp(Stoi(part, 10).value, 0, 255)
  {
    match Stoi(part, 10)
    case Ok(v) => Ok(ClampByte(v))
    case Err(e) => Err(BadNumber(e))
  }

  /** The CSS alpha: stod times 255, converted to int, clamped to [0, 255]. */
  function CssAlpha(part: string, stod: Stod): (r: Result<Byte, ParseError>)
    ensures r.Ok? <==> stod(part).Ok?
    ensures r.Ok? && 0.0 <= stod(part).value <= 1.0 ==> r.value == Trunc(stod(part).value * 255.0)
  {
    match stod(part)
    case Ok(x) => Ok(ClampByte(Trunc(x * 255.0)))
    case Err(e) => Err(BadNumber(e))
  }

  /** parse_css_rgb: the comma parts between the parentheses, three or four of them. */
  function ParsedCssRgb(css: string, stod: Stod): (r: Result<RGB, ParseError>)
    ensures CssArguments(css).None? ==> r == Err(InvalidCssFormat)
    ensures CssArguments(css).Some? && !(3 <= |SplitCommas(CssArguments(css).value)| <= 4) ==>
              r == Err(InvalidComponentCount)
    ensures r.Ok? ==> CssArguments(css).Some?
    ensures r.Ok? ==>
              var parts := SplitCommas(CssArguments(css).value);
              && 3 <= |parts| <= 4
              && Stoi(parts[0], 10).Ok? && r.value.r == Clamp(Stoi(parts[0], 10).value, 0, 255)
              && Stoi(parts[1], 10).Ok? && r.value.g == Clamp(Stoi(parts[1], 10).value, 0, 255)
              && Stoi(parts[2], 10).Ok? && r.value.b == Clamp(Stoi(parts[2], 10).value, 0, 255)
              && (|parts| == 3 ==> r.value.a == 255)
  {
    match CssArguments(css)
    case None => Err(InvalidCssFormat)
    case Some(values) =>
      var parts := SplitCommas(values);
      if |parts| < 3 || |parts| > 4 then Err(InvalidComponentCount)
      else
        var r :- CssChannel(parts[0]);
        var g :- CssChannel(parts[1]);
        var b :- CssChannel(parts[2]);
        var a :- if |parts| == 4 then CssAlpha(parts[3], stod) else Ok(255);
        Ok(RGB(r, g, b, a))
  }

  /**
   * is_opaque against the other alpha operations: an opaque colour has no
   * transparency, mixing two opaque colours and blending onto an opaque colour
   * stay opaque, and inverting keeps opacity.
   */
  lemma OpaqueLaws(c: RGB, o: RGB, ratio: real)
    ensures c.IsOpaque() <==> c.Transparency() == 0.0
    ensures c.IsOpaque() <==> c.Invert().IsOpaque()
    ensures c.IsOpaque() && o.IsOpaque() ==> c.Mix(o, ratio).IsOpaque()
    ensures c.IsOpaque() ==> c.BlendMultiply(o).IsOpaque() && c.BlendScreen(o).IsOpaque() && c.BlendOverlay(o).IsOpaque()
  {
  }

  predicate IsCssRgbPrefixed(s: string) {
    StartsWith(s, "rgb(") || StartsWith(s, "rgba(")
  }

  /** What RGB(const std::string&) produces: empty throws, rgb(/rgba( goes to the CSS parser, the rest is hex. */
  function ParsedColor(s: string, stod: Stod): (r: Result<RGB, ParseError>)
    ensures s == [] ==> r == Err(EmptyString)
    ensures s != [] && !IsCssRgbPrefixed(s) && |HexBody(s)| != 8 ==> r == Err(InvalidHex)
  {
    if s == [] then Err(EmptyString)
    else if IsCssRgbPrefixed(s) then ParsedCssRgb(s, stod)
    else ParsedHex(s)
  }

  /** parse_css_rgb: strip spaces, take the text between the parentheses, split it with the comma loop. */
  method ParseCssRgb(css: string, stod: Stod) returns (res: Result<RGB, ParseError>)
    ensures res == ParsedCssRgb(css, stod)
  {
    var args := CssArguments(css);
    if args.None? {
      return Err(InvalidCssFormat);
    }
    var parts := SplitOnCommas(args.value);
    if |parts| < 3 || |parts| > 4 {
      return Err(InvalidComponentCount);
    }
    var r :- CssChannel(parts[0]);
    var g :- CssChannel(parts[1]);
    var b :- CssChannel(parts[2]);
    var a: Byte := 255;
    if |parts| == 4 {
      a :- CssAlpha(parts[3], stod);
    }
    return Ok(RGB(r, g, b, a));
  }

  /** RGB(const std::string&): the hex path erases '#', doubles a 3-digit body with a push_back loop, appends "ff". */
  method ParseColor(s: string, stod: Stod) returns (res: Result<RGB, ParseError>)
    ensures res == ParsedColor(s, stod)
  {
    if |s| == 0 {
      return Err(EmptyString);
    }
    if StartsWith(s, "rgb(") || StartsWith(s, "rgba(") {
      res := ParseCssRgb(s, stod);
      return;
    }
    var h := s;
    if |h| > 0 && h[0] == '#' {
      h := h[1..];
    }
    assert h == StripHash(s);
    if |h| == 3 {
      var tmp: string := [];
      for i := 0 to |h|
        invariant tmp == Doubled(h[..i])
      {
        assert h[..i + 1] == h[..i] + [h[i]];
        tmp := tmp + [h[i], h[i]];
      }
      assert h[..|h|] == h;
      h := tmp;
    }
    if |h| == 6 {
      h := h + "ff";
    }
    assert h == HexBody(s);
    if |h| != 8 {
      return Err(InvalidHex);
    }
    var r :- HexChannel(h[0], h[1]);
    var g :- HexChannel(h[2], h[3]);
    var b :- HexChannel(h[4], h[5]);
    var a :- HexChannel(h[6], h[7]);
    return Ok(RGB(r, g, b, a));
  }

  /** The channel reader agrees with std::stoi followed by the uint8_t conversion on every pair of characters. */
  lemma HexChannelIsStoi(c0: char, c1: char)
    ensures HexChannel(c0, c1) == StoiChannel(c0, c1)
  {
    if IsHexDigit(c0) && IsHexDigit(c1) {
      StoiHexPair(c0, c1);
    }
  }

  /** For an 8-digit hexadecimal body, the channels are the values of the four digit pairs. */
  lemma HexChannelsOfDigits(h: string)
    requires |h| == 8 && AllHexDigits(h)
    ensures HexChannels(h) == Ok(RGB(DigitValue(h[0]) * 16 + DigitValue(h[1]),
                                     DigitValue(h[2]) * 16 + DigitValue(h[3]),
                                     DigitValue(h[4]) * 16 + DigitValue(h[5]),
                                     DigitValue(h[6]) * 16 + DigitValue(h[7])))
  {
  }

  /** A string that starts with '#' goes to the hex path. */
  lemma HashIsNotCss(s: string)
    requires |s| > 0 && s[0] == '#'
    ensures !IsCssRgbPrefixed(s)
  {
    if |s| >= 4 {
      assert s[..4][0] == '#';
    }
    if |s| >= 5 {
      assert s[..5][0] == '#';
    }
  }

  /** The hex body of to_hex(true) is the four digit pairs, alpha included. */
  lemma HexBodyOfToHex(c: RGB)
    ensures HexBody(c.ToHex(true)) == HexByte(c.r) + HexByte(c.g) + HexByte(c.b) + HexByte(c.a)
  {
    var s := c.ToHex(true);
    var rgb := HexByte(c.r) + HexByte(c.g) + HexByte(c.b);
    if c.a == 255 {
      assert s == "#" + rgb;
      assert StripHash(s) == rgb;
      assert HexByte(c.a) == "ff";
    } else {
      assert s == "#" + rgb + HexByte(c.a);
      assert StripHash(s) == rgb + HexByte(c.a);
    }
  }

  /** Reading back four written digit pairs gives the four bytes they were written from. */
  lemma HexChannelsOfBytes(r: Byte, g: Byte, b: Byte, a: Byte)
    ensures HexChannels(HexByte(r) + HexByte(g) + HexByte(b) + HexByte(a)) == Ok(RGB(r, g, b, a))
  {
    var pr, pg, pb, pa := HexByte(r), HexByte(g), HexByte(b), HexByte(a);
    var h := pr + pg + pb + pa;
    assert h[0] == pr[0] && h[1] == pr[1] && h[2] == pg[0] && h[3] == pg[1];
    assert h[4] == pb[0] && h[5] == pb[1] && h[6] == pa[0] && h[7] == pa[1];
  }

  /** to_hex(true) followed by the string constructor gives the colour back. */
  lemma HexRoundTrip(c: RGB, stod: Stod)
    ensures ParsedColor(c.ToHex(true), stod) == Ok(c)
  {
    var s := c.ToHex(true);
    HashIsNotCss(s);
    HexBodyOfToHex(c);
    HexChannelsOfBytes(c.r, c.g, c.b, c.a);
    assert ParsedColor(s, stod) == ParsedHex(s);
  }

  /** to_hex(false) followed by the string constructor gives the colour back, made opaque. */
  lemma OpaqueHexRoundTrip(c: RGB, stod: Stod)
    ensures ParsedColor(c.ToHex(false), stod) == Ok(c.WithAlpha(255))
  {
    assert c.ToHex(false) == c.WithAlpha(255).ToHex(true);
    HexRoundTrip(c.WithAlpha(255), stod);
  }
}
