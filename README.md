# pigment, modelled in Dafny

This project models the exact logic of the pigment header-only colour library. The colorimetric transforms are floating point throughout; everything around them is exact and is modelled here:

- **`types_basic.hpp`**
  - The 8-bit `RGB` hub: saturating `+` and `-`, the integer blend modes, `mix`, `invert` and the alpha helpers.
  - `to_hex`, the hexadecimal string constructor and the `rgb()`/`rgba()` parser.
  - The `MONO` gray.
- **`types_hsl.hpp`**
  - `HSL`, with its fixed-point hue in hundredths of a degree.
  - Its adjustments, its harmonies, `fromRGB`/`to_rgb` and the `hsl()`/`hsla()` parser.
- **The floating colour spaces** `HSV`, `LCH`, `LAB`, `XYZ` and `OKLAB`:
  - their normalisation, adjustments and harmonies;
  - their equality with a tolerance;
  - the LAB lookup tables and the index arithmetic of their fast lookups.
- **`utils.hpp`**
  - The validators and `sanitize_rgb`.
  - The integer grayscale variants.
  - The contrast ratio and the WCAG 2.1 accessibility ladder (success criteria 1.4.3 and 1.4.6).
  - `remove_duplicates`, `extract_dominant_colors`, `find_closest_color`, `quantize_to_palette` and the harmony generators.

The model follows the source's own form:

- **Value types become datatypes.** `RGB`, `MONO`, `LAB`, `OKLAB` and the const members of `HSL`, `HSV`, `LCH` and `XYZ` are datatypes with functions.
- **Types with in-place methods become classes.**
  - The types whose `void` members rewrite their fields (`HSL`, `HSV`, `LCH`, `XYZ`) are classes.
  - Their `normalize`, adjustment and factory methods state the new state through the value functions.
- **Loops that build or update a result become methods.** Each is proved against a specification function, which lemmas then characterise. These loops are:
  - the comma splitter;
  - the 3-digit expansion;
  - the LAB table builders;
  - `remove_duplicates`, `extract_dominant_colors` and `find_closest_color`;
  - the harmony generators.
- **Loops that only test a condition become predicates.** The digit loop of `is_valid_hex_color` is the quantified predicate `AllHexDigits`.

Modules, one per header, plus two shared ones:

- `Basic` (`basic.dfy`), `Hsl`, `Hsv`, `Lab`, `Lch`, `Xyz`, `Oklab`, `Srgb` (the sRGB curves and matrices shared by XYZ, LAB and OKLAB).
- `Utils`, `Palette` (the palette loops of `utils.hpp`) and `Harmony` (the harmony generators of `utils.hpp`).
- `Numeric` holds bytes, C++ casts and rounding, `std::clamp`, `fmod` and the hue wrap.
- `Text` holds the `std::string` operations and `std::stoi`.

Arithmetic is exact:

- Doubles and floats are Dafny `real`.
- A conversion to an integer truncates toward zero.
- `std::round` rounds halves away from zero.
- A cast to `uint8_t` of a value outside [0, 256) saturates.

The C maths library (`pow`, `cbrt`, `sqrt`, `sin`, `cos`, `atan2`) and `std::stod` are parameters: a `Libm` record of functions and a `Stod` function. Every property stated about code that calls them holds whatever they return, unless the property names an assumption about them (for example `sqrt(0) == 0`). `std::stoi` is modelled exactly:

- leading white space, a sign, a `0x` prefix in base 16, the longest digit run;
- `invalid_argument` when there is no digit;
- `out_of_range` outside `int`.

Thrown exceptions are `Err` values of a `Result` type.

## Model

| member | source | states |
|---|---|---|
| Basic.MultiplyChannel | include/pigment/types_basic.hpp:201-205 | a multiplied channel is at most either input; 255 is the identity and 0 the zero |
| Basic.ScreenChannel | include/pigment/types_basic.hpp:207-211 | a screened channel is at least either input; 0 is the identity and 255 saturates |
| Basic.OverlayChannel | include/pigment/types_basic.hpp:213-220 | a dark base (below 128) multiplies its double, a light one screens `2*base-255` |
| Basic.MixChannel | include/pigment/types_basic.hpp:180-186 | the truncated interpolation lies between the two channels and hits each end at t = 0 and t = 1 |
| Basic.HexByte | include/pigment/types_basic.hpp:127-130 | two hexadecimal digits whose value is the byte |
| Basic.RGB.Add | include/pigment/types_basic.hpp:138-143 | every channel, alpha included, is the sum saturated at 255 |
| Basic.RGB.Sub | include/pigment/types_basic.hpp:145-150 | every channel, alpha included, is the difference saturated at 0 |
| Basic.RGB.WithAlpha | include/pigment/types_basic.hpp:262-264 | the alpha is replaced and the colour channels kept |
| Basic.RGB.BlendAdd | include/pigment/types_basic.hpp:189-193 | operator+ on the colour channels with this colour's alpha |
| Basic.RGB.BlendSubtract | include/pigment/types_basic.hpp:195-199 | operator- on the colour channels with this colour's alpha |
| Basic.RGB.BlendMultiply | include/pigment/types_basic.hpp:201-205 | never lighter than either input in any channel; alpha kept |
| Basic.RGB.BlendScreen | include/pigment/types_basic.hpp:207-211 | equals invert of the multiply of the inverts, and is never darker than either input |
| Basic.RGB.BlendOverlay | include/pigment/types_basic.hpp:213-224 | per channel: multiply below 128, screen from 128 on; alpha kept |
| Basic.RGB.Mix | include/pigment/types_basic.hpp:180-186 | ratio clamped: at or below 0 the colour itself, at or above 1 the other; every channel between the two |
| Basic.RGB.Transparency | include/pigment/types_basic.hpp:267-269 | in [0, 1], zero exactly when opaque and one exactly when alpha is 0 |
| Basic.OpaqueLaws | include/pigment/types_basic.hpp:277-279 | is_opaque holds exactly when the transparency is 0 and exactly when the inverted colour is opaque; mixing two opaque colours and blending onto an opaque colour stay opaque |
| Basic.RGB.IsTransparent | include/pigment/types_basic.hpp:272-279 | transparent exactly when not opaque |
| Basic.RGB.Invert | include/pigment/types_basic.hpp:307 | each colour channel plus its inverse is 255; alpha kept |
| Basic.RGB.ToHex | include/pigment/types_basic.hpp:125-135 | '#' then r, g, b as digit pairs, and a only when asked for and not 255; length 7 or 9 |
| Basic.AddCommutative | include/pigment/types_basic.hpp:138-143 | operator+ is commutative |
| Basic.MultiplyLaws | include/pigment/types_basic.hpp:201-205 | blend_multiply commutes on the colour channels; white is its identity and black its zero |
| Basic.ScreenLaws | include/pigment/types_basic.hpp:207-211 | black is the identity of blend_screen and white saturates it |
| Basic.InvertInvolution | include/pigment/types_basic.hpp:307 | inverting twice gives the colour back |
| Basic.MONO.ToRGB | include/pigment/types_basic.hpp:368 | the gray value in every colour channel, alpha carried (also RGB(const MONO&), line 421) |
| Basic.MONO.Add | include/pigment/types_basic.hpp:371 | the value saturates at 255; this alpha kept |
| Basic.MONO.Sub | include/pigment/types_basic.hpp:373 | the value saturates at 0; this alpha kept |
| Basic.MONO.Invert | include/pigment/types_basic.hpp:391 | the value's complement to 255, agreeing with RGB invert on the gray |
| Basic.MONO.Less | include/pigment/types_basic.hpp:383 | ordered by the gray value alone |
| Basic.MONO.ToHex | include/pigment/types_basic.hpp:401-405 | the first three characters of the gray's RGB hex |
| Basic.MonoLaws | include/pigment/types_basic.hpp:371-391 | MONO + and - agree with the RGB operators on grays; invert is an involution; < is asymmetric |
| Basic.HexBody | include/pigment/types_basic.hpp:48-62 | '#' stripped; three digits doubled then "ff", six digits then "ff"; length 8 exactly for 3, 6 or 8 digits |
| Basic.HexChannel | include/pigment/types_basic.hpp:66-69 | a pair of hexadecimal digits reads as its value |
| Basic.ParsedHex | include/pigment/types_basic.hpp:48-69 | a body that is not 8 digits after expansion is the invalid-hex error |
| Basic.CssChannel | include/pigment/types_basic.hpp:104-106 | fails exactly when stoi fails; otherwise the value clamped to [0, 255] |
| Basic.CssAlpha | include/pigment/types_basic.hpp:107 | fails exactly when stod fails; an alpha in [0, 1] becomes the truncation of alpha*255 |
| Basic.ParsedCssRgb | include/pigment/types_basic.hpp:73-108 | no parentheses is the format error and other than three or four parts the count error; on success r, g, b are the stoi values clamped to [0, 255] and three parts give alpha 255 |
| Basic.ParsedColor | include/pigment/types_basic.hpp:35-70 | the empty string is an error; a non-CSS string without an 8-digit body is the invalid-hex error |
| Basic.ParseCssRgb | include/pigment/types_basic.hpp:73-108 | the comma-splitting loop computes ParsedCssRgb |
| Basic.ParseColor | include/pigment/types_basic.hpp:35-70 | the erase and push_back steps compute ParsedColor |
| Basic.HexChannelIsStoi | include/pigment/types_basic.hpp:66-69 | the digit-pair reader agrees with stoi in base 16 followed by the byte cast |
| Basic.HexChannelsOfDigits | include/pigment/types_basic.hpp:66-69 | an 8-digit body reads as its four digit-pair values |
| Basic.HashIsNotCss | include/pigment/types_basic.hpp:41-48 | a string starting with '#' takes the hex path |
| Basic.HexRoundTrip | include/pigment/types_basic.hpp:35-70 | parsing to_hex(true) gives the colour back |
| Basic.OpaqueHexRoundTrip | include/pigment/types_basic.hpp:35-70 | parsing to_hex(false) gives the colour back with alpha 255 |
| Basic.Doubled | include/pigment/types_basic.hpp:51-59 | twice the length, each character repeated in place |
| Hsl.WrapHue | include/pigment/types_hsl.hpp:135 | the double remainder lands in [0, 36000) and equals the mathematical residue |
| Hsl.HueOfDegrees | include/pigment/types_hsl.hpp:40-43 | the hue in hundredths is the truncation of the degrees wrapped into [0, 360) times 100, below 36000 |
| Hsl.UnitByte | include/pigment/types_hsl.hpp:37-38 | the clamped fraction times 255, truncated: 0 below, 255 above, otherwise the truncation |
| Hsl.HslValue.AdjustHue | include/pigment/types_hsl.hpp:222-228 | the hue moves by the truncated hundredths, modulo a full turn; s, l and alpha kept |
| Hsl.HslValue.AdjustSaturation | include/pigment/types_hsl.hpp:230-234 | a factor in [0, 1] lowers s, one above 1 raises it, 1 keeps the colour, 0 or less gives 0 |
| Hsl.HslValue.AdjustLightness | include/pigment/types_hsl.hpp:236-240 | the same laws for l |
| Hsl.HslValue.Saturate | include/pigment/types_hsl.hpp:242-246 | s rises for a positive amount, falls for a negative one, reaches 255 from amount 1, is unchanged at 0 |
| Hsl.HslValue.Desaturate | include/pigment/types_hsl.hpp:248-252 | desaturate is saturate by the negated amount, lowering s and reaching 0 from amount 1 |
| Hsl.HslValue.Lighten | include/pigment/types_hsl.hpp:254-258 | the saturate laws for l |
| Hsl.HslValue.Darken | include/pigment/types_hsl.hpp:260-264 | darken is lighten by the negated amount |
| Hsl.HslValue.Complement | include/pigment/types_hsl.hpp:267 | half a turn further; s, l and alpha kept |
| Hsl.HslValue.Triadic | include/pigment/types_hsl.hpp:270 | this colour, then a third and two thirds of a turn further, same s, l, alpha |
| Hsl.HslValue.Analogous | include/pigment/types_hsl.hpp:273 | the neighbours at minus and plus the angle with this colour in the middle |
| Hsl.HslValue.SplitComplementary | include/pigment/types_hsl.hpp:276-278 | this colour, then 180 minus and 180 plus the angle |
| Hsl.HslValue.ToRGB | include/pigment/types_hsl.hpp:187-219 | alpha kept; zero saturation gives the gray of the lightness byte |
| Hsl.ScaledByte | include/pigment/types_hsl.hpp:232 | the clamped cast of x*factor obeys the factor's range |
| Hsl.ShiftedByte | include/pigment/types_hsl.hpp:244 | the clamped cast of x + amount*255 moves with the sign of the amount and saturates at 0 and 255 |
| Hsl.HslOfRgb | include/pigment/types_hsl.hpp:144-184 | alpha carried and the hue normalized below 36000 |
| Hsl.FromRgbLightness | include/pigment/types_hsl.hpp:156-157 | the lightness byte is (max + min) div 2 of the channels |
| Hsl.FromRgbGray | include/pigment/types_hsl.hpp:159-161 | a gray gives hue 0, saturation 0, lightness its channel, alpha kept |
| Hsl.SaturationOfChromatic | include/pigment/types_hsl.hpp:164 | a chromatic colour's saturation is at least one step of 1/255 |
| Hsl.FromRgbSaturation | include/pigment/types_hsl.hpp:159-165 | the stored saturation is 0 exactly for the grays |
| Hsl.GrayRoundTrip | include/pigment/types_hsl.hpp:144-193 | a gray survives fromRGB then to_rgb unchanged |
| Hsl.HueShiftsCompose | include/pigment/types_hsl.hpp:222-228 | two hue shifts add modulo a turn, and equal one shift by the sum for whole hundredths |
| Hsl.ComplementTwice | include/pigment/types_hsl.hpp:267 | the complement of the complement of a normalized colour is the colour |
| Hsl.SplitComplementarySymmetric | include/pigment/types_hsl.hpp:276-278 | the split complements sit at the complement minus and plus the angle |
| Hsl.LightenDarkenInverse | include/pigment/types_hsl.hpp:254-264 | lightening then darkening by the same whole number of 1/255 steps is exact inside the range |
| Hsl.ConstructorExamples | include/pigment/types_hsl.hpp:36-45 | HSL(120, 0.5, 0.7) and the wrapped and clamped HSL(370, 1.5, -0.1) store the expected fields |
| Hsl.AdjustmentExamples | include/pigment/types_hsl.hpp:222-264 | hue, saturate, desaturate, lighten and darken on HSL(180, 0.5, 0.5) give the expected fields |
| Hsl.OfDegrees | include/pigment/types_hsl.hpp:36-45 | the double constructor stores a normalized hue and the given alpha |
| Hsl.PercentByte | include/pigment/types_hsl.hpp:100-114 | fails exactly when stod fails; 0% or less gives 0 and 100% or more gives 255 |
| Hsl.UnitAlpha | include/pigment/types_hsl.hpp:117 | fails exactly when stod fails |
| Hsl.HuePart | include/pigment/types_hsl.hpp:94-98 | fails exactly when stod fails; the hue is below 36000 |
| Hsl.HslParts | include/pigment/types_hsl.hpp:93-117 | succeeds exactly when every stod call succeeds; then the hue is wrapped, s and l are the clamped percentages as bytes, and alpha is 255 without a fourth part |
| Hsl.CssHsl | include/pigment/types_hsl.hpp:62-120 | no parentheses is the format error, other than three or four parts the count error, otherwise the fields of HslParts |
| Hsl.ParsedHsl | include/pigment/types_hsl.hpp:48-59 | the empty string and a string without the hsl( or hsla( prefix are errors; a success is the CSS parse |
| Hsl.HSL.constructor | include/pigment/types_hsl.hpp:35 | the default object is opaque black |
| Hsl.HSL.FromDegrees | include/pigment/types_hsl.hpp:36-45 | the object holds OfDegrees of the arguments |
| Hsl.HSL.Normalize | include/pigment/types_hsl.hpp:132-141 | the hue is wrapped into [0, 36000); the other fields are unchanged |
| Hsl.HSL.ParseCss | include/pigment/types_hsl.hpp:62-120 | reports CssHsl's error, or stores CssHsl's value |
| Hsl.HSL.Parse | include/pigment/types_hsl.hpp:48-59 | a new object holding ParsedHsl's value, or its error |
| Hsl.HSL.FromRGB | include/pigment/types_hsl.hpp:144-184 | a new object holding HslOfRgb of the colour |
| Hsv.HsvValue.Normalized | include/pigment/types_hsv.hpp:48-57 | the result is normal: hue wrapped into [0, 360), s and v clamped to [0, 1]; a normal value is unchanged |
| Hsv.HsvValue.ToRGB | include/pigment/types_hsv.hpp:93-128 | always opaque; zero saturation gives a gray of round(v*255); the channel of the primary nearest the hue (red below 60 and from 300, green in [60, 180), blue in [180, 300)) is round(v*255), and the channel opposite it (blue below 120, red in [120, 240), green from 240) is round((v - v*s)*255) |
| Hsv.Chroma | include/pigment/types_hsv.hpp:94 | zero when the saturation is zero |
| Hsv.SecondLargest | include/pigment/types_hsv.hpp:95 | zero when the chroma is zero |
| Hsv.Sector | include/pigment/types_hsv.hpp:98-123 | every sector is a permutation of (C, X, 0); C goes to red below 60 and from 300, to green in [60, 180) and to blue in [180, 300); 0 goes to blue below 120, to red in [120, 240) and to green from 240 |
| Hsv.AdjustUnit | include/pigment/types_hsv.hpp:134-158 | stays in [0, 1]; a delta of 1 or more gives 1, of -1 or less gives 0; moves with the sign of the delta; 0 changes nothing |
| Hsv.MoveLaw | include/pigment/types_hsv.hpp:136-142 | the unclamped move hits 1 at delta 1 and 0 at delta -1, stays in [0, 1] and moves with the delta's sign |
| Hsv.AdjustUnitUnclamped | include/pigment/types_hsv.hpp:134-158 | for a component in [0, 1] the final clamp never bites |
| Hsv.HsvOfRgb | include/pigment/types_hsv.hpp:60-90 | the result is normal |
| Hsv.HsvHue | include/pigment/types_hsv.hpp:71-82 | the hue is already in [0, 360); 0 for a gray; within 60 degrees of 0 for a red maximum, in [60, 180] for a green one, in [180, 300] for a blue one |
| Hsv.HsvSaturation | include/pigment/types_hsv.hpp:85 | in [0, 1], and 0 exactly for the grays |
| Hsv.FromRgbGray | include/pigment/types_hsv.hpp:72-86 | a gray gives hue 0, saturation 0 and value r/255 |
| Hsv.GrayRoundTrip | include/pigment/types_hsv.hpp:60-128 | a gray survives fromRGB then to_rgb, made opaque |
| Hsv.BlueExample | include/pigment/types_hsv.hpp:93-128 | HSV(240, 1, 1) converts to pure blue |
| Hsv.HSV.constructor | include/pigment/types_hsv.hpp:28-32 | all components zero |
| Hsv.HSV.FromComponents | include/pigment/types_hsv.hpp:34-39 | the components normalized |
| Hsv.HSV.Normalize | include/pigment/types_hsv.hpp:48-57 | the new state is the old one normalized |
| Hsv.HSV.AdjustBrightness | include/pigment/types_hsv.hpp:134-143 | v becomes AdjustUnit of the old v; h and s unchanged |
| Hsv.HSV.AdjustSaturation | include/pigment/types_hsv.hpp:149-158 | s becomes AdjustUnit of the old s; h and v unchanged |
| Hsv.HSV.FromRGB | include/pigment/types_hsv.hpp:60-90 | a new object holding HsvOfRgb of the colour |
| Hsv.HSV.Parse | include/pigment/types_hsv.hpp:42-45 | fails exactly when the RGB string constructor fails, with its error; otherwise fromRGB of the parsed colour |
| Lab.GammaTable | include/pigment/types_lab.hpp:13-21 | 256 entries |
| Lab.LinearTable | include/pigment/types_lab.hpp:24-32 | 4096 entries |
| Lab.LabFTable | include/pigment/types_lab.hpp:35-43 | 4096 entries |
| Lab.LabFInvTable | include/pigment/types_lab.hpp:46-54 | 4096 entries |
| Lab.CreateGammaToLinearTable | include/pigment/types_lab.hpp:14-21 | the filling loop leaves the array equal to the gamma table |
| Lab.CreateLinearToGammaTable | include/pigment/types_lab.hpp:25-32 | the filling loop leaves the array equal to the linear-to-gamma table |
| Lab.CreateLabFTable | include/pigment/types_lab.hpp:36-43 | the filling loop leaves the array equal to the f table |
| Lab.CreateLabFInvTable | include/pigment/types_lab.hpp:46-54 | the filling loop leaves the array equal to the f inverse table |
| Lab.TablesSampleCurves | include/pigment/types_lab.hpp:16-30 | the gamma tables sample the sRGB curves at i/255 and i/4095 |
| Lab.LinearIndex | include/pigment/types_lab.hpp:65-69 | the index is in the table, 0 and 4095 at the clamped ends, otherwise the truncation of val*4095 |
| Lab.LabFIndex | include/pigment/types_lab.hpp:71-81 | the index is in the table, 0 and 4095 at the clamped ends, otherwise the truncation of t/2*4095 |
| Lab.FastGammaToLinear | include/pigment/types_lab.hpp:63 | reads the sRGB curve at val/255 |
| Lab.FastLinearToGamma | include/pigment/types_lab.hpp:65-69 | the inverse curve at the grid point at or below the clamped value; 0 for values at or below 0 |
| Lab.FastLabF | include/pigment/types_lab.hpp:71-75 | the f table at the clamped index; 16/116 at or below 0 |
| Lab.FastLabFInv | include/pigment/types_lab.hpp:77-81 | the f inverse table at the clamped index; 8 at or above 2 |
| Lab.LabValue.ToRGB | include/pigment/types_lab.hpp:150-174 | the alpha is the byte cast of the stored alpha |
| Lab.LabValue.SquaredDelta | include/pigment/types_lab.hpp:177-182 | non-negative, zero exactly when L, a and b agree |
| Lab.LabValue.AdjustLightness | include/pigment/types_lab.hpp:208-210 | L moves by the amount, clamped to [0, 100]; a, b and alpha kept |
| Lab.LabValue.Mix | include/pigment/types_lab.hpp:213-217 | the ratio is clamped: at or below 0 this colour, at or above 1 the other |
| Lab.LabOfRgb | include/pigment/types_lab.hpp:119-147 | the alpha is copied from the colour |
| Lab.BlackIsOrigin | include/pigment/types_lab.hpp:119-147 | black converts to L = a = b = 0 with its alpha |
| Lab.AlphaRoundTrip | include/pigment/types_lab.hpp:119-173 | fromRGB then to_rgb keeps the alpha |
| Lab.DeltaELaws | include/pigment/types_lab.hpp:177-205 | delta_e and is_similar are symmetric; a colour is 0 from itself and similar to itself |
| Lab.LabValue.DeltaE | include/pigment/types_lab.hpp:177-182 | the same with the two colours swapped; 0 between colours with equal L, a and b when sqrt(0) is 0 |
| Lab.LabValue.IsSimilar | include/pigment/types_lab.hpp:205 | the same with the two colours swapped; a colour is similar to itself for a positive threshold when sqrt(0) is 0 |
| Lab.MixBetween | include/pigment/types_lab.hpp:213-217 | every mixed component, alpha included, lies between the two colours' components |
| Lch.LchValue.Normalized | include/pigment/types_lch.hpp:43-54 | the result is normal: L clamped to [0, 100], C at least 0, H wrapped into [0, 360); a normal value is unchanged |
| Lch.LchValue.AdjustLightness | include/pigment/types_lch.hpp:109 | L moved by delta and clamped; C and H kept for a normal value |
| Lch.LchValue.AdjustChroma | include/pigment/types_lch.hpp:112 | C moved by delta and raised to at least 0; L and H kept for a normal value |
| Lch.LchValue.ScaleChroma | include/pigment/types_lch.hpp:115 | C multiplied by the factor and raised to at least 0; L and H kept for a normal value |
| Lch.LchValue.RotateHue | include/pigment/types_lch.hpp:118 | H moved by the angle and wrapped; L and C kept for a normal value |
| Lch.LchValue.SetHue | include/pigment/types_lch.hpp:121 | H replaced by the wrapped angle; L and C kept for a normal value |
| Lch.LchValue.ToLab | include/pigment/types_lch.hpp:79-82 | L carried over and alpha 255 |
| Lch.LchValue.ToRGB | include/pigment/types_lch.hpp:85 | always opaque |
| Lch.FoldHue | include/pigment/types_lch.hpp:130-133 | the hue difference is moved by at most one turn, lands in [-180, 180] for differences of normal hues, and is kept when already there |
| Lch.LchOfLab | include/pigment/types_lch.hpp:57-70 | normal whatever sqrt and atan2 return; an L in [0, 100] is carried over |
| Lch.LchOfRgb | include/pigment/types_lch.hpp:73-76 | normal |
| Lch.NormalizeLaws | include/pigment/types_lch.hpp:35-54 | normalize is idempotent, and LCH(400, -10, 450) is (100, 0, 90) |
| Lch.RotationsCompose | include/pigment/types_lch.hpp:118 | two rotations equal one rotation by the sum |
| Lch.ComplementTwice | include/pigment/types_lch.hpp:143 | the complement of the complement of a normal value is the value |
| Lch.LchValue.Complement | include/pigment/types_lch.hpp:143 | normal, the hue turned by 180 and wrapped; for a normal value L and C kept and the hue exactly 180 degrees away |
| Lch.LchValue.Analogous | include/pigment/types_lch.hpp:146 | two normal values, the hue turned by -30 and +30 and wrapped; L and C kept for a normal value |
| Lch.LchValue.Triadic | include/pigment/types_lch.hpp:149 | two normal values, the hue turned by 120 and 240 and wrapped; L and C kept for a normal value |
| Lch.LchValue.SplitComplementary | include/pigment/types_lch.hpp:152 | two normal values, the hue turned by 150 and 210 and wrapped; L and C kept for a normal value |
| Lch.LchValue.Tetradic | include/pigment/types_lch.hpp:155 | three normal values, the hue turned by 90, 180 and 270 and wrapped; L and C kept for a normal value |
| Lch.ComplementOpposite | include/pigment/types_lch.hpp:143 | the complement's hue is exactly 180 degrees away |
| Lch.RotationChangesHue | include/pigment/types_lch.hpp:118 | a rotation strictly between -360 and 360 degrees, other than 0, changes a normal hue |
| Lch.HarmoniesChangeHue | include/pigment/types_lch.hpp:143-155 | every member of every harmony has a hue different from the base |
| Lch.DistanceLaws | include/pigment/types_lch.hpp:124-140 | the folded hue difference is within half a turn, and a colour is at distance 0 from itself |
| Lch.LchValue.Distance | include/pigment/types_lch.hpp:124-140 | 0 from a colour to itself when sqrt(0) and sin(0) are 0 |
| Lch.EqualityLaws | include/pigment/types_lch.hpp:88-94 | operator== is reflexive and symmetric, and operator!= is its negation |
| Lch.LchValue.NotEquals | include/pigment/types_lch.hpp:94 | false for a value against itself; true exactly when some component differs by the tolerance or more |
| Lch.LchValue.Equals | include/pigment/types_lch.hpp:88-92 | true for a value against itself, and the same with the two values swapped |
| Lch.LCH.constructor | include/pigment/types_lch.hpp:29-33 | all components zero |
| Lch.LCH.FromComponents | include/pigment/types_lch.hpp:35-40 | the components normalized |
| Lch.LCH.Normalize | include/pigment/types_lch.hpp:43-54 | the new state is the old one normalized |
| Lch.LCH.FromLAB | include/pigment/types_lch.hpp:57-70 | a new object holding LchOfLab |
| Lch.LCH.FromRGB | include/pigment/types_lch.hpp:73-76 | a new object holding LchOfRgb |
| Oklab.OklabValue.AdjustLightness | include/pigment/types_oklab.hpp:136 | L moved by delta and clamped to [0, 1]; a and b kept |
| Oklab.OklabValue.AdjustChroma | include/pigment/types_oklab.hpp:139 | L kept; factor 1 is the identity and factor 0 removes all chroma |
| Oklab.OklabValue.RotateHue | include/pigment/types_oklab.hpp:142-148 | L kept; a rotation whose cosine is 1 and sine 0 changes nothing |
| Oklab.OklabValue.SquaredDistance | include/pigment/types_oklab.hpp:151-156 | non-negative, zero exactly for identical colours |
| Oklab.OklabValue.ToRGB | include/pigment/types_oklab.hpp:76-109 | always opaque |
| Oklab.OklabOfRgb | include/pigment/types_oklab.hpp:41-73 | black converts to the origin when cbrt(0) is 0 |
| Oklab.OklabValue.Distance | include/pigment/types_oklab.hpp:151-156 | the same with the two colours swapped; 0 from a colour to itself when sqrt(0) is 0 |
| Oklab.ChromaIsGrayDistance | include/pigment/types_oklab.hpp:124 | the distance to the gray of the same lightness; 0 for a gray when sqrt(0) is 0 |
| Oklab.OklabValue.Equals | include/pigment/types_oklab.hpp:112-116 | true for a value against itself, and the same with the two values swapped |
| Oklab.DistanceLaws | include/pigment/types_oklab.hpp:151-156 | distance is symmetric and zero from a colour to itself |
| Oklab.EqualityLaws | include/pigment/types_oklab.hpp:112-118 | operator== is reflexive and symmetric, and operator!= is its negation |
| Oklab.NotEqualsLaws | include/pigment/types_oklab.hpp:118 | operator!= is false for a value against itself, symmetric, and true exactly when some component differs by the tolerance or more |
| Oklab.AdjustLightnessLaws | include/pigment/types_oklab.hpp:136 | a zero delta keeps a lightness in [0, 1]; two deltas compose when the first stays in range |
| Oklab.AdjustChromaCompose | include/pigment/types_oklab.hpp:139 | chroma factors compose multiplicatively |
| Xyz.XyzValue.Normalized | include/pigment/types_xyz.hpp:114-118 | every component raised to at least 0; a non-negative value is unchanged |
| Xyz.XyzValue.ToRGBAsWritten | include/pigment/types_xyz.hpp:71-99 | divides by (95.047, 100, 108.883) before the inverse matrix; always opaque; the origin converts to opaque black |
| Xyz.XyzValue.Equals | include/pigment/types_xyz.hpp:102-106 | true for a value against itself, and the same with the two values swapped |
| Xyz.XyzOfRgbAsWritten | include/pigment/types_xyz.hpp:41-68 | the matrix output times (95.047, 100, 108.883); black converts to the origin |
| Xyz.RoundTripUnaffectedByScale | include/pigment/types_xyz.hpp:41-99 | fromRGB then to_rgb gives the same colour with the factors as written and with the corrected ones |
| Xyz.LuminanceOfRgb | include/pigment/types_xyz.hpp:110-111 | luminance is Y, which the scale factors leave the same; white has luminance 100 to the matrix's seventh decimal |
| Xyz.LuminanceBounded | include/pigment/types_xyz.hpp:111 | the luminance of a colour converted from RGB lies in [0, 100.00001] when pow keeps [0, 1] in [0, 1] |
| Xyz.UnscaleRecoversMatrix | include/pigment/types_xyz.hpp:63-75 | to_rgb's division undoes fromRGB's scale, whatever the scale |
| Xyz.WhiteAsWritten | include/pigment/types_xyz.hpp:58-65 | with the scale as written, white has X below 90.34 and Z above 118.5 |
| Xyz.WhiteIsD65 | include/pigment/types_xyz.hpp:58-65 | with the corrected scale, white is the D65 white point (95.047, 100, 108.883) |
| Xyz.NormalizeLaws | include/pigment/types_xyz.hpp:111-118 | normalize is idempotent; the luminance it leaves is non-negative, and Y when Y already was |
| Xyz.EqualityLaws | include/pigment/types_xyz.hpp:102-108 | operator== is reflexive and symmetric, and operator!= is its negation |
| Xyz.NotEqualsLaws | include/pigment/types_xyz.hpp:108 | operator!= is false for a value against itself, symmetric, and true exactly when some component differs by the tolerance or more |
| Xyz.XYZ.constructor | include/pigment/types_xyz.hpp:28-32 | all components zero |
| Xyz.XYZ.FromComponents | include/pigment/types_xyz.hpp:34-38 | the components as given, not normalized |
| Xyz.XYZ.Normalize | include/pigment/types_xyz.hpp:114-118 | the new state is the old one normalized |
| Xyz.XYZ.FromRGB | include/pigment/types_xyz.hpp:41-68 | a new object holding XyzOfRgbAsWritten, the matrix output times (95.047, 100, 108.883) |
| Srgb.SrgbToLinear | include/pigment/types_xyz.hpp:43-50 | the linear segment below 0.04045 |
| Srgb.LinearToSrgb | include/pigment/types_xyz.hpp:83-89 | the linear segment at or below 0.0031308 |
| Srgb.LinearToXyz | include/pigment/types_xyz.hpp:58-60 | white maps to the D65 white relative to Y = 1, black to the origin |
| Srgb.XyzToLinear | include/pigment/types_xyz.hpp:78-80 | the origin maps to black |
| Srgb.EncodeChannel | include/pigment/types_xyz.hpp:96-98 | non-positive linear light encodes to 0 |
| Utils.SanitizeRgb | include/pigment/utils.hpp:388-390 | the colour has exactly the given channels when is_valid_rgb holds; otherwise each out-of-range channel goes to 0 or 255 |
| Utils.IsValidRgb | include/pigment/utils.hpp:339-341 | true exactly when clamping each of the four integers to [0, 255] changes none of them |
| Utils.ValidHslUnwrapped | include/pigment/utils.hpp:343-345 | is_valid_hsl is true exactly when wrapping the hue into [0, 360) and clamping saturation and lightness to [0, 1] change nothing |
| Utils.ValidHsvIsNormal | include/pigment/utils.hpp:347-349 | is_valid_hsv is true exactly when HSV(h, s, v) is a normal HSV value (hue in [0, 360), s and v in [0, 1]) |
| Utils.ValidLabUnclamped | include/pigment/utils.hpp:351-353 | is_valid_lab is true exactly when clamping L to [0, 100] and a and b to [-128, 127] changes nothing |
| Utils.SanitizeIdempotent | include/pigment/utils.hpp:388-390 | sanitizing a sanitized colour changes nothing |
| Utils.HexBodyDigits | include/pigment/utils.hpp:356-373 | a valid hex colour expands to eight hexadecimal digits |
| Utils.IsValidHexColor | include/pigment/utils.hpp:356-373 | an accepted string has 3 to 9 characters, 9 only with a leading '#', and expands to an 8-character body |
| Utils.HexColorIsNotCss | include/pigment/utils.hpp:356-373 | a valid hex colour never takes the CSS path of the RGB string constructor |
| Utils.ValidHexParses | include/pigment/utils.hpp:356-373 | every string is_valid_hex_color accepts parses, to the values of its digit pairs |
| Utils.CssValidatorsMatchParsers | include/pigment/utils.hpp:375-385 | is_valid_css_rgb and is_valid_css_hsl accept exactly the strings the constructors send to their CSS parsers |
| Utils.ValidCssRgbSubstrings | include/pigment/utils.hpp:375-379 | is_valid_css_rgb is true exactly when the first 4 characters are "rgb(" or the first 5 are "rgba(", so the empty string is refused |
| Utils.ValidCssHslSubstrings | include/pigment/utils.hpp:381-385 | is_valid_css_hsl is true exactly when the first 4 characters are "hsl(" or the first 5 are "hsla(", so the empty string is refused |
| Utils.ToGrayscaleAverage | include/pigment/utils.hpp:444-447 | a gray whose value is the integer mean of r, g and b, between the smallest and largest channel; alpha kept |
| Utils.ToGrayscaleLightness | include/pigment/utils.hpp:454-458 | a gray whose value is HSL's lightness byte, between the smallest and largest channel; alpha kept |
| Utils.GrayscaleFixesGray | include/pigment/utils.hpp:444-458 | both variants leave a gray unchanged and are idempotent |
| Utils.RgbDistanceSquared | include/pigment/utils.hpp:256-261 | at most 3*255^2, zero exactly when r, g and b agree |
| Utils.RgbDistanceSymmetric | include/pigment/utils.hpp:256-261 | the distance does not depend on the order of the colours |
| Utils.RgbDistance | include/pigment/utils.hpp:256-261 | the same with the two colours swapped; 0 between colours with equal r, g and b (alpha ignored) when sqrt(0) is 0 |
| Utils.ColorDistance | include/pigment/utils.hpp:249-253 | the same with the two colours swapped; 0 between colours with equal r, g and b when sqrt(0) is 0 |
| Utils.CloserIsDistanceBelow | include/pigment/utils.hpp:256-261 | with an exact square root, comparing squares is comparing rgb_distance with the threshold |
| Utils.CloserSymmetric | include/pigment/utils.hpp:485 | the threshold test is symmetric |
| Utils.Luminance | include/pigment/types_basic.hpp:282 | in [0, 255], and a gray's own value |
| Utils.ContrastRatio | include/pigment/utils.hpp:59-68 | between 1 and 21 |
| Utils.LuminanceRatio | include/pigment/utils.hpp:63-67 | between 1 and 21 for relative luminances in [0, 1] |
| Utils.ContrastRatioSymmetric | include/pigment/utils.hpp:59-68 | symmetric in the two colours; a colour against itself is 1 |
| Utils.LuminanceRatioSymmetric | include/pigment/utils.hpp:63-67 | the swap makes the ratio symmetric; equal luminances give 1 |
| Utils.BlackOnWhite | include/pigment/utils.hpp:59-68 | black against white is 21 |
| Utils.AccessibilityOf | include/pigment/utils.hpp:81-94 | passes exactly from 4.5 (3 for large text); an AAA level exactly from 7 (4.5 for large text); AAA normal exactly from 7; large text never gets AA normal, normal text never a large level |
| Utils.CheckAccessibility | include/pigment/utils.hpp:81-94 | the ladder on the contrast ratio, the same with foreground and background swapped; black on white is AAA normal |
| Utils.AccessibilityLaws | include/pigment/utils.hpp:81-94 | a higher ratio never gives a lower level; swapping the colours changes nothing; black on white is AAA |
| Utils.BestContrastColor | include/pigment/utils.hpp:97-102 | black or white, whichever contrasts at least as much as both |
| Palette.Deduplicated | include/pigment/utils.hpp:479-496 | never longer than the input, and keeps the first colour |
| Palette.RemoveDuplicates | include/pigment/utils.hpp:479-496 | the nested loops compute Deduplicated |
| Palette.DeduplicatedSubsequence | include/pigment/utils.hpp:479-496 | the kept colours are an order-preserving subsequence of the input |
| Palette.DeduplicatedSeparated | include/pigment/utils.hpp:479-496 | no two kept colours are closer than the threshold |
| Palette.DeduplicatedPrefix | include/pigment/utils.hpp:482-493 | what is kept from a prefix is a prefix of what is kept from the whole input |
| Palette.DeduplicatedCovers | include/pigment/utils.hpp:482-493 | every dropped colour is closer than the threshold to a colour kept before it |
| Palette.DeduplicatedKeepsAll | include/pigment/utils.hpp:479-496 | a threshold of at most 0 keeps every colour |
| Palette.MinDistanceTo | include/pigment/utils.hpp:514-519 | at most the starting value, which it keeps when nothing is selected |
| Palette.MinDistanceIsMinimum | include/pigment/utils.hpp:514-519 | the smallest squared distance to a selected colour, and one that is reached |
| Palette.BestIndexIsFarthest | include/pigment/utils.hpp:509-526 | the picked position is the first one farthest from the selection |
| Palette.SizeOf | include/pigment/utils.hpp:507 | a non-negative count is kept; a negative one wraps above the largest vector size |
| Palette.MinDistance | include/pigment/utils.hpp:514-519 | the inner loop computes MinDistanceTo |
| Palette.FarthestIndex | include/pigment/utils.hpp:509-526 | the scan computes BestIndex |
| Palette.ExtractDominantColors | include/pigment/utils.hpp:499-533 | the outer loop computes DominantColors |
| Palette.ExtractedLaws | include/pigment/utils.hpp:507-530 | the selection only grows, stops at the limit or when nothing remains, and takes each input colour at most once |
| Palette.FirstPickIsFirst | include/pigment/utils.hpp:509-526 | with nothing selected the scan picks the first colour |
| Palette.DominantColorsLaws | include/pigment/utils.hpp:499-533 | empty input gives empty output; min(count, size) colours for a non-negative count, all of them for a negative one; a sub-multiset of the input |
| Palette.DominantColorsFirst | include/pigment/utils.hpp:499-533 | the first colour returned is the first input colour |
| Palette.ClosestIndex | include/pigment/utils.hpp:312-321 | the first palette position with the smallest distance among those scanned |
| Palette.ClosestByIsClosest | include/pigment/utils.hpp:308-324 | the target for an empty palette; otherwise a palette colour no farther than any other, and the first such |
| Palette.FindClosestColor | include/pigment/utils.hpp:308-324 | the loop computes Closest |
| Palette.QuantizeToPalette | include/pigment/utils.hpp:327-336 | one colour per input, each the closest palette entry to the input at the same position |
| Harmony.ToRgbs | include/pigment/utils.hpp:198-199 | the RGB of each HSL value in order, alpha carried |
| Harmony.Monochromatic | include/pigment/utils.hpp:134-161 | a negative count throws; otherwise count colours, the base in the middle, every alpha the base's |
| Harmony.VariationLightness | include/pigment/utils.hpp:143-153 | variations keep hue, saturation and alpha; below the middle they are no lighter, above it no darker |
| Harmony.GenerateMonochromatic | include/pigment/utils.hpp:134-161 | the loop computes Monochromatic |
| Harmony.GoldenRatio | include/pigment/utils.hpp:176-187 | max(count, 1) colours, the base first, every alpha the base's |
| Harmony.GoldenHues | include/pigment/utils.hpp:181-184 | colour i is the base's HSL turned by i golden angles |
| Harmony.GenerateGoldenRatioScheme | include/pigment/utils.hpp:176-187 | the loop computes GoldenRatio |
| Harmony.SplitComplementaryScheme | include/pigment/utils.hpp:164-173 | three colours, the base first, every alpha the base's |
| Harmony.SplitComplementaryAgrees | include/pigment/utils.hpp:164-205 | at 30 degrees it equals generate_harmony's split_complementary; at 0 degrees both sides are the complement |
| Harmony.RgbsExcept | include/pigment/utils.hpp:198-211 | the RGB of every value but the skipped one, in order |
| Harmony.HueColors | include/pigment/utils.hpp:194-216 | every colour carries the base's alpha |
| Harmony.Harmony | include/pigment/utils.hpp:190-224 | the base is in the scheme and first in all but the monochromatic one; every alpha the base's |
| Harmony.HarmonyShapes | include/pigment/utils.hpp:190-224 | sizes 2, 3, 3, 3, 4, 5 and 5; monochromatic has the base in the middle |
| Harmony.HarmonyUnknown | include/pigment/utils.hpp:190-224 | an unknown scheme name gives the base alone |
| Harmony.PushRgbs | include/pigment/utils.hpp:198-211 | the push loops append RgbsExcept |
| Harmony.PushHueColors | include/pigment/utils.hpp:194-216 | the branches append HueColors |
| Harmony.GenerateHarmony | include/pigment/utils.hpp:190-224 | computes Harmony |
| Text.Stoi | include/pigment/types_basic.hpp:66-69 | a value std::stoi returns fits in an int |
| Text.StoiHexPair | include/pigment/types_basic.hpp:66-69 | two hexadecimal digits read in base 16 give the byte they spell |
| Text.RemoveChar | include/pigment/types_basic.hpp:75-76 | the removed character no longer occurs; a string without it is unchanged |
| Text.IndexOf | include/pigment/types_basic.hpp:78-79 | an index within the string holds the character; the length stands for npos |
| Text.IndexOfFirst | include/pigment/types_basic.hpp:78-79 | nothing before the found index is the character |
| Text.CssArguments | include/pigment/types_basic.hpp:75-85 | present exactly when '(' and a later ')' exist after removing spaces; the text holds neither a space nor ')' |
| Text.SplitOnCommas | include/pigment/types_basic.hpp:88-98 | the splitting loop computes SplitCommas |
| Text.SplitCommasNoComma | include/pigment/types_basic.hpp:88-98 | no part contains a comma |
| Text.FindFromIsIndexOf | include/pigment/types_basic.hpp:91 | find from a position is find in the suffix, shifted |
| Text.SplitFromIsSplitCommas | include/pigment/types_basic.hpp:88-98 | the loop's parts from a position are the split of the suffix |
| Text.SplitCommasCount | include/pigment/types_basic.hpp:88-102 | one part per comma, plus one when the text after the last comma is not empty |
| Numeric.Clamp | include/pigment/types_basic.hpp:139 | std::clamp: in range, identity inside, the bound outside |
| Numeric.ClampReal | include/pigment/types_hsl.hpp:37 | std::clamp on doubles: in range, identity inside, the bound outside |
| Numeric.Trunc | include/pigment/types_hsl.hpp:244 | conversion to int truncates toward zero |
| Numeric.Round | include/pigment/types_hsl.hpp:217 | std::round: the nearest integer on either side of zero, halves away from zero |
| Numeric.CastByte | include/pigment/types_basic.hpp:182-185 | the cast to uint8_t truncates a value in [0, 256) |
| Numeric.RoundByte | include/pigment/types_hsl.hpp:217-218 | rounds, saturating at 0 and 255 |
| Numeric.Rem | include/pigment/types_hsl.hpp:135 | the C++ remainder of an int takes the dividend's sign |
| Numeric.WrapDegreesIsFloorMod | include/pigment/types_hsl.hpp:40-42 | fmod then adding 360 to a negative result is the floored remainder, in [0, 360) |
| Numeric.WrapDegreesNormalizes | include/pigment/types_lch.hpp:48-53 | the wrap lands in [0, 360), keeps in-range values and is idempotent |
| Numeric.WrapDegreesAdd | include/pigment/types_lch.hpp:118 | wrapping, rotating and wrapping again is one wrap of the sum |
| Numeric.WrapIfOutsideIsWrap | include/pigment/types_hsv.hpp:50-54 | wrapping only outside [0, 360) is the same as always wrapping |
| Numeric.NearLaws | include/pigment/types_lch.hpp:88-92 | the 1e-6 tolerance is reflexive and symmetric but not transitive |

## Left out

- IEEE rounding, NaN and infinities: every double and float is an exact real, so rounding-sensitive results (the chromatic HSL and HSV conversions, the colorimetric matrices) are exact-arithmetic versions of the source's.
- The values of `pow`, `cbrt`, `sqrt`, `sin`, `cos`, `atan2` and `std::stod`: they are parameters, so nothing is proved about LAB, XYZ or OKLAB conversions beyond alpha, clamping, the table indices and the black and white points.
- `LAB::delta_e_2000`, `OKLAB::hue_radians`/`hue_degrees`, `LCH::hue_radians` and the component getters: floating formulas or plain accessors with nothing exact to state.
- The `random()` factories of `RGB`, `MONO` and `HSL`: they read a global random engine.
- Serialization (`members()`) and the implicit `RGB(HSL)`, `RGB(LAB)`, `RGB(XYZ)`, `RGB(OKLAB)`, `RGB(LCH)`, `RGB(HSV)` constructors: they copy the `to_rgb` result, which is modelled.
- `RGB::operator*`, `brighten`, `darken`, `+=`, `*=`, `is_dark`, `is_light`, `warm`, `cool`, `apply_gamma`, `remove_gamma`, `adjust_contrast`, `alpha_blend`, `alpha_blend_simple`, `to_grayscale`, the tuple conversion and the named colour constants other than black and white: float products cast to bytes, outside the modelled core.
- `MONO(const RGB&)`, `MONO::operator*`, `brighten`, `darken` and `mix`: float products cast to bytes.
- `HSL::get_h`/`get_s`/`get_l` and `HSL::operator==(double)`: float views of the fixed-point fields.
- `HSV::to_hex`: `to_rgb` followed by the modelled RGB `to_hex`.
- `ColorBlindness::simulate`, `color_temperature`, `is_warm_color`, `temperature_to_rgb`, `to_sepia`, `to_grayscale_luminance`, `to_grayscale_desaturate`, `brightness_difference`, `hue_difference`, `saturation_difference`, `lightness_difference`, `colors_similar` and `sanitize_hsl`: floating formulas outside the modelled core.
- `sort_by_hue`, `sort_by_brightness`, `sort_by_saturation`: in-place `std::sort` on float keys.
- Lab.LabValue.ToRGB: states the alpha and, through the byte type of every channel, the clamp into [0, 255]; the channel values depend on `pow`, which is a parameter.
- Oklab.OklabValue.ToRGB: states the alpha and, through the byte type of every channel, the clamp into [0, 255]; the channel values depend on `pow`, which is a parameter.
- Xyz.XyzValue.ToRGBAsWritten: states the alpha and, through the byte type of every channel, the clamp into [0, 255]; the channel values depend on `pow`, which is a parameter.
- Hsl.FromRgbLightness: the identity with (max + min) div 2 holds in exact arithmetic only; in double precision `((max/255.0 + min/255.0)/2.0)*255` can fall just below a whole number and truncate one lower, as for `RGB(34, 32, 32)` (32 against 33), always on a chromatic colour.
- Utils.ToGrayscaleLightness: its integer `(max + min) / 2` is the source's exactly, but its agreement with HSL's lightness byte holds in exact arithmetic only, for the reason given for Hsl.FromRgbLightness.
- Harmony.Monochromatic: the darken and lighten amounts `0.1 * (count/2 - i)` are exact here; in double precision `0.1 * 6` is 0.6000000000000001, and times 255 it is 153.00000000000003, so for a count of 12 or more `l - amount*255` can truncate one lower than in this model (l = 200 gives 46 in C++, 47 here).
- Numeric.Trunc: truncates any real to an unbounded integer, where `static_cast<int>` of a double outside the range of `int` is undefined behaviour in C++; the model gives those inputs the mathematical truncation. The callers that can reach such inputs are listed next.
- Hsl.HslValue.AdjustHue: `static_cast<int>(degrees * 100)` and the following `int` sum are modelled without the 32-bit range (degrees beyond about 21474836 in magnitude are undefined in C++); the same holds for the HSL harmonies and Harmony.GoldenRatio, which reach it for counts above about 156000.
- Hsl.ShiftedByte: the `int` cast in `saturate`, `desaturate`, `lighten` and `darken` is modelled without the 32-bit range, so amounts whose product with 255 leaves `int` get a defined value here.
- Basic.CssAlpha: the `int` cast of `stod(alpha) * 255` is modelled without the 32-bit range, so an alpha above about 8.4 million gets the clamped value 255 here, where C++ leaves it undefined.
- Lch.DistanceLaws: states the hue fold and distance 0 to itself, not symmetry, because the source weights the hue term by `other.c()` only, so `distance` is not symmetric.
- Utils.CloserIsDistanceBelow: the RGB-distance threshold tests of `remove_duplicates` and `extract_dominant_colors` compare exact squared integer distances; they agree with `rgb_distance` only when `sqrt` is exact.
- Palette.ExtractDominantColors: `numeric_limits<double>::max()` as the starting `min_distance` is modelled by `3*255^2 + 1`, one more than any squared RGB distance, which selects the same colours.
- Harmony.GoldenHues: states colour i as the base's HSL turned by i golden angles through `adjust_hue`, not as a closed formula of the hue.
- Harmony.Harmony: the function tests the scheme names in a different order from `generate_harmony`; the names are distinct, so the result is the same.
- Palette.QuantizeToPalette: stated pointwise through `find_closest_color`; the colour distance it uses (`color_distance`, the LAB delta E) is a function of the `Libm` parameter.
- The `0.05`-offset contrast ratio is modelled exactly, but `luminance` is a real, so ties between `contrast_ratio(white, ·)` and `contrast_ratio(black, ·)` are decided exactly rather than in double precision.
- The `Hsl.HSL`, `Hsv.HSV`, `Lch.LCH` and `Xyz.XYZ` classes: their methods state the new state; aliasing between objects does not arise in the source and is not modelled.

## Findings

| source | as written | input that shows it | evidently intended | confidence | as-written member | corrected member |
|---|---|---|---|---|---|---|
| include/pigment/types_xyz.hpp:58-65 | `fromRGB` multiplies the matrix output, whose white is already (0.95047, 1, 1.08883), by (95.047, 100, 108.883); `to_rgb` (lines 73-75) divides by the same factors | white `RGB(255, 255, 255)` gives X ≈ 90.34 and Z ≈ 118.55 instead of the D65 white point (95.047, 100, 108.883) | scale every component by 100, so white is the D65 white point (`Xyz.XyzOfRgbD65`, `Xyz.XyzValue.ToRGBD65`); the round trip is unaffected because `to_rgb` divides by the same factors (`Xyz.RoundTripUnaffectedByScale`); the `Xyz.XYZ` class keeps the factors as written | not executed | Xyz.WhiteAsWritten | Xyz.WhiteIsD65 |
