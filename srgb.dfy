/**
 * The sRGB transfer curve (IEC 61966-2-1) and the linear-RGB/XYZ matrices for the
 * D65 white point, as XYZ, OKLAB and LAB write them. `pow` is a parameter: its
 * values are not modelled.
 */
module Srgb {
  import opened Numeric

  /** The `linearize` lambda: a gamma-encoded value in [0, 1] to linear light. */
  function SrgbToLinear(m: Libm, u: real): (v: real)
    ensures u <= 0.04045 ==> v == u / 12.92
  {
    if u <= 0.04045 then u / 12.92 else m.pow((u + 0.055) / 1.055, 2.4)
  }

  /** The `gamma_correct` lambda: linear light back to the gamma-encoded value. */
  function LinearToSrgb(m: Libm, v: real): (u: real)
    ensures v <= 0.0031308 ==> u == v * 12.92
  {
    if v <= 0.0031308 then v * 12.92 else 1.055 * m.pow(v, 1.0 / 2.4) - 0.055
  }

  /** Linearize one byte channel: its value over 255, through the transfer curve. */
  function ChannelToLinear(m: Libm, x: Byte): real {
    SrgbToLinear(m, x as real / 255.0)
  }

  /** A triple of doubles. */
  datatype Triple = Triple(x: real, y: real, z: real)

  /** The sRGB-to-XYZ matrix (D65, relative to a white of Y = 1). */
  function LinearToXyz(r: real, g: real, b: real): (t: Triple)
    ensures r == g == b == 1.0 ==> t == Triple(0.95047, 1.0000001, 1.08883)
    ensures r == g == b == 0.0 ==> t == Triple(0.0, 0.0, 0.0)
  {
    Triple(r * 0.4124564 + g * 0.3575761 + b * 0.1804375,
           r * 0.2126729 + g * 0.7151522 + b * 0.0721750,
           r * 0.0193339 + g * 0.1191920 + b * 0.9503041)
  }

  /** The XYZ-to-sRGB matrix, the inverse of LinearToXyz up to its seven decimals. */
  function XyzToLinear(x: real, y: real, z: real): (t: Triple)
    ensures x == y == z == 0.0 ==> t == Triple(0.0, 0.0, 0.0)
  {
    Triple(x * 3.2404542 + y * -1.5371385 + z * -0.4985314,
           x * -0.9692660 + y * 1.8760108 + z * 0.0415560,
           x * 0.0556434 + y * -0.2040259 + z * 1.0572252)
  }

  /** static_cast<uint8_t>(std::clamp(std::round(v * 255.0), 0.0, 255.0)) of one gamma-encoded channel. */
  function EncodeChannel(m: Libm, linear: real): (b: Byte)
    ensures linear <= 0.0 ==> b == 0
  {
    RoundByte(LinearToSrgb(m, linear) * 255.0)
  }
}
