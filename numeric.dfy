/** Failure-compatible wrappers used for the headers' exceptions. */
module Results {

  datatype Option<+T> = None | Some(value: T)

  /** The value a parsing routine produces, or the exception it throws. */
  datatype Result<+T, +E> = Ok(value: T) | Err(error: E) {

    predicate IsFailure() {
      Err?
    }

    function PropagateFailure<U>(): Result<U, E>
      requires Err?
    {
      Err(error)
    }

    function Extract(): T
      requires Ok?
    {
      value
    }

    /** The error, if there is one. */
    function ErrorOf(): Option<E> {
      if Ok? then None else Some(error)
    }
  }
}

/**
 * The numeric conventions the headers rely on: 8- and 16-bit channels, std::clamp,
 * C++ conversions from double to integer, std::round, std::fmod and the hue wrap of
 * the floating spaces. Doubles are modelled as exact reals: no rounding, no NaN.
 */
module Numeric {

  type Byte = x: int | 0 <= x < 0x100
  type U16 = x: int | 0 <= x < 0x1_0000
  /** A C++ int. */
  type Int32 = x: int | -0x8000_0000 <= x < 0x8000_0000

  /** std::clamp on integers. */
  function Clamp(x: int, lo: int, hi: int): (r: int)
    requires lo <= hi
    ensures lo <= r <= hi
    ensures lo <= x <= hi ==> r == x
    ensures x < lo ==> r == lo
    ensures hi < x ==> r == hi
  {
    if x < lo then lo else if hi < x then hi else x
  }

  /** std::clamp on doubles. */
  function ClampReal(x: real, lo: real, hi: real): (r: real)
    requires lo <= hi
    ensures lo <= r <= hi
    ensures lo <= x <= hi ==> r == x
    ensures x < lo ==> r == lo
    ensures hi < x ==> r == hi
  {
    if x < lo then lo else if hi < x then hi else x
  }

  function ClampByte(x: int): Byte {
    Clamp(x, 0, 255)
  }

  function MaxReal(x: real, y: real): real {
    if x < y then y else x
  }

  function MinReal(x: real, y: real): real {
    if y < x then y else x
  }

  function AbsReal(x: real): real {
    if x < 0.0 then -x else x
  }

  /** A C++ conversion from double to integer truncates toward zero. */
  function Trunc(x: real): (n: int)
    ensures 0.0 <= x ==> n as real <= x < n as real + 1.0
    ensures x < 0.0 ==> n as real - 1.0 < x <= n as real
  {
    if 0.0 <= x then x.Floor else -((-x).Floor)
  }

  /** std::round: to the nearest integer, halves away from zero. */
  function Round(x: real): (n: int)
    ensures 0.0 <= x ==> 0 <= n && x - 0.5 < n as real <= x + 0.5
    ensures x <= 0.0 ==> n <= 0 && x - 0.5 <= n as real < x + 0.5
  {
    if 0.0 <= x then (x + 0.5).Floor else -((-x + 0.5).Floor)
  }

  /**
   * static_cast<uint8_t> of a double. C++ defines it only for values that fit;
   * this model saturates outside [0, 255].
   */
  function CastByte(x: real): (b: Byte)
    ensures 0.0 <= x < 256.0 ==> b == Trunc(x)
  {
    ClampByte(Trunc(x))
  }

  /** A value between two bytes converts to a byte between them. */
  lemma CastByteBetween(v: real, lo: Byte, hi: Byte)
    requires lo as real <= v <= hi as real
    ensures lo <= CastByte(v) <= hi
  {
    assert CastByte(v) == Trunc(v);
  }

  /** static_cast<uint16_t> of a double, saturating like CastByte. */
  function CastU16(x: real): (h: U16)
    ensures 0.0 <= x < 65536.0 ==> h == Trunc(x)
  {
    Clamp(Trunc(x), 0, 0xFFFF)
  }

  /** static_cast<uint8_t>(std::round(x)), saturating like CastByte. */
  function RoundByte(x: real): (b: Byte)
    ensures 0 <= Round(x) <= 255 ==> b == Round(x)
    ensures x <= 0.0 ==> b == 0
    ensures 255.0 <= x ==> b == 255
  {
    ClampByte(Round(x))
  }

  /** C++ `%` on int with a positive divisor: the remainder takes the dividend's sign. */
  function Rem(a: int, m: int): (r: int)
    requires 0 < m
    ensures -m < r < m
    ensures 0 <= a ==> r == a % m
    ensures a < 0 ==> r <= 0
  {
    if 0 <= a then a % m else -((-a) % m)
  }

  /** std::fmod with a positive divisor: x minus the truncated quotient times y. */
  function FMod(x: real, y: real): real
    requires 0.0 < y
  {
    x - y * Trunc(x / y) as real
  }

  /** The floored remainder of x by 360, the unique value in [0, 360) congruent to x. */
  function FloorMod360(x: real): real {
    x - 360.0 * (x / 360.0).Floor as real
  }

  /** `fmod(x, 360)`, plus 360 when that is negative: the hue wrap of the floating spaces. */
  function WrapDegrees(x: real): real {
    var m := FMod(x, 360.0);
    if m < 0.0 then m + 360.0 else m
  }

  /** The wrap that runs only when the hue is outside [0, 360), as HSV and LCH write it. */
  function WrapDegreesIfOutside(x: real): real {
    if x < 0.0 || 360.0 <= x then WrapDegrees(x) else x
  }

  /** The truncating fmod followed by the sign correction is the floored remainder. */
  lemma WrapDegreesIsFloorMod(x: real)
    ensures WrapDegrees(x) == FloorMod360(x)
    ensures 0.0 <= WrapDegrees(x) < 360.0
  {
    var q := x / 360.0;
    var f := q.Floor;
    assert f as real <= q < f as real + 1.0;
    if 0.0 <= x {
      assert Trunc(q) == f;
    } else if f as real == q {
      assert Trunc(q) == f;
      assert FMod(x, 360.0) == 0.0;
    } else {
      assert Trunc(q) == f + 1;
      assert FMod(x, 360.0) == x - 360.0 * (f + 1) as real;
    }
  }

  lemma FloorMod360Range(x: real)
    ensures 0.0 <= FloorMod360(x) < 360.0
  {
    var q := x / 360.0;
    assert q.Floor as real <= q < q.Floor as real + 1.0;
  }

  /** Whole turns do not change the floored remainder. */
  lemma FloorMod360Shift(x: real, k: int)
    ensures FloorMod360(x + 360.0 * k as real) == FloorMod360(x)
  {
    var q := x / 360.0;
    var q' := (x + 360.0 * k as real) / 360.0;
    assert q' == q + k as real;
    var f := q.Floor;
    assert f as real <= q < f as real + 1.0;
    assert (f + k) as real <= q' < (f + k) as real + 1.0;
    assert q'.Floor == f + k;
  }

  /** A value already in [0, 360) is its own floored remainder. */
  lemma FloorMod360Identity(x: real)
    requires 0.0 <= x < 360.0
    ensures FloorMod360(x) == x
  {
    assert (x / 360.0).Floor == 0;
  }

  /** WrapDegrees lands in [0, 360), keeps in-range values and is idempotent. */
  lemma WrapDegreesNormalizes(x: real)
    ensures 0.0 <= WrapDegrees(x) < 360.0
    ensures 0.0 <= x < 360.0 ==> WrapDegrees(x) == x
    ensures WrapDegrees(WrapDegrees(x)) == WrapDegrees(x)
  {
    WrapDegreesIsFloorMod(x);
    WrapDegreesIsFloorMod(WrapDegrees(x));
    FloorMod360Identity(WrapDegrees(x));
    if 0.0 <= x < 360.0 {
      FloorMod360Identity(x);
    }
  }

  /** Rotating an already wrapped hue and wrapping again is the same as one wrap of the sum. */
  lemma {:induction false} WrapDegreesAdd(x: real, d: real)
    ensures WrapDegrees(WrapDegrees(x) + d) == WrapDegrees(x + d)
  {
    WrapDegreesIsFloorMod(x);
    WrapDegreesIsFloorMod(x + d);
    WrapDegreesIsFloorMod(WrapDegrees(x) + d);
    var k := (x / 360.0).Floor;
    assert WrapDegrees(x) + d == (x + d) + 360.0 * (-k) as real;
    FloorMod360Shift(x + d, -k);
  }

  /** Within one turn of [0, 360) the wrap adds or subtracts at most one turn. */
  lemma WrapDegreesNear(x: real)
    requires -360.0 <= x < 720.0
    ensures x < 0.0 ==> WrapDegrees(x) == x + 360.0
    ensures 0.0 <= x < 360.0 ==> WrapDegrees(x) == x
    ensures 360.0 <= x ==> WrapDegrees(x) == x - 360.0
  {
    WrapDegreesIsFloorMod(x);
    if x < 0.0 {
      FloorMod360Shift(x + 360.0, -1);
      FloorMod360Identity(x + 360.0);
    } else if x < 360.0 {
      FloorMod360Identity(x);
    } else {
      FloorMod360Shift(x - 360.0, 1);
      FloorMod360Identity(x - 360.0);
    }
  }

  /** The guarded form HSV and LCH use computes the same wrap as the unguarded one. */
  lemma WrapIfOutsideIsWrap(x: real)
    ensures WrapDegreesIfOutside(x) == WrapDegrees(x)
  {
    WrapDegreesNormalizes(x);
  }

  /** The 1e-6 tolerance of the floating spaces' operator==. */
  const TOLERANCE: real := 0.000001

  /** Two doubles closer than the tolerance, as operator== compares each component. */
  predicate Near(x: real, y: real) {
    AbsReal(x - y) < TOLERANCE
  }

  /** Nearness is reflexive and symmetric, but not transitive. */
  lemma NearLaws(x: real, y: real)
    ensures Near(x, x)
    ensures Near(x, y) <==> Near(y, x)
    ensures Near(0.0, TOLERANCE / 2.0) && Near(TOLERANCE / 2.0, TOLERANCE) && !Near(0.0, TOLERANCE)
  {
  }

  /** A product of two non-negative reals is non-negative. */
  lemma ProductNonNegative(x: real, y: real)
    requires 0.0 <= x && 0.0 <= y
    ensures 0.0 <= x * y
  {
  }

  /** A product of two positive reals is positive. */
  lemma ProductPositive(x: real, y: real, p: real)
    requires 0.0 < x && 0.0 < y && p == x * y
    ensures 0.0 < p
  {
  }

  function Sq(x: real): real {
    x * x
  }

  function Cube(x: real): real {
    x * x * x
  }

  /** A square is zero exactly at zero, positive elsewhere, and even. */
  lemma Square(x: real)
    ensures x == 0.0 ==> Sq(x) == 0.0
    ensures x != 0.0 ==> 0.0 < Sq(x)
    ensures Sq(-x) == Sq(x)
  {
    if x < 0.0 {
      ProductPositive(-x, -x, Sq(x));
    } else if 0.0 < x {
      ProductPositive(x, x, Sq(x));
    }
  }

  /** A sum of three squares is non-negative, and zero exactly when all three terms are. */
  lemma SumOfSquares(x: real, y: real, z: real)
    ensures 0.0 <= Sq(x) + Sq(y) + Sq(z)
    ensures Sq(x) + Sq(y) + Sq(z) == 0.0 <==> x == 0.0 && y == 0.0 && z == 0.0
  {
    Square(x);
    Square(y);
    Square(z);
  }

  /** A point v of the segment between x and y, as the mix formula computes it, lies between them. */
  lemma LerpBetween(x: real, y: real, t: real, v: real)
    requires 0.0 <= t <= 1.0
    requires v == x * (1.0 - t) + y * t
    ensures x <= y ==> x <= v <= y
    ensures y <= x ==> y <= v <= x
  {
    if x <= y {
      ProductNonNegative(t, y - x);
      ProductNonNegative(1.0 - t, y - x);
    } else {
      ProductNonNegative(t, x - y);
      ProductNonNegative(1.0 - t, x - y);
    }
  }

  /** Interpolating two bytes and converting back gives a byte between them. */
  lemma CastLerpBetween(x: Byte, y: Byte, t: real)
    requires 0.0 <= t <= 1.0
    ensures x <= y ==> x <= CastByte(x as real * (1.0 - t) + y as real * t) <= y
    ensures y <= x ==> y <= CastByte(x as real * (1.0 - t) + y as real * t) <= x
  {
    var v := x as real * (1.0 - t) + y as real * t;
    LerpBetween(x as real, y as real, t, v);
    if x <= y {
      CastByteBetween(v, x, y);
    } else {
      CastByteBetween(v, y, x);
    }
  }

  /** The functions of the C maths library the colorimetric code calls. */
  datatype Libm = Libm(
    sqrt: real -> real,
    pow: (real, real) -> real,
    cbrt: real -> real,
    sin: real -> real,
    cos: real -> real,
    atan2: (real, real) -> real)

  /** M_PI. */
  const PI: real := 3.14159265358979323846
}
