/**
 * CIE LAB with floating components and the lookup tables its conversions read.
 * The tables are built once by loops over their indices; the fast_* lookups clamp
 * and truncate their argument into an index. `pow` and `sqrt` come from a Libm
 * parameter.
 */
module Lab {
  import opened Numeric
  import opened Basic
  import opened Srgb

  const GAMMA_TABLE_SIZE: nat := 256
  const LINEAR_TABLE_SIZE: nat := 4096
  const LAB_F_TABLE_SIZE: nat := 4096

  /** Entry i of the gamma-to-linear table: the sRGB curve at i/255. */
  function GammaEntry(m: Libm, i: int): real {
    var val := i as real / 255.0;
    if val > 0.04045 then m.pow((val + 0.055) / 1.055, 2.4) else val / 12.92
  }

  /** Entry i of the linear-to-gamma table: the inverse curve at i/4095. */
  function LinearEntry(m: Libm, i: int): real {
    var val := i as real / (LINEAR_TABLE_SIZE - 1) as real;
    if val > 0.0031308 then 1.055 * m.pow(val, 1.0 / 2.4) - 0.055 else 12.92 * val
  }

  /** The point of [0, 2] that entry i of the two LAB f tables samples. */
  function LabFPoint(i: int): real {
    i as real / (LAB_F_TABLE_SIZE - 1) as real * 2.0
  }

  /** Entry i of the LAB f table: the cube root above the linear segment. */
  function LabFEntry(m: Libm, i: int): real {
    var t := LabFPoint(i);
    if t > 0.008856 then m.pow(t, 1.0 / 3.0) else 7.787 * t + 16.0 / 116.0
  }

  /** Entry i of the LAB f inverse table: the cube above the linear segment. */
  function LabFInvEntry(i: int): real {
    var t := LabFPoint(i);
    var t3 := Cube(t);
    if t3 > 0.008856 then t3 else (t - 16.0 / 116.0) / 7.787
  }

  /** The tables as the static initialisers leave them. */
  function GammaTable(m: Libm): (t: seq<real>)
    ensures |t| == GAMMA_TABLE_SIZE
  {
    seq(GAMMA_TABLE_SIZE, i => GammaEntry(m, i))
  }

  function LinearTable(m: Libm): (t: seq<real>)
    ensures |t| == LINEAR_TABLE_SIZE
  {
    seq(LINEAR_TABLE_SIZE, i => LinearEntry(m, i))
  }

  function LabFTable(m: Libm): (t: seq<real>)
    ensures |t| == LAB_F_TABLE_SIZE
  {
    seq(LAB_F_TABLE_SIZE, i => LabFEntry(m, i))
  }

  function LabFInvTable(): (t: seq<real>)
    ensures |t| == LAB_F_TABLE_SIZE
  {
    seq(LAB_F_TABLE_SIZE, i => LabFInvEntry(i))
  }

  /** create_gamma_to_linear_table: one entry per 8-bit value. */
  method CreateGammaToLinearTable(m: Libm) returns (table: array<real>)
    ensures fresh(table)
    ensures table[..] == GammaTable(m)
  {
    table := new real[GAMMA_TABLE_SIZE];
    for i := 0 to GAMMA_TABLE_SIZE
      invariant forall j :: 0 <= j < i ==> table[j] == GammaEntry(m, j)
    {
      var val := i as real / 255.0;
      table[i] := if val > 0.04045 then m.pow((val + 0.055) / 1.055, 2.4) else val / 12.92;
    }
  }

  /** create_linear_to_gamma_table: 4096 samples of [0, 1]. */
  method CreateLinearToGammaTable(m: Libm) returns (table: array<real>)
    ensures fresh(table)
    ensures table[..] == LinearTable(m)
  {
    table := new real[LINEAR_TABLE_SIZE];
    for i := 0 to LINEAR_TABLE_SIZE
      invariant forall j :: 0 <= j < i ==> table[j] == LinearEntry(m, j)
    {
      var val := i as real / (LINEAR_TABLE_SIZE - 1) as real;
      table[i] := if val > 0.0031308 then 1.055 * m.pow(val, 1.0 / 2.4) - 0.055 else 12.92 * val;
    }
  }

  /** create_lab_f_table: 4096 samples of [0, 2]. */
  method CreateLabFTable(m: Libm) returns (table: array<real>)
    ensures fresh(table)
    ensures table[..] == LabFTable(m)
  {
    table := new real[LAB_F_TABLE_SIZE];
    for i := 0 to LAB_F_TABLE_SIZE
      invariant forall j :: 0 <= j < i ==> table[j] == LabFEntry(m, j)
    {
      var t := LabFPoint(i);
      table[i] := if t > 0.008856 then m.pow(t, 1.0 / 3.0) else 7.787 * t + 16.0 / 116.0;
    }
  }

  /** create_lab_f_inv_table: 4096 samples of [0, 2]. */
  method CreateLabFInvTable() returns (table: array<real>)
    ensures fresh(table)
    ensures table[..] == LabFInvTable()
  {
    table := new real[LAB_F_TABLE_SIZE];
    for i := 0 to LAB_F_TABLE_SIZE
      invariant forall j :: 0 <= j < i ==> table[j] == LabFInvEntry(j)
    {
      var t := LabFPoint(i);
      var t3 := Cube(t);
      table[i] := if t3 > 0.008856 then t3 else (t - 16.0 / 116.0) / 7.787;
    }
  }

  /** The two gamma tables sample the curves XYZ and OKLAB evaluate directly. */
  lemma TablesSampleCurves(m: Libm, i: nat)
    ensures GammaEntry(m, i) == SrgbToLinear(m, i as real / 255.0)
    ensures LinearEntry(m, i) == LinearToSrgb(m, i as real / 4095.0)
  {
  }

  /** fast_linear_to_gamma's index: the value clamped to [0, 1], times 4095, truncated. */
  function LinearIndex(val: real): (i: nat)
    ensures i < LINEAR_TABLE_SIZE
    ensures val <= 0.0 ==> i == 0
    ensures 1.0 <= val ==> i == LINEAR_TABLE_SIZE - 1
    ensures 0.0 <= val <= 1.0 ==> i as real <= val * 4095.0 < i as real + 1.0
  {
    var v := ClampReal(val, 0.0, 1.0);
    Trunc(v * (LINEAR_TABLE_SIZE - 1) as real)
  }

  /** fast_lab_f's and fast_lab_f_inv's index: half the argument clamped to [0, 1], times 4095, truncated. */
  function LabFIndex(t: real): (i: nat)
    ensures i < LAB_F_TABLE_SIZE
    ensures t <= 0.0 ==> i == 0
    ensures 2.0 <= t ==> i == LAB_F_TABLE_SIZE - 1
    ensures 0.0 <= t <= 2.0 ==> i as real <= t / 2.0 * 4095.0 < i as real + 1.0
  {
    var u := ClampReal(t / 2.0, 0.0, 1.0);
    Trunc(u * (LAB_F_TABLE_SIZE - 1) as real)
  }

  /** fast_gamma_to_linear: the byte indexes the table directly, so it reads the curve at val/255. */
  function FastGammaToLinear(m: Libm, val: Byte): (r: real)
    ensures r == SrgbToLinear(m, val as real / 255.0)
  {
    GammaTable(m)[val]
  }

  /** fast_linear_to_gamma: the inverse curve at the grid point at or below the clamped value. */
  function FastLinearToGamma(m: Libm, val: real): (r: real)
    ensures r == LinearToSrgb(m, LinearIndex(val) as real / 4095.0)
    ensures val <= 0.0 ==> r == 0.0
  {
    TablesSampleCurves(m, LinearIndex(val));
    LinearTable(m)[LinearIndex(val)]
  }

  /** fast_lab_f: the f table at the clamped index; 16/116 for t ≤ 0. */
  function FastLabF(m: Libm, t: real): (r: real)
    ensures r == LabFEntry(m, LabFIndex(t))
    ensures t <= 0.0 ==> r == 16.0 / 116.0
  {
    LabFTable(m)[LabFIndex(t)]
  }

  /** fast_lab_f_inv: the inverse table at the clamped index; 8 (the cube of 2) for t ≥ 2. */
  function FastLabFInv(t: real): (r: real)
    ensures r == LabFInvEntry(LabFIndex(t))
    ensures 2.0 <= t ==> r == 8.0
  {
    LabFInvTable()[LabFIndex(t)]
  }

  /** The four stored components of a LAB value; alpha is a double. */
  datatype LabValue = LabValue(l: real, a: real, b: real, alpha: real) {

    /** to_rgb: to XYZ through f inverse, the inverse matrix, the gamma table, then round and clamp each channel. */
    function ToRGB(m: Libm): (c: RGB)
      ensures c.a == CastByte(alpha)
    {
      var fy := (l + 16.0) / 116.0;
      var fx := a / 500.0 + fy;
      var fz := fy - b / 200.0;
      var lin := XyzToLinear(FastLabFInv(fx) * 0.95047, FastLabFInv(fy) * 1.00000, FastLabFInv(fz) * 1.08883);
      RGB(RoundByte(FastLinearToGamma(m, lin.x) * 255.0),
          RoundByte(FastLinearToGamma(m, lin.y) * 255.0),
          RoundByte(FastLinearToGamma(m, lin.z) * 255.0),
          CastByte(alpha))
    }

    /** The squared CIE76 difference that delta_e takes the root of. */
    function SquaredDelta(o: LabValue): (d: real)
      ensures 0.0 <= d
      ensures d == 0.0 <==> l == o.l && a == o.a && b == o.b
    {
      SumOfSquares(l - o.l, a - o.a, b - o.b);
      Sq(l - o.l) + Sq(a - o.a) + Sq(b - o.b)
    }

    /**
     * delta_e: the CIE76 colour difference; alpha takes no part. It is symmetric, and 0
     * between colours with the same L, a and b when sqrt(0) is 0.
     */
    function DeltaE(m: Libm, o: LabValue): (r: real)
      ensures r == m.sqrt(o.SquaredDelta(this))
      ensures l == o.l && a == o.a && b == o.b && m.sqrt(0.0) == 0.0 ==> r == 0.0
    {
      Square(l - o.l);
      Square(a - o.a);
      Square(b - o.b);
      assert o.l - l == -(l - o.l) && o.a - a == -(a - o.a) && o.b - b == -(b - o.b);
      m.sqrt(SquaredDelta(o))
    }

    /**
     * is_similar: the difference is below the threshold (2.3 by default). It is
     * symmetric, and a colour is similar to itself for a positive threshold.
     */
    predicate IsSimilar(m: Libm, o: LabValue, threshold: real): (r: bool)
      ensures r <==> o.DeltaE(m, this) < threshold
      ensures o == this && m.sqrt(0.0) == 0.0 && 0.0 < threshold ==> r
    {
      DeltaE(m, o) < threshold
    }

    /** adjust_lightness: l moved by the amount and clamped to [0, 100]; a, b and alpha kept. */
    function AdjustLightness(amount: real): (r: LabValue)
      ensures 0.0 <= r.l <= 100.0
      ensures r.a == a && r.b == b && r.alpha == alpha
      ensures 0.0 <= l + amount <= 100.0 ==> r.l == l + amount
      ensures l + amount < 0.0 ==> r.l == 0.0
      ensures 100.0 < l + amount ==> r.l == 100.0
    {
      LabValue(ClampReal(l + amount, 0.0, 100.0), a, b, alpha)
    }

    /**
     * mix: every component, alpha included, interpolated with the ratio clamped to
     * [0, 1] (0.5 by default); a ratio at or below 0 gives this colour, at or above 1 the other.
     */
    function Mix(o: LabValue, ratio: real): (r: LabValue)
      ensures ratio <= 0.0 ==> r == this
      ensures 1.0 <= ratio ==> r == o
    {
      var t := ClampReal(ratio, 0.0, 1.0);
      LabValue(Lerp(l, o.l, t), Lerp(a, o.a, t), Lerp(b, o.b, t), Lerp(alpha, o.alpha, t))
    }
  }

  /** One component of mix: x·(1 - t) + y·t. */
  function Lerp(x: real, y: real, t: real): (v: real)
    ensures t == 0.0 ==> v == x
    ensures t == 1.0 ==> v == y
  {
    x * (1.0 - t) + y * t
  }

  /** fromRGB: the gamma table, the sRGB matrix over the D65 white, the f table; alpha copied. */
  function LabOfRgb(m: Libm, c: RGB): (v: LabValue)
    ensures v.alpha == c.a as real
  {
    var t := LinearToXyz(FastGammaToLinear(m, c.r), FastGammaToLinear(m, c.g), FastGammaToLinear(m, c.b));
    var fx, fy, fz := FastLabF(m, t.x / 0.95047), FastLabF(m, t.y / 1.00000), FastLabF(m, t.z / 1.08883);
    LabValue(116.0 * fy - 16.0, 500.0 * (fx - fy), 200.0 * (fy - fz), c.a as real)
  }

  /** Black converts to L = a = b = 0, whatever pow computes. */
  lemma BlackIsOrigin(m: Libm, alpha: Byte)
    ensures LabOfRgb(m, RGB(0, 0, 0, alpha)) == LabValue(0.0, 0.0, 0.0, alpha as real)
  {
    assert FastGammaToLinear(m, 0) == 0.0;
  }

  /** fromRGB followed by to_rgb gives back the alpha. */
  lemma AlphaRoundTrip(m: Libm, c: RGB)
    ensures LabOfRgb(m, c).ToRGB(m).a == c.a
  {
    assert CastByte(c.a as real) == Trunc(c.a as real) == c.a;
  }

  /** delta_e is symmetric and 0 on identical colours when sqrt(0) is 0; is_similar follows. */
  lemma DeltaELaws(m: Libm, u: LabValue, v: LabValue, threshold: real)
    ensures u.DeltaE(m, v) == v.DeltaE(m, u)
    ensures m.sqrt(0.0) == 0.0 ==> u.DeltaE(m, u) == 0.0
    ensures u.IsSimilar(m, v, threshold) <==> v.IsSimilar(m, u, threshold)
    ensures m.sqrt(0.0) == 0.0 && 0.0 < threshold ==> u.IsSimilar(m, u, threshold)
  {
    Square(u.l - v.l);
    Square(u.a - v.a);
    Square(u.b - v.b);
    assert v.l - u.l == -(u.l - v.l) && v.a - u.a == -(u.a - v.a) && v.b - u.b == -(u.b - v.b);
  }

  /** For a ratio in [0, 1] every mixed component lies between the two colours' components. */
  lemma MixBetween(u: LabValue, v: LabValue, ratio: real)
    requires 0.0 <= ratio <= 1.0
    ensures MinReal(u.l, v.l) <= u.Mix(v, ratio).l <= MaxReal(u.l, v.l)
    ensures MinReal(u.a, v.a) <= u.Mix(v, ratio).a <= MaxReal(u.a, v.a)
    ensures MinReal(u.b, v.b) <= u.Mix(v, ratio).b <= MaxReal(u.b, v.b)
    ensures MinReal(u.alpha, v.alpha) <= u.Mix(v, ratio).alpha <= MaxReal(u.alpha, v.alpha)
  {
    var r := u.Mix(v, ratio);
    LerpBetween(u.l, v.l, ratio, r.l);
    LerpBetween(u.a, v.a, ratio, r.a);
    LerpBetween(u.b, v.b, ratio, r.b);
    LerpBetween(u.alpha, v.alpha, ratio, r.alpha);
  }
}
