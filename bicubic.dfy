/** Shrink resamples a picture with a bicubic filter: each output pixel is a
    weighted sum of the 4 x 4 source pixels around a base position, the
    weights coming from the cubic convolution kernel (a = -0.5), and
    positions outside the picture clamped to its border. Colours are
    reals; float rounding is not modelled. */
module Bicubic {
  import opened Wrappers
  import opened Arith
  import opened Colors

  // ------------------------------------------- biCubicInterploator(double)

  /** A polynomial with coefficients c (constant term first) at x, in the
      nested form c0 + x * (c1 + x * (...)) the source writes out. */
  function Horner(c: seq<real>, x: real): real
    decreases |c|
  {
    if |c| == 0 then 0.0 else c[0] + x * Horner(c[1..], x)
  }

  lemma HornerCubic(c: seq<real>, x: real)
    requires |c| == 4
    ensures Horner(c, x) == c[0] + c[1] * x + c[2] * x * x + c[3] * x * x * x
  {
    assert c[1..][1..][1..][1..] == [];
    assert Horner(c[1..][1..][1..], x) == c[3];
    assert Horner(c[1..][1..], x) == c[2] + x * c[3];
    assert Horner(c[1..], x) == c[1] + x * (c[2] + x * c[3]);
  }

  /** (1.5x - 2.5)x^2 + 1 and ((-0.5x + 2.5)x - 4)x + 2. */
  const InnerPiece: seq<real> := [1.0, 0.0, -2.5, 1.5]
  const OuterPiece: seq<real> := [2.0, -4.0, 2.5, -0.5]

  /** The cubic convolution kernel: 1.5|x|^3 - 2.5|x|^2 + 1 on [0,1],
      -0.5|x|^3 + 2.5|x|^2 - 4|x| + 2 on (1,2), and 0 from 2 on. */
  function Kernel(x: real): (k: real)
    ensures x >= 2.0 || x <= -2.0 ==> k == 0.0
  {
    var a := if x < 0.0 then -x else x;
    if a <= 1.0 then Horner(InnerPiece, a)
    else if a < 2.0 then Horner(OuterPiece, a)
    else 0.0
  }

  lemma KernelEven(x: real)
    ensures Kernel(-x) == Kernel(x)
  {
  }

  /** The kernel interpolates: 1 at 0 and 0 at every other integer. */
  lemma KernelAtIntegers()
    ensures Kernel(0.0) == 1.0
    ensures Kernel(1.0) == 0.0 && Kernel(-1.0) == 0.0
    ensures Kernel(2.0) == 0.0 && Kernel(-2.0) == 0.0
  {
    KernelInner(0.0);
    KernelInner(1.0);
  }

  lemma KernelInner(a: real)
    requires 0.0 <= a <= 1.0
    ensures Kernel(a) == 1.5 * a * a * a - 2.5 * a * a + 1.0
  {
    HornerCubic(InnerPiece, a);
  }

  lemma KernelOuter(a: real)
    requires 1.0 <= a <= 2.0
    ensures Kernel(a) == -0.5 * a * a * a + 2.5 * a * a - 4.0 * a + 2.0
  {
    HornerCubic(InnerPiece, a);
    HornerCubic(OuterPiece, a);
  }

  /** The four weights of one axis, for taps -1, 0, 1 and 2 at fraction d. */
  function Weight(d: real): real
  {
    Kernel(-1.0 - d) + Kernel(-d) + Kernel(1.0 - d) + Kernel(2.0 - d)
  }

  /** The four kernel values of one axis as polynomials in the fraction d. */
  lemma KernelOnePlus(d: real)
    requires 0.0 <= d <= 1.0
    ensures Kernel(1.0 + d) == -0.5 * d + d * d - 0.5 * d * d * d
  {
    var e := 1.0 + d;
    KernelOuter(e);
    assert e * e == 1.0 + 2.0 * d + d * d;
    assert e * e * e == 1.0 + 3.0 * d + 3.0 * d * d + d * d * d;
  }

  lemma KernelOneMinus(d: real)
    requires 0.0 <= d <= 1.0
    ensures Kernel(1.0 - d) == 0.5 * d + 2.0 * d * d - 1.5 * d * d * d
  {
    var f := 1.0 - d;
    KernelInner(f);
    assert f * f == 1.0 - 2.0 * d + d * d;
    assert f * f * f == 1.0 - 3.0 * d + 3.0 * d * d - d * d * d;
  }

  lemma KernelTwoMinus(d: real)
    requires 0.0 <= d <= 1.0
    ensures Kernel(2.0 - d) == -0.5 * d * d + 0.5 * d * d * d
  {
    var g := 2.0 - d;
    KernelOuter(g);
    assert g * g == 4.0 - 4.0 * d + d * d;
    assert g * g * g == 8.0 - 12.0 * d + 6.0 * d * d - d * d * d;
  }

  /** For a fraction in [0,1) the four weights add up to 1. */
  lemma {:induction false} PartitionOfUnity(d: real)
    requires 0.0 <= d < 1.0
    ensures Weight(d) == 1.0
  {
    KernelEven(1.0 + d);
    KernelEven(d);
    KernelOnePlus(d);
    KernelInner(d);
    KernelOneMinus(d);
    KernelTwoMinus(d);
  }

  /** At the fraction -1/2 the weights add up to 17/16. */
  lemma WeightAtNegativeHalf()
    ensures Weight(-0.5) == 17.0 / 16.0
  {
    KernelInner(0.5);
    KernelOuter(1.5);
    assert Kernel(-0.5) == 0.5625;
    assert Kernel(0.5) == 0.5625;
    assert Kernel(1.5) == -0.0625;
    assert Kernel(2.5) == 0.0;
  }

  /** For a fraction in (-1, 0), as the cast leaves at positions in
      [0, 1/2), the four taps miss the one at distance 2 + d, whose
      weight is negative, so the weights add up to more than 1. */
  lemma {:induction false} WeightBelowZero(d: real)
    requires -1.0 < d < 0.0
    ensures Weight(d) == 1.0 - Kernel(2.0 + d)
    ensures Weight(d) > 1.0
  {
    var e := d + 1.0;
    WeightShift(d, e);
    PartitionOfUnity(e);
    KernelEven(1.0 + e);
    assert 2.0 + d == 1.0 + e;
    OuterNegative(e);
  }

  /** Shifting the fraction up by one drops the tap at 2 - d, which lies
      beyond the kernel's support, and adds the tap at -1 - e. */
  lemma WeightShift(d: real, e: real)
    requires -1.0 < d < 0.0 && e == d + 1.0
    ensures Weight(d) == Weight(e) - Kernel(-1.0 - e)
  {
    assert Kernel(2.0 - d) == 0.0;
    assert -1.0 - d == -e && -d == 1.0 - e && 1.0 - d == 2.0 - e;
  }

  /** The kernel is negative strictly between 1 and 2. */
  lemma OuterNegative(e: real)
    requires 0.0 < e < 1.0
    ensures Kernel(1.0 + e) < 0.0
  {
    KernelOnePlusFactored(e);
    PositiveProduct(e, 1.0 - e);
    PositiveProduct(Product(e, 1.0 - e), 1.0 - e);
  }

  /** Kernel(1 + e) = -e (1 - e)^2 / 2 on [0, 1]. */
  lemma KernelOnePlusFactored(e: real)
    requires 0.0 <= e <= 1.0
    ensures Kernel(1.0 + e) == -0.5 * Product(Product(e, 1.0 - e), 1.0 - e)
  {
    KernelOnePlus(e);
    CubicFactor(e);
  }

  /** A product kept as one term, so that a sign proved for it is found
      again where it is used. */
  function Product(x: real, y: real): real
  {
    x * y
  }

  lemma CubicFactor(e: real)
    ensures -0.5 * e + e * e - 0.5 * e * e * e == -0.5 * Product(Product(e, 1.0 - e), 1.0 - e)
  {
  }

  lemma PositiveProduct(x: real, y: real)
    requires x > 0.0 && y > 0.0
    ensures Product(x, y) > 0.0
  {
  }

  // ------------------------------------------- biCubicInterploator(Color[], ...)

  /** The (int) cast of C#: truncation toward zero. */
  function Truncate(x: real): (i: int)
    ensures x >= 0.0 ==> 0.0 <= x - i as real < 1.0
    ensures x < 0.0 ==> -1.0 < x - i as real <= 0.0
  {
    if x >= 0.0 then x.Floor else -((-x).Floor)
  }

  /** Truncation agrees with the floor on non-negative values, and differs
      from it on -1/2. */
  lemma TruncateVersusFloor(x: real)
    ensures x >= 0.0 ==> Truncate(x) == x.Floor
    ensures Truncate(-0.5) == 0 && (-0.5).Floor == -1
  {
  }

  /** Mathf.Clamp(value, 0, max) on integers. */
  function ClampIndex(v: int, max: int): (c: int)
    ensures max >= 0 ==> 0 <= c <= max
    ensures 0 <= v <= max ==> c == v
  {
    if v < 0 then 0 else if v > max then max else v
  }

  /** Where a sample sits: the truncated base column and row and the offsets
      dx, dy from them. */
  datatype Base = Base(ox1: int, dx: real, oy1: int, dy: real)

  /** The base of output pixel (px, py): ox = px * xfactor - 0.5. */
  function Locate(px: int, py: int, xfactor: real, yfactor: real): (b: Base)
    ensures b.ox1 as real + b.dx == px as real * xfactor - 0.5
    ensures b.oy1 as real + b.dy == py as real * yfactor - 0.5
    ensures -1.0 < b.dx < 1.0 && -1.0 < b.dy < 1.0
  {
    var ox := px as real * xfactor - 0.5;
    var oy := py as real * yfactor - 0.5;
    Base(Truncate(ox), ox - Truncate(ox) as real, Truncate(oy), oy - Truncate(oy) as real)
  }

  /** The four weights of one axis at fraction d: Kernel(m - dx) for the
      columns m = -1 .. 2 of the base, and Kernel(n - dy) = Kernel(dy - n) for
      its rows. */
  function Weights(d: real): (w: seq<real>)
    ensures |w| == 4
  {
    seq(4, i => Kernel((i - 1) as real - d))
  }

  lemma RowWeightAt(dy: real, n: int)
    requires -1 <= n < 3
    ensures Weights(dy)[n + 1] == Kernel(dy - n as real)
  {
    ColumnWeightAt(dy, n);
    KernelEven(n as real - dy);
  }

  lemma ColumnWeightAt(dx: real, m: int)
    requires -1 <= m < 3
    ensures Weights(dx)[m + 1] == Kernel(m as real - dx)
  {
    assert ((m + 1) - 1) as real - dx == m as real - dx;
  }

  function Sum4(w: seq<real>): real
    requires |w| == 4
  {
    w[0] + w[1] + w[2] + w[3]
  }

  /** The four weights of an axis add up to Weight. */
  lemma {:induction false} WeightsSum(d: real)
    ensures Sum4(Weights(d)) == Weight(d)
  {
    ColumnWeightAt(d, -1);
    ColumnWeightAt(d, 0);
    ColumnWeightAt(d, 1);
    ColumnWeightAt(d, 2);
  }

  /** The sixteen taps of one sample: the base pixel and the weights of its
      four rows and four columns. */
  datatype Stencil = Stencil(ox1: int, oy1: int, rows: seq<real>, cols: seq<real>)

  function StencilOf(b: Base): (st: Stencil)
    ensures |st.rows| == 4 && |st.cols| == 4
  {
    Stencil(b.ox1, b.oy1, Weights(b.dy), Weights(b.dx))
  }

  /** The flat index of tap (m, n): the clamped column plus the clamped row
      times the width; it always lies in the picture. */
  function TapIndex(width: int, height: int, st: Stencil, n: int, m: int): (i: int)
    requires width >= 1 && height >= 1
    ensures 0 <= i < width * height
  {
    var x := ClampIndex(st.ox1 + m, width - 1);
    var y := ClampIndex(st.oy1 + n, height - 1);
    FlatIndex(x, y, width, height);
    x + y * width
  }

  function Scale(k: real, c: Color): Color
  {
    Color(k * c.r, k * c.g, k * c.b, k * c.a)
  }

  function Add(c: Color, d: Color): Color
  {
    Color(c.r + d.r, c.g + d.g, c.b + d.b, c.a + d.a)
  }

  /** Everything a sum of taps needs: a picture large enough and four
      weights per axis. */
  predicate Sampleable(p: seq<Color>, width: int, height: int, st: Stencil)
  {
    width >= 1 && height >= 1 && width * height <= |p| && |st.rows| == 4 && |st.cols| == 4
  }

  /** Tap (m, n): the row weight times the column weight times the pixel. */
  function Tap(p: seq<Color>, width: int, height: int, st: Stencil, n: int, m: int): Color
    requires Sampleable(p, width, height, st) && -1 <= n < 3 && -1 <= m < 3
  {
    Scale(st.rows[n + 1] * st.cols[m + 1], p[TapIndex(width, height, st, n, m)])
  }

  /** Taps -1 .. m - 1 of row n. */
  function RowSum(p: seq<Color>, width: int, height: int, st: Stencil, n: int, m: int): Color
    requires Sampleable(p, width, height, st) && -1 <= n < 3 && -1 <= m <= 3
    decreases m
  {
    if m == -1 then Clear else Add(RowSum(p, width, height, st, n, m - 1), Tap(p, width, height, st, n, m - 1))
  }

  /** All four taps of rows -1 .. n - 1. */
  function GridSum(p: seq<Color>, width: int, height: int, st: Stencil, n: int): Color
    requires Sampleable(p, width, height, st) && -1 <= n <= 3
    decreases n
  {
    if n == -1 then Clear else Add(GridSum(p, width, height, st, n - 1), RowSum(p, width, height, st, n - 1, 3))
  }

  /** The colour biCubicInterploator returns for output pixel (px, py). */
  function Interpolate(p: seq<Color>, width: int, height: int, px: int, py: int, xfactor: real, yfactor: real): Color
    requires width >= 1 && height >= 1 && width * height <= |p|
  {
    GridSum(p, width, height, StencilOf(Locate(px, py, xfactor, yfactor)), 3)
  }

  /** One step of the inner loop of biCubicInterploator: the colour so far
      plus tap (m, n) of stencil st, given k1, the weight of row n, and kc,
      the weight of column m. */
  method AddTap(pixels: array<Color>, width: int, height: int, ghost st: Stencil, ox1: int, oy1: int,
                n: int, m: int, k1: real, kc: real, color: Color)
    returns (next: Color)
    requires Sampleable(pixels[..], width, height, st)
    requires st.ox1 == ox1 && st.oy1 == oy1
    requires -1 <= n < 3 && -1 <= m < 3
    requires k1 == st.rows[n + 1] && kc == st.cols[m + 1]
    ensures next == Add(color, Tap(pixels[..], width, height, st, n, m))
  {
    var k2 := k1 * kc;
    var oy2 := ClampIndex(oy1 + n, height - 1);
    var ox2 := ClampIndex(ox1 + m, width - 1);
    FlatIndex(ox2, oy2, width, height);
    TapIs(pixels[..], width, height, st, n, m, k2, ox2 + oy2 * width);
    next := Add(color, Scale(k2, pixels[ox2 + oy2 * width]));
  }

  lemma TapIs(p: seq<Color>, width: int, height: int, st: Stencil, n: int, m: int, k: real, i: int)
    requires Sampleable(p, width, height, st) && -1 <= n < 3 && -1 <= m < 3
    requires k == st.rows[n + 1] * st.cols[m + 1] && i == TapIndex(width, height, st, n, m)
    ensures Tap(p, width, height, st, n, m) == Scale(k, p[i])
  {
  }

  /** The inner loop of biCubicInterploator: the colour so far plus the four
      taps of row n, given k1, the weight of that row. */
  method AddRow(pixels: array<Color>, width: int, height: int, ghost st: Stencil, ox1: int, oy1: int,
                dx: real, n: int, k1: real, color: Color)
    returns (next: Color)
    requires Sampleable(pixels[..], width, height, st)
    requires st.ox1 == ox1 && st.oy1 == oy1 && st.cols == Weights(dx)
    requires -1 <= n < 3 && k1 == st.rows[n + 1]
    ensures next == Add(color, RowSum(pixels[..], width, height, st, n, 3))
  {
    next := color;
    for m := -1 to 3
      invariant next == Add(color, RowSum(pixels[..], width, height, st, n, m))
    {
      var kc := Kernel(m as real - dx);
      ColumnWeightAt(dx, m);
      AddAssociative(color, RowSum(pixels[..], width, height, st, n, m), Tap(pixels[..], width, height, st, n, m));
      next := AddTap(pixels, width, height, st, ox1, oy1, n, m, k1, kc, next);
    }
  }

  lemma AddAssociative(a: Color, b: Color, c: Color)
    ensures Add(Add(a, b), c) == Add(a, Add(b, c))
  {
  }

  /** The two loops of biCubicInterploator: the sixteen taps around base
      (ox1, oy1) with fractions dx and dy, row by row. */
  method SumTaps(pixels: array<Color>, width: int, height: int, ox1: int, dx: real, oy1: int, dy: real)
    returns (color: Color)
    requires width >= 1 && height >= 1 && width * height <= pixels.Length
    ensures color == GridSum(pixels[..], width, height, Stencil(ox1, oy1, Weights(dy), Weights(dx)), 3)
  {
    ghost var st := Stencil(ox1, oy1, Weights(dy), Weights(dx));
    color := Clear;
    for n := -1 to 3
      invariant color == GridSum(pixels[..], width, height, st, n)
    {
      var k1 := Kernel(dy - n as real);
      RowWeightAt(dy, n);
      color := AddRow(pixels, width, height, st, ox1, oy1, dx, n, k1, color);
    }
  }

  /** biCubicInterploator(pixels, width, height, px, py, xfactor, yfactor):
      the base of the sample, then the 4 x 4 weighted sum. It reads only the
      clamped indices TapIndex, all inside the picture. */
  method Interpolator(pixels: array<Color>, width: int, height: int, px: int, py: int, xfactor: real, yfactor: real)
    returns (color: Color)
    requires width >= 1 && height >= 1 && width * height <= pixels.Length
    ensures color == Interpolate(pixels[..], width, height, px, py, xfactor, yfactor)
  {
    var ox := px as real * xfactor - 0.5;
    var ox1 := Truncate(ox);
    var dx := ox - ox1 as real;
    var oy := py as real * yfactor - 0.5;
    var oy1 := Truncate(oy);
    var dy := oy - oy1 as real;
    assert Base(ox1, dx, oy1, dy) == Locate(px, py, xfactor, yfactor);
    color := SumTaps(pixels, width, height, ox1, dx, oy1, dy);
  }

  lemma ScaleZero(c: Color)
    ensures Scale(0.0, c) == Clear
  {
  }

  lemma ScaleAdd(x: real, y: real, c: Color)
    ensures Add(Scale(x, c), Scale(y, c)) == Scale(x + y, c)
  {
  }

  /** The weights of taps -1 .. m - 1 of row n. */
  function RowWeightSum(st: Stencil, n: int, m: int): real
    requires |st.rows| == 4 && |st.cols| == 4 && -1 <= n < 3 && -1 <= m <= 3
    decreases m
  {
    if m == -1 then 0.0 else RowWeightSum(st, n, m - 1) + st.rows[n + 1] * st.cols[m]
  }

  /** The weights of the taps of rows -1 .. n - 1. */
  function GridWeightSum(st: Stencil, n: int): real
    requires |st.rows| == 4 && |st.cols| == 4 && -1 <= n <= 3
    decreases n
  {
    if n == -1 then 0.0 else GridWeightSum(st, n - 1) + RowWeightSum(st, n - 1, 3)
  }

  /** Over a uniform picture a partial row is the colour times its weights. */
  lemma {:induction false} UniformRow(p: seq<Color>, c: Color, width: int, height: int, st: Stencil, n: int, m: int)
    requires Sampleable(p, width, height, st) && -1 <= n < 3 && -1 <= m <= 3
    requires forall i :: 0 <= i < |p| ==> p[i] == c
    ensures RowSum(p, width, height, st, n, m) == Scale(RowWeightSum(st, n, m), c)
    decreases m
  {
    if m > -1 {
      UniformRow(p, c, width, height, st, n, m - 1);
      UniformRowStep(p, c, width, height, st, n, m);
    } else {
      ScaleZero(c);
    }
  }

  /** One more tap of a uniform row adds the colour times its weight. */
  lemma UniformRowStep(p: seq<Color>, c: Color, width: int, height: int, st: Stencil, n: int, m: int)
    requires Sampleable(p, width, height, st) && -1 <= n < 3 && 0 <= m <= 3
    requires forall i :: 0 <= i < |p| ==> p[i] == c
    requires RowSum(p, width, height, st, n, m - 1) == Scale(RowWeightSum(st, n, m - 1), c)
    ensures RowSum(p, width, height, st, n, m) == Scale(RowWeightSum(st, n, m), c)
  {
    var before := RowWeightSum(st, n, m - 1);
    var w := st.rows[n + 1] * st.cols[m];
    var total := RowWeightSum(st, n, m);
    assert total == before + w;
    calc {
      RowSum(p, width, height, st, n, m);
      Add(RowSum(p, width, height, st, n, m - 1), Tap(p, width, height, st, n, m - 1));
      { UniformTap(p, c, width, height, st, n, m - 1, m, w); }
      Add(Scale(before, c), Scale(w, c));
      { ScaleAdd(before, w, c); }
      Scale(before + w, c);
      Scale(total, c);
    }
  }

  lemma UniformTap(p: seq<Color>, c: Color, width: int, height: int, st: Stencil, n: int, m: int, j: int, w: real)
    requires Sampleable(p, width, height, st) && -1 <= n < 3 && -1 <= m < 3
    requires forall i :: 0 <= i < |p| ==> p[i] == c
    requires j == m + 1 && w == st.rows[n + 1] * st.cols[j]
    ensures Tap(p, width, height, st, n, m) == Scale(w, c)
  {
    var i := TapIndex(width, height, st, n, m);
    assert p[i] == c;
  }

  lemma {:induction false} UniformRows(p: seq<Color>, c: Color, width: int, height: int, st: Stencil, n: int)
    requires Sampleable(p, width, height, st) && -1 <= n <= 3
    requires forall i :: 0 <= i < |p| ==> p[i] == c
    ensures GridSum(p, width, height, st, n) == Scale(GridWeightSum(st, n), c)
    decreases n
  {
    if n > -1 {
      var before := GridWeightSum(st, n - 1);
      var w := RowWeightSum(st, n - 1, 3);
      calc {
        GridSum(p, width, height, st, n);
        Add(GridSum(p, width, height, st, n - 1), RowSum(p, width, height, st, n - 1, 3));
        { UniformRows(p, c, width, height, st, n - 1);
          UniformRow(p, c, width, height, st, n - 1, 3); }
        Add(Scale(before, c), Scale(w, c));
        { ScaleAdd(before, w, c); }
        Scale(before + w, c);
        Scale(GridWeightSum(st, n), c);
      }
    } else {
      ScaleZero(c);
    }
  }

  /** The sixteen weights add up to the product of the two axis sums. */
  lemma GridWeightProduct(st: Stencil)
    requires |st.rows| == 4 && |st.cols| == 4
    ensures GridWeightSum(st, 3) == Sum4(st.rows) * Sum4(st.cols)
  {
    var w := Sum4(st.cols);
    forall n | -1 <= n < 3
      ensures RowWeightSum(st, n, 3) == st.rows[n + 1] * w
    {
      var k := st.rows[n + 1];
      assert RowWeightSum(st, n, 3) == k * st.cols[0] + k * st.cols[1] + k * st.cols[2] + k * st.cols[3];
    }
    assert GridWeightSum(st, 3) == st.rows[0] * w + st.rows[1] * w + st.rows[2] * w + st.rows[3] * w;
  }

  /** Over a uniform picture the sixteen taps give the colour times the
      product of the two axis sums. */
  lemma UniformGrid(p: seq<Color>, c: Color, width: int, height: int, st: Stencil)
    requires Sampleable(p, width, height, st)
    requires forall i :: 0 <= i < |p| ==> p[i] == c
    ensures GridSum(p, width, height, st, 3) == Scale(Sum4(st.rows) * Sum4(st.cols), c)
  {
    UniformRows(p, c, width, height, st, 3);
    GridWeightProduct(st);
  }

  /** A non-negative offset ox = px * xfactor - 0.5, and likewise oy, leaves
      fractions in [0,1): truncation is the floor there. */
  lemma LocateNonNegative(px: int, py: int, xfactor: real, yfactor: real)
    requires px as real * xfactor >= 0.5 && py as real * yfactor >= 0.5
    ensures 0.0 <= Locate(px, py, xfactor, yfactor).dx < 1.0
    ensures 0.0 <= Locate(px, py, xfactor, yfactor).dy < 1.0
  {
  }

  /** The sixteen weights of a base with fractions in [0,1) add up to 1. */
  lemma StencilWeightsOne(b: Base)
    requires 0.0 <= b.dx < 1.0 && 0.0 <= b.dy < 1.0
    ensures Sum4(StencilOf(b).rows) * Sum4(StencilOf(b).cols) == 1.0
  {
    WeightsSum(b.dx);
    WeightsSum(b.dy);
    PartitionOfUnity(b.dx);
    PartitionOfUnity(b.dy);
  }

  /** The sixteen weights of a base with fractions -1/2 add up to (17/16)^2. */
  lemma StencilWeightsHalf(b: Base)
    requires b.dx == -0.5 && b.dy == -0.5
    ensures Sum4(StencilOf(b).rows) * Sum4(StencilOf(b).cols) == 289.0 / 256.0
  {
    WeightsSum(b.dx);
    WeightsSum(b.dy);
    WeightAtNegativeHalf();
  }

  /** Over a uniform picture a sample is the colour scaled by the sum of its
      sixteen weights. */
  lemma UniformSample(p: seq<Color>, c: Color, width: int, height: int, px: int, py: int, xfactor: real, yfactor: real)
    requires width >= 1 && height >= 1 && width * height <= |p|
    requires forall i :: 0 <= i < |p| ==> p[i] == c
    ensures var st := StencilOf(Locate(px, py, xfactor, yfactor));
            Interpolate(p, width, height, px, py, xfactor, yfactor) == Scale(Sum4(st.rows) * Sum4(st.cols), c)
  {
    UniformGrid(p, c, width, height, StencilOf(Locate(px, py, xfactor, yfactor)));
  }

  /** Sampling a uniform picture where both offsets ox and oy are
      non-negative gives the colour back. */
  lemma UniformPicture(p: seq<Color>, c: Color, width: int, height: int, px: int, py: int, xfactor: real, yfactor: real)
    requires width >= 1 && height >= 1 && width * height <= |p|
    requires forall i :: 0 <= i < |p| ==> p[i] == c
    requires px as real * xfactor >= 0.5 && py as real * yfactor >= 0.5
    ensures Interpolate(p, width, height, px, py, xfactor, yfactor) == c
  {
    LocateNonNegative(px, py, xfactor, yfactor);
    UniformUnit(p, c, width, height, Locate(px, py, xfactor, yfactor));
  }

  /** The sixteen taps of a base with fractions in [0,1) over a uniform picture. */
  lemma UniformUnit(p: seq<Color>, c: Color, width: int, height: int, b: Base)
    requires width >= 1 && height >= 1 && width * height <= |p|
    requires forall i :: 0 <= i < |p| ==> p[i] == c
    requires 0.0 <= b.dx < 1.0 && 0.0 <= b.dy < 1.0
    ensures GridSum(p, width, height, StencilOf(b), 3) == c
  {
    UniformGrid(p, c, width, height, StencilOf(b));
    StencilWeightsOne(b);
    ScaleOne(Sum4(StencilOf(b).rows) * Sum4(StencilOf(b).cols), c);
  }

  lemma ScaleOne(k: real, c: Color)
    requires k == 1.0
    ensures Scale(k, c) == c
  {
  }

  /** The weights of one axis at a non-negative position: they add up to 1
      from 1/2 on, and to more than 1 below it, where the fraction is the
      position minus 1/2. */
  lemma AxisWeight(pos: real, d: real)
    requires pos >= 0.0 && d == pos - 0.5 - Truncate(pos - 0.5) as real
    ensures pos >= 0.5 ==> Weight(d) == 1.0
    ensures pos < 0.5 ==> d == pos - 0.5 && Weight(d) > 1.0
  {
    if pos >= 0.5 {
      PartitionOfUnity(d);
    } else {
      WeightBelowZero(d);
    }
  }

  /** Sampling a uniform picture at non-negative positions scales the colour
      by the product of the sums of the row and the column weights: the
      column weights add up to exactly 1 when the position px * xfactor is
      at least 1/2, and to more than 1 when it lies below 1/2, next to the
      picture's first column; likewise the row weights with py * yfactor
      and the first row. */
  lemma UniformPictureScaled(p: seq<Color>, c: Color, width: int, height: int, px: int, py: int, xfactor: real, yfactor: real)
    requires width >= 1 && height >= 1 && width * height <= |p|
    requires forall i :: 0 <= i < |p| ==> p[i] == c
    requires px as real * xfactor >= 0.0 && py as real * yfactor >= 0.0
    ensures var st := StencilOf(Locate(px, py, xfactor, yfactor));
            Interpolate(p, width, height, px, py, xfactor, yfactor) == Scale(Sum4(st.rows) * Sum4(st.cols), c) &&
            (px as real * xfactor >= 0.5 ==> Sum4(st.cols) == 1.0) &&
            (px as real * xfactor < 0.5 ==> Sum4(st.cols) > 1.0) &&
            (py as real * yfactor >= 0.5 ==> Sum4(st.rows) == 1.0) &&
            (py as real * yfactor < 0.5 ==> Sum4(st.rows) > 1.0)
  {
    var b := Locate(px, py, xfactor, yfactor);
    UniformSample(p, c, width, height, px, py, xfactor, yfactor);
    StencilSums(b);
    AxisWeight(px as real * xfactor, b.dx);
    AxisWeight(py as real * yfactor, b.dy);
  }

  /** The row and column weights of a stencil add up to the axis weights. */
  lemma StencilSums(b: Base)
    ensures Sum4(StencilOf(b).rows) == Weight(b.dy) && Sum4(StencilOf(b).cols) == Weight(b.dx)
  {
    WeightsSum(b.dx);
    WeightsSum(b.dy);
  }

  /** Output pixel (0, 0) of a uniform picture: ox = oy = -1/2 truncates to
      the base 0 with fractions -1/2, so the weights add up to (17/16)^2 and
      the colour comes back scaled by 289/256. */
  lemma UniformPictureAtOrigin(p: seq<Color>, c: Color, width: int, height: int, px: int, py: int, xfactor: real, yfactor: real)
    requires width >= 1 && height >= 1 && width * height <= |p|
    requires forall i :: 0 <= i < |p| ==> p[i] == c
    requires px as real * xfactor == 0.0 && py as real * yfactor == 0.0
    ensures Interpolate(p, width, height, px, py, xfactor, yfactor) == Scale(289.0 / 256.0, c)
  {
    UniformHalf(p, c, width, height, Locate(px, py, xfactor, yfactor));
  }

  lemma UniformHalf(p: seq<Color>, c: Color, width: int, height: int, b: Base)
    requires width >= 1 && height >= 1 && width * height <= |p|
    requires forall i :: 0 <= i < |p| ==> p[i] == c
    requires b.dx == -0.5 && b.dy == -0.5
    ensures GridSum(p, width, height, StencilOf(b), 3) == Scale(289.0 / 256.0, c)
  {
    UniformGrid(p, c, width, height, StencilOf(b));
    StencilWeightsHalf(b);
    ScaleSame(Sum4(StencilOf(b).rows) * Sum4(StencilOf(b).cols), 289.0 / 256.0, c);
  }

  lemma ScaleSame(k: real, k': real, c: Color)
    requires k == k'
    ensures Scale(k, c) == Scale(k', c)
  {
  }

  // ------------------------------------------- Shrink

  /** The picture Shrink produces: slot k holds the sample of output pixel
      (k % nw, k / nw). */
  ghost function Shrunk(p: seq<Color>, width: int, height: int, nw: int, nh: int, ix: real, iy: real): (e: seq<Color>)
    requires width >= 1 && height >= 1 && width * height <= |p| && nw >= 0 && nh >= 0
    ensures |e| == nw * nh
  {
    MulNonNegative(nw, nh);
    if nw == 0 then [] else seq(nw * nh, k => Interpolate(p, width, height, k % nw, k / nw, ix, iy))
  }

  /** Output pixel (x, y) of the shrunk picture sits in slot x + y * nw. */
  lemma ShrunkAt(p: seq<Color>, width: int, height: int, nw: int, nh: int, ix: real, iy: real, x: int, y: int)
    requires width >= 1 && height >= 1 && width * height <= |p| && 0 <= x < nw && 0 <= y < nh
    ensures 0 <= x + y * nw < nw * nh
    ensures Shrunk(p, width, height, nw, nh, ix, iy)[x + y * nw] == Interpolate(p, width, height, x, y, ix, iy)
  {
    FlatIndex(x, y, nw, nh);
    var k := x + y * nw;
    assert Shrunk(p, width, height, nw, nh, ix, iy)[k] == Interpolate(p, width, height, k % nw, k / nw, ix, iy);
    SameSample(p, width, height, k % nw, k / nw, x, y, ix, iy);
  }

  /** Column x of the shrunk picture. */
  lemma ShrunkColumn(p: seq<Color>, width: int, height: int, nw: int, nh: int, ix: real, iy: real, x: int)
    requires width >= 1 && height >= 1 && width * height <= |p| && 0 <= x < nw && nh >= 0
    ensures forall y :: 0 <= y < nh ==>
              0 <= x + y * nw < nw * nh &&
              Shrunk(p, width, height, nw, nh, ix, iy)[x + y * nw] == Interpolate(p, width, height, x, y, ix, iy)
  {
    forall y | 0 <= y < nh
      ensures 0 <= x + y * nw < nw * nh
      ensures Shrunk(p, width, height, nw, nh, ix, iy)[x + y * nw] == Interpolate(p, width, height, x, y, ix, iy)
    {
      ShrunkAt(p, width, height, nw, nh, ix, iy, x, y);
    }
  }

  lemma SameSample(p: seq<Color>, width: int, height: int, x: int, y: int, x': int, y': int, ix: real, iy: real)
    requires width >= 1 && height >= 1 && width * height <= |p| && x == x' && y == y'
    ensures Interpolate(p, width, height, x, y, ix, iy) == Interpolate(p, width, height, x', y', ix, iy)
  {
  }

  /** The slots of a that already hold their final value want[k]: every
      slot of columns before x, and rows before y of column x. */
  ghost predicate Written(a: seq<Color>, want: seq<Color>, nw: int, x: int, y: int)
    requires nw >= 1
  {
    forall k :: 0 <= k < |a| && k < |want| && (k % nw < x || (k % nw == x && k / nw < y)) ==> a[k] == want[k]
  }

  lemma WrittenNone(a: seq<Color>, want: seq<Color>, nw: int)
    requires nw >= 1
    ensures Written(a, want, nw, 0, 0)
  {
    forall k | 0 <= k < |a|
      ensures k % nw >= 0 && k / nw >= 0
    {
      DivModNonNegative(k, nw);
    }
  }

  /** Setting slot x + y * nw to its final value extends what is written by
      one row of column x. */
  lemma WrittenStep(before: seq<Color>, after: seq<Color>, want: seq<Color>, nw: int, nh: int, x: int, y: int)
    requires nw >= 1 && 0 <= x < nw && 0 <= y < nh && |before| == nw * nh
    requires |want| == |before| && 0 <= x + y * nw < |before| && after == before[x + y * nw := want[x + y * nw]]
    requires Written(before, want, nw, x, y)
    ensures Written(after, want, nw, x, y + 1)
  {
    forall k | 0 <= k < |after| && k < |want| && (k % nw < x || (k % nw == x && k / nw < y + 1))
      ensures after[k] == want[k]
    {
      if k != x + y * nw {
        FlatIndexSplit(k, nw, nh);
        assert after[k] == before[k];
      }
    }
  }

  /** A finished column x leaves every slot of columns up to x written. */
  lemma WrittenColumn(a: seq<Color>, want: seq<Color>, nw: int, nh: int, x: int)
    requires nw >= 1 && 0 <= x < nw && |a| == nw * nh
    requires Written(a, want, nw, x, nh)
    ensures Written(a, want, nw, x + 1, 0)
  {
    forall k | 0 <= k < |a| && k < |want| && (k % nw < x + 1 || (k % nw == x + 1 && k / nw < 0))
      ensures a[k] == want[k]
    {
      FlatIndexSplit(k, nw, nh);
    }
  }

  /** The inner loop of Shrink: column x, rows 0 .. nh - 1, each slot set to
      its sample. */
  method ShrinkColumn(pixels: array<Color>, width: int, height: int, newPixels: array<Color>, nw: int, nh: int,
                      ix: real, iy: real, x: int, ghost want: seq<Color>)
    requires width >= 1 && height >= 1 && width * height <= pixels.Length
    requires nw >= 1 && nh >= 0 && newPixels.Length == nw * nh && 0 <= x < nw
    requires newPixels != pixels && |want| == newPixels.Length
    requires forall y :: 0 <= y < nh ==>
               0 <= x + y * nw < |want| && want[x + y * nw] == Interpolate(pixels[..], width, height, x, y, ix, iy)
    requires Written(newPixels[..], want, nw, x, 0)
    modifies newPixels
    ensures Written(newPixels[..], want, nw, x + 1, 0)
  {
    for y := 0 to nh
      invariant Written(newPixels[..], want, nw, x, y)
    {
      ghost var before := newPixels[..];
      var c := Interpolator(pixels, width, height, x, y, ix, iy);
      newPixels[x + y * nw] := c;
      WrittenStep(before, newPixels[..], want, nw, nh, x, y);
    }
    WrittenColumn(newPixels[..], want, nw, nh, x);
  }

  /** Mathf.FloorToInt(n * scale). */
  function NewSize(n: int, scale: real): int
  {
    (n as real * scale).Floor
  }

  /** Shrink samples at all: both new sizes are positive. */
  predicate Samples(width: int, height: int, scaleX: real, scaleY: real)
  {
    NewSize(width, scaleX) >= 1 && NewSize(height, scaleY) >= 1
  }

  /** A positive new size of a non-negative size needs a positive size and
      a positive scale. */
  lemma PositiveSize(n: int, scale: real)
    requires n >= 0 && NewSize(n, scale) >= 1
    ensures n >= 1 && scale > 0.0
  {
    assert n as real * scale >= 1.0;
  }

  /** Shrink(width, height, pixels, scaleX, scaleY): a new array of
      floor(width * scaleX) * floor(height * scaleY) pixels, or None, the
      OverflowException of a negative array length. When both new sizes are
      positive, slot x + y * newWidth holds the sample of output pixel
      (x, y) taken with the factors 1 / scaleX and 1 / scaleY; otherwise
      both loops are empty and every slot keeps the default colour. */
  method Shrink(width: int, height: int, pixels: array<Color>, scaleX: real, scaleY: real)
    returns (r: Option<array<Color>>)
    requires width >= 0 && height >= 0 && width * height <= pixels.Length
    ensures r.None? <==> NewSize(width, scaleX) * NewSize(height, scaleY) < 0
    ensures r.Some? ==> fresh(r.value) && r.value.Length == NewSize(width, scaleX) * NewSize(height, scaleY)
    ensures r.Some? && !Samples(width, height, scaleX, scaleY) ==>
              forall k :: 0 <= k < r.value.Length ==> r.value[k] == Clear
    ensures r.Some? && Samples(width, height, scaleX, scaleY) ==>
              width >= 1 && height >= 1 && scaleX > 0.0 && scaleY > 0.0 &&
              r.value[..] == Shrunk(pixels[..], width, height, NewSize(width, scaleX), NewSize(height, scaleY),
                                    1.0 / scaleX, 1.0 / scaleY)
  {
    var newWidth := (width as real * scaleX).Floor;
    var newHeight := (height as real * scaleY).Floor;
    if newWidth * newHeight < 0 {
      return None;
    }
    var newPixels := new Color[newWidth * newHeight](_ => Clear);
    r := Some(newPixels);
    if newWidth < 1 || newHeight < 1 {
      return;
    }
    PositiveSize(width, scaleX);
    PositiveSize(height, scaleY);
    var invScaleX := 1.0 / scaleX;
    var invScaleY := 1.0 / scaleY;
    ghost var want := Shrunk(pixels[..], width, height, newWidth, newHeight, invScaleX, invScaleY);
    WrittenNone(newPixels[..], want, newWidth);
    for x := 0 to newWidth
      invariant Written(newPixels[..], want, newWidth, x, 0)
    {
      ShrunkColumn(pixels[..], width, height, newWidth, newHeight, invScaleX, invScaleY, x);
      ShrinkColumn(pixels, width, height, newPixels, newWidth, newHeight, invScaleX, invScaleY, x, want);
    }
    forall k | 0 <= k < newPixels.Length
      ensures newPixels[k] == want[k]
    {
      FlatIndexSplit(k, newWidth, newHeight);
    }
  }

  lemma MulNonNegative(a: int, b: int)
    requires a >= 0 && b >= 0
    ensures a * b >= 0
  {
  }
}
