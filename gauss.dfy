/** GaussianBlur: boxesForGauss turns the blur radius sigma into three box
    widths, gaussBlur_4 runs three box blurs of those radii on one channel,
    and GaussianBlur splits a picture into its four channels, blurs each,
    clamps the results to [0,1] and puts the colours back together. */
module Gauss {
  import opened Arith
  import opened Colors
  import opened BoxLines
  import opened BoxBlur

  // ------------------------------------------- boxesForGauss

  function Abs(x: int): nat
  {
    if x < 0 then -x else x
  }

  /** The largest m >= k with m * m <= x. */
  function SqrtFrom(x: nat, k: nat): (m: nat)
    requires k * k <= x
    ensures m * m <= x < (m + 1) * (m + 1)
    decreases x - k
  {
    if (k + 1) * (k + 1) > x then k
    else
      MulAtLeast(k + 1, k + 1);
      SqrtFrom(x, k + 1)
  }

  /** (int) Math.Floor(Math.Sqrt(x)) for a non-negative integer x. */
  function FloorSqrt(x: nat): nat
  {
    SqrtFrom(x, 0)
  }

  lemma SquareMonotone(a: nat, b: nat)
    requires a <= b
    ensures a * a <= b * b
  {
    assert a * a <= a * b <= b * b;
  }

  /** The floor square root is the only k with k * k <= x < (k + 1)^2. */
  lemma FloorSqrtUnique(x: nat, k: nat)
    requires k * k <= x < (k + 1) * (k + 1)
    ensures FloorSqrt(x) == k
  {
    var m := FloorSqrt(x);
    if m < k {
      SquareMonotone(m + 1, k);
    } else if m > k {
      SquareMonotone(k + 1, m);
    }
  }

  /** Math.Round(x) with its default midpoint rule: to the nearest integer,
      and to the even one of the two at a tie. */
  function RoundHalfEven(x: real): (m: int)
    ensures -0.5 <= x - m as real <= 0.5
    ensures (x - m as real == 0.5 || x - m as real == -0.5) ==> m % 2 == 0
  {
    var f := x.Floor;
    var d := x - f as real;
    if d < 0.5 then f
    else if d > 0.5 then f + 1
    else if f % 2 == 0 then f
    else f + 1
  }

  /** wl: the floor of sqrt(12 sigma^2 / n + 1), made odd by stepping down. */
  function LowerWidth(sigma: int, n: int): (wl: int)
    requires n >= 1
    ensures wl >= 1 && wl % 2 == 1
  {
    var w := FloorSqrt(12 * sigma * sigma / n + 1);
    assert w >= 1;
    if w % 2 == 0 then w - 1 else w
  }

  /** m: how many of the n boxes take the lower width, Math.Round of the
      ideal count. */
  function LowerCount(sigma: int, n: int): int
    requires n >= 1
  {
    var wl := LowerWidth(sigma, n);
    RoundHalfEven((12 * sigma * sigma - n * wl * wl - 4 * n * wl - 3 * n) as real / (-4 * wl - 4) as real)
  }

  /** The n widths: the first m are wl, the rest wl + 2. */
  function BoxSizes(sigma: int, n: int): (sizes: seq<int>)
    requires n >= 1
    ensures |sizes| == n
    ensures forall i :: 0 <= i < n ==> sizes[i] >= 1 && sizes[i] % 2 == 1
  {
    var wl := LowerWidth(sigma, n);
    Split(n, LowerCount(sigma, n), wl, wl + 2)
  }

  /** n widths, the first m of them lower and the rest upper. */
  function Split(n: nat, m: int, lower: int, upper: int): (sizes: seq<int>)
    ensures |sizes| == n
    ensures forall i :: 0 <= i < n ==> sizes[i] == if i < m then lower else upper
  {
    seq(n, i requires 0 <= i < n => if i < m then lower else upper)
  }

  /** The loop of boxesForGauss that fills the list of widths. */
  method FillSizes(n: nat, m: int, lower: int, upper: int) returns (sizes: seq<int>)
    ensures sizes == Split(n, m, lower, upper)
  {
    sizes := [];
    for i := 0 to n
      invariant sizes == Split(i, m, lower, upper)
    {
      sizes := sizes + [if i < m then lower else upper];
    }
  }

  /** The first two lines of boxesForGauss: the floor of the ideal width,
      stepped down to an odd number. */
  method LowerWidthOf(sigma: int, n: int) returns (wl: int)
    requires n >= 1
    ensures wl == LowerWidth(sigma, n)
  {
    wl := FloorSqrt(12 * sigma * sigma / n + 1);
    if wl % 2 == 0 {
      wl := wl - 1;
    }
  }

  /** Math.Round of the ideal number of lower-width boxes. */
  method LowerCountOf(sigma: int, n: int, wl: int) returns (m: int)
    requires n >= 1 && wl == LowerWidth(sigma, n)
    ensures m == LowerCount(sigma, n)
  {
    m := RoundHalfEven((12 * sigma * sigma - n * wl * wl - 4 * n * wl - 3 * n) as real / (-4 * wl - 4) as real);
  }

  /** boxesForGauss(sigma, n). */
  method BoxesForGauss(sigma: int, n: int) returns (sizes: seq<int>)
    requires n >= 1
    ensures sizes == BoxSizes(sigma, n)
  {
    var wl := LowerWidthOf(sigma, n);
    var wu := wl + 2;
    var m := LowerCountOf(sigma, n, wl);
    sizes := FillSizes(n, m, wl, wu);
  }

  lemma TwelveSquares(sigma: int)
    ensures 12 * sigma * sigma == 12 * (Abs(sigma) * Abs(sigma))
    ensures 12 * sigma * sigma / 3 == 4 * (Abs(sigma) * Abs(sigma))
  {
    var q := Abs(sigma) * Abs(sigma);
    assert sigma * sigma == q;
    assert 12 * sigma * sigma == 12 * q;
  }

  lemma LowerWidthThree(sigma: int)
    ensures LowerWidth(sigma, 3) == if sigma == 0 then 1 else 2 * Abs(sigma) - 1
  {
    var s := Abs(sigma);
    TwelveSquares(sigma);
    if s == 0 {
      FloorSqrtUnique(1, 1);
    } else {
      assert (2 * s) * (2 * s) == 4 * (s * s);
      assert (2 * s + 1) * (2 * s + 1) == 4 * (s * s) + 4 * s + 1;
      FloorSqrtUnique(4 * (s * s) + 1, 2 * s);
    }
  }

  lemma DivExact(a: real, b: real, q: real)
    requires b != 0.0 && a == q * b
    ensures a / b == q
  {
  }

  lemma OddSquare(s: int)
    ensures 3 * (2 * s - 1) * (2 * s - 1) == 12 * (s * s) - 12 * s + 3
  {
  }

  lemma LowerCountThree(sigma: int)
    ensures LowerCount(sigma, 3) == if sigma == 0 then 3 else 2
  {
    var s := Abs(sigma);
    LowerWidthThree(sigma);
    TwelveSquares(sigma);
    var wl := LowerWidth(sigma, 3);
    var num := 12 * sigma * sigma - 3 * wl * wl - 4 * 3 * wl - 3 * 3;
    if s == 0 {
      assert num == -24;
      DivExact(num as real, (-4 * wl - 4) as real, 3.0);
      assert RoundHalfEven(3.0) == 3;
    } else {
      OddSquare(s);
      assert num == -12 * (s as int);
      assert -4 * wl - 4 == -8 * (s as int);
      DivExact(num as real, (-4 * wl - 4) as real, 1.5);
      assert (1.5).Floor == 1;
      assert RoundHalfEven(1.5) == 2;
    }
  }

  /** For three boxes the widths are [1, 1, 1] at sigma 0 and otherwise
      [2s - 1, 2s - 1, 2s + 1] with s = |sigma|: mIdeal is exactly 3 at
      sigma 0 and exactly 1.5 otherwise, which rounds to the even 2. */
  lemma BoxesForThree(sigma: int)
    ensures BoxSizes(sigma, 3) == if sigma == 0 then [1, 1, 1] else [2 * Abs(sigma) - 1, 2 * Abs(sigma) - 1, 2 * Abs(sigma) + 1]
  {
    LowerWidthThree(sigma);
    LowerCountThree(sigma);
  }

  /** The three radii gaussBlur_4 passes to boxBlur_4, in closed form. */
  function Radii(sigma: int): (r: seq<nat>)
    ensures |r| == 3
  {
    if sigma == 0 then [0, 0, 0] else [Abs(sigma) - 1, Abs(sigma) - 1, Abs(sigma)]
  }

  /** The radii are (width - 1) / 2 of the three widths of boxesForGauss. */
  lemma RadiiOfWidths(sigma: int)
    ensures var b := BoxSizes(sigma, 3); Radii(sigma) == [(b[0] - 1) / 2, (b[1] - 1) / 2, (b[2] - 1) / 2]
  {
    BoxesForThree(sigma);
  }

  // ------------------------------------------- gaussBlur_4

  /** A channel gaussBlur_4 can blur with this sigma. */
  predicate Blurrable(s: seq<real>, w: nat, h: nat, sigma: int)
  {
    |s| == w * h && w >= 2 * Abs(sigma) + 1 && h >= 2 * Abs(sigma) + 1
  }

  /** The channel after the first two boxes. */
  function TwoBoxes(s: seq<real>, w: nat, h: nat, sigma: int): (d: seq<real>)
    requires Blurrable(s, w, h, sigma)
    ensures |d| == |s|
  {
    var r := Radii(sigma);
    Box(Box(s, w, h, r[0]), w, h, r[1])
  }

  /** What gaussBlur_4 leaves in dest: three boxes in turn. */
  function GaussChannel(s: seq<real>, w: nat, h: nat, sigma: int): (d: seq<real>)
    requires Blurrable(s, w, h, sigma)
    ensures |d| == |s|
  {
    Box(TwoBoxes(s, w, h, sigma), w, h, Radii(sigma)[2])
  }

  /** Scratch content gaussBlur_4 leaves in its source array. */
  function Scratch(s: seq<real>, w: nat, h: nat, sigma: int): (d: seq<real>)
    requires Blurrable(s, w, h, sigma)
    ensures |d| == |s|
  {
    HPass(TwoBoxes(s, w, h, sigma), w, h, Radii(sigma)[2])
  }

  /** gaussBlur_4(source, dest, w, h, sigma): the blurred channel ends in
      dest; source is used as scratch and ends holding the horizontal pass
      of the third box. */
  method GaussBlur4(source: array<real>, dest: array<real>, w: nat, h: nat, sigma: int)
    requires source != dest && source.Length == dest.Length && Blurrable(source[..], w, h, sigma)
    modifies source, dest
    ensures dest[..] == GaussChannel(old(source[..]), w, h, sigma)
    ensures source[..] == Scratch(old(source[..]), w, h, sigma)
  {
    var bxs := BoxesForGauss(sigma, 3);
    ghost var radii := Radii(sigma);
    RadiiOfWidths(sigma);
    var r0, r1, r2 := (bxs[0] - 1) / 2, (bxs[1] - 1) / 2, (bxs[2] - 1) / 2;
    assert [r0, r1, r2] == radii;
    ghost var s0 := source[..];
    BoxBlur4(source, dest, w, h, r0);
    ghost var s1 := dest[..];
    assert s1 == Box(s0, w, h, radii[0]);
    BoxBlur4(dest, source, w, h, r1);
    ghost var s2 := source[..];
    assert s2 == TwoBoxes(s0, w, h, sigma);
    BoxBlur4(source, dest, w, h, r2);
  }

  /** Three boxes leave a uniform channel as it is. */
  lemma GaussOfConstant(s: seq<real>, c: real, w: nat, h: nat, sigma: int)
    requires Blurrable(s, w, h, sigma) && forall k :: 0 <= k < |s| ==> s[k] == c
    ensures forall k :: 0 <= k < |s| ==> GaussChannel(s, w, h, sigma)[k] == c
  {
    var r := Radii(sigma);
    BoxOfConstant(s, c, w, h, r[0]);
    var b1 := Box(s, w, h, r[0]);
    BoxOfConstant(b1, c, w, h, r[1]);
    BoxOfConstant(Box(b1, w, h, r[1]), c, w, h, r[2]);
  }

  /** At sigma 0 every box has radius 0, so the channel comes back unchanged. */
  lemma GaussSigmaZero(s: seq<real>, w: nat, h: nat)
    requires Blurrable(s, w, h, 0)
    ensures GaussChannel(s, w, h, 0) == s
  {
    BoxRadiusZero(s, w, h);
  }

  // ------------------------------------------- GaussianBlur

  /** One channel of every pixel, 0 red to 3 alpha. */
  function Plane(s: seq<Color>, c: int): (p: seq<real>)
    requires 0 <= c < 4
    ensures |p| == |s|
    ensures forall k :: 0 <= k < |s| ==> p[k] == Channel(s[k], c).value
  {
    seq(|s|, k requires 0 <= k < |s| => Channel(s[k], c).value)
  }

  /** The clamped pixels put together from four channels. */
  function Joined(red: seq<real>, green: seq<real>, blue: seq<real>, alpha: seq<real>): (d: seq<Color>)
    requires |green| == |red| && |blue| == |red| && |alpha| == |red|
    ensures |d| == |red|
    ensures forall k :: 0 <= k < |d| ==> d[k] == ClampColor(Color(red[k], green[k], blue[k], alpha[k]))
  {
    seq(|red|, k requires 0 <= k < |red| => ClampColor(Color(red[k], green[k], blue[k], alpha[k])))
  }

  /** What GaussianBlur returns: each channel blurred on its own, then every
      channel clamped into [0,1]. */
  function Blurred(s: seq<Color>, w: nat, h: nat, sigma: int): (d: seq<Color>)
    requires |s| == w * h && w >= 2 * Abs(sigma) + 1 && h >= 2 * Abs(sigma) + 1
    ensures |d| == |s|
  {
    Joined(GaussChannel(Plane(s, 0), w, h, sigma), GaussChannel(Plane(s, 1), w, h, sigma),
           GaussChannel(Plane(s, 2), w, h, sigma), GaussChannel(Plane(s, 3), w, h, sigma))
  }

  /** The first loop of GaussianBlur: copy each channel into its own array. */
  method SplitChannels(source: array<Color>, red: array<real>, green: array<real>, blue: array<real>, alpha: array<real>)
    requires red.Length == source.Length && green.Length == source.Length
    requires blue.Length == source.Length && alpha.Length == source.Length
    requires red != green && red != blue && red != alpha && green != blue && green != alpha && blue != alpha
    modifies red, green, blue, alpha
    ensures red[..] == Plane(source[..], 0) && green[..] == Plane(source[..], 1)
    ensures blue[..] == Plane(source[..], 2) && alpha[..] == Plane(source[..], 3)
  {
    for i := 0 to source.Length
      invariant forall k :: 0 <= k < i ==> alpha[k] == source[k].a && red[k] == source[k].r
      invariant forall k :: 0 <= k < i ==> green[k] == source[k].g && blue[k] == source[k].b
    {
      alpha[i] := source[i].a;
      red[i] := source[i].r;
      green[i] := source[i].g;
      blue[i] := source[i].b;
    }
  }

  /** The last loop of GaussianBlur: clamp each channel in place and join
      the four into dest. */
  method ClampJoin(red: array<real>, green: array<real>, blue: array<real>, alpha: array<real>, dest: array<Color>)
    requires green.Length == red.Length && blue.Length == red.Length && alpha.Length == red.Length
    requires dest.Length == red.Length
    requires red != green && red != blue && red != alpha && green != blue && green != alpha && blue != alpha
    modifies red, green, blue, alpha, dest
    ensures dest[..] == Joined(old(red[..]), old(green[..]), old(blue[..]), old(alpha[..]))
    ensures forall k :: 0 <= k < red.Length ==> red[k] == Clamp01(old(red[k])) && green[k] == Clamp01(old(green[k]))
    ensures forall k :: 0 <= k < red.Length ==> blue[k] == Clamp01(old(blue[k])) && alpha[k] == Clamp01(old(alpha[k]))
  {
    for i := 0 to dest.Length
      invariant forall k :: 0 <= k < i ==> dest[k] == ClampColor(Color(old(red[k]), old(green[k]), old(blue[k]), old(alpha[k])))
      invariant forall k :: 0 <= k < i ==> red[k] == Clamp01(old(red[k])) && green[k] == Clamp01(old(green[k]))
      invariant forall k :: 0 <= k < i ==> blue[k] == Clamp01(old(blue[k])) && alpha[k] == Clamp01(old(alpha[k]))
      invariant forall k :: i <= k < dest.Length ==> red[k] == old(red[k]) && green[k] == old(green[k])
      invariant forall k :: i <= k < dest.Length ==> blue[k] == old(blue[k]) && alpha[k] == old(alpha[k])
    {
      alpha[i] := Clamp01(alpha[i]);
      red[i] := Clamp01(red[i]);
      green[i] := Clamp01(green[i]);
      blue[i] := Clamp01(blue[i]);
      dest[i] := Color(red[i], green[i], blue[i], alpha[i]);
    }
  }

  /** Two of the four channel blurs of GaussianBlur, on disjoint arrays. */
  method BlurTwo(a: array<real>, na: array<real>, b: array<real>, nb: array<real>, w: nat, h: nat, sigma: int)
    requires a != na && a != b && a != nb && na != b && na != nb && b != nb
    requires a.Length == w * h && na.Length == w * h && b.Length == w * h && nb.Length == w * h
    requires w >= 2 * Abs(sigma) + 1 && h >= 2 * Abs(sigma) + 1
    modifies a, na, b, nb
    ensures na[..] == GaussChannel(old(a[..]), w, h, sigma) && a[..] == Scratch(old(a[..]), w, h, sigma)
    ensures nb[..] == GaussChannel(old(b[..]), w, h, sigma) && b[..] == Scratch(old(b[..]), w, h, sigma)
  {
    ghost var pb := b[..];
    GaussBlur4(a, na, w, h, sigma);
    ghost var ga, sa := na[..], a[..];
    assert b[..] == pb;
    GaussBlur4(b, nb, w, h, sigma);
    assert na[..] == ga && a[..] == sa;
  }

  /** GaussianBlur(source, width, height, blurRadial): the four channels are
      split into arrays of their own, blurred independently and joined back
      after the clamp. The source array is not changed. */
  method GaussianBlur(source: array<Color>, w: nat, h: nat, sigma: int) returns (dest: array<Color>)
    requires source.Length == w * h && w >= 2 * Abs(sigma) + 1 && h >= 2 * Abs(sigma) + 1
    ensures dest[..] == Blurred(source[..], w, h, sigma)
  {
    var alpha := new real[w * h];
    var red := new real[w * h];
    var green := new real[w * h];
    var blue := new real[w * h];
    var newAlpha := new real[w * h];
    var newRed := new real[w * h];
    var newGreen := new real[w * h];
    var newBlue := new real[w * h];
    dest := new Color[w * h](_ => Clear);
    SplitChannels(source, red, green, blue, alpha);
    ghost var pg, pb := green[..], blue[..];
    BlurTwo(alpha, newAlpha, red, newRed, w, h, sigma);
    ghost var ga, gr := newAlpha[..], newRed[..];
    assert green[..] == pg && blue[..] == pb;
    BlurTwo(green, newGreen, blue, newBlue, w, h, sigma);
    assert newAlpha[..] == ga && newRed[..] == gr;
    ClampJoin(newRed, newGreen, newBlue, newAlpha, dest);
  }

  /** Every pixel GaussianBlur returns has its four channels in [0,1]. */
  lemma BlurredInUnitRange(s: seq<Color>, w: nat, h: nat, sigma: int)
    requires |s| == w * h && w >= 2 * Abs(sigma) + 1 && h >= 2 * Abs(sigma) + 1
    ensures forall k :: 0 <= k < |s| ==> InUnitRange(Blurred(s, w, h, sigma)[k])
  {
  }

  /** A uniform picture of a colour in [0,1] comes back unchanged. */
  lemma BlurredOfUniform(s: seq<Color>, c: Color, w: nat, h: nat, sigma: int)
    requires |s| == w * h && w >= 2 * Abs(sigma) + 1 && h >= 2 * Abs(sigma) + 1
    requires InUnitRange(c) && forall k :: 0 <= k < |s| ==> s[k] == c
    ensures Blurred(s, w, h, sigma) == s
  {
    GaussOfConstant(Plane(s, 0), c.r, w, h, sigma);
    GaussOfConstant(Plane(s, 1), c.g, w, h, sigma);
    GaussOfConstant(Plane(s, 2), c.b, w, h, sigma);
    GaussOfConstant(Plane(s, 3), c.a, w, h, sigma);
  }

  /** At sigma 0 GaussianBlur only clamps. */
  lemma BlurredSigmaZero(s: seq<Color>, w: nat, h: nat)
    requires |s| == w * h && w >= 1 && h >= 1
    ensures forall k :: 0 <= k < |s| ==> Blurred(s, w, h, 0)[k] == ClampColor(s[k])
  {
    GaussSigmaZero(Plane(s, 0), w, h);
    GaussSigmaZero(Plane(s, 1), w, h);
    GaussSigmaZero(Plane(s, 2), w, h);
    GaussSigmaZero(Plane(s, 3), w, h);
  }
}
