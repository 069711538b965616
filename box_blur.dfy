/** boxBlurH_4 and boxBlurT_4 run the line pass of BoxLines over every row
    and every column of one channel, a flat row-major array of w * h reals
    that holds pixel (x, y) at x + y * w; boxBlur_4 copies the channel and
    runs both. */
module BoxBlur {
  import opened Arith
  import opened BoxLines

  /** A well-formed channel with lines long enough for radius r. */
  predicate Fits(s: seq<real>, w: nat, h: nat, r: nat)
  {
    |s| == w * h && w >= 2 * r + 1 && h >= 2 * r + 1
  }

  /** Row y of a channel. */
  function Row(s: seq<real>, w: nat, h: nat, y: nat): (l: seq<real>)
    requires |s| == w * h && 0 < w && y < h
    ensures |l| == w
  {
    assert At(y * w, 1, w - 1) < |s| by {
      AtIsAffine(y * w, 1, w - 1);
      FlatIndex(w - 1, y, w, h);
    }
    Line(s, y * w, 1, w)
  }

  /** Column x of a channel. */
  function Col(s: seq<real>, w: nat, h: nat, x: nat): (l: seq<real>)
    requires |s| == w * h && x < w && 0 < h
    ensures |l| == h
  {
    assert At(x, w, h - 1) < |s| by {
      AtIsAffine(x, w, h - 1);
      FlatIndex(x, h - 1, w, h);
    }
    Line(s, x, w, h)
  }

  /** What boxBlurH_4 leaves in its output: pixel (x, y) is entry x of the
      pass over row y (with the feedback of the source's middle loop). */
  function HPass(s: seq<real>, w: nat, h: nat, r: nat): (d: seq<real>)
    requires Fits(s, w, h, r)
    ensures |d| == |s|
  {
    seq(w * h, k requires 0 <= k < w * h =>
      FlatIndexSplit(k, w, h);
      BoxLine(Row(s, w, h, k / w), r, true)[k % w])
  }

  /** What boxBlurT_4 leaves in its output: pixel (x, y) is entry y of the
      pass over column x. */
  function TPass(s: seq<real>, w: nat, h: nat, r: nat): (d: seq<real>)
    requires Fits(s, w, h, r)
    ensures |d| == |s|
  {
    seq(w * h, k requires 0 <= k < w * h =>
      FlatIndexSplit(k, w, h);
      BoxLine(Col(s, w, h, k % w), r, false)[k / w])
  }

  /** Rows 0..i have been written with HPass, the rest still hold d0. */
  ghost predicate RowsDone(d: seq<real>, d0: seq<real>, s: seq<real>, w: nat, h: nat, r: nat, i: nat)
    requires Fits(s, w, h, r)
  {
    |d| == |d0| == w * h &&
    forall k :: 0 <= k < w * h ==> d[k] == if k < i * w then HPass(s, w, h, r)[k] else d0[k]
  }

  /** Columns 0..i have been written with TPass, the rest still hold d0. */
  ghost predicate ColsDone(d: seq<real>, d0: seq<real>, s: seq<real>, w: nat, h: nat, r: nat, i: nat)
    requires Fits(s, w, h, r)
  {
    |d| == |d0| == w * h &&
    forall k :: 0 <= k < w * h ==> d[k] == if k % w < i then TPass(s, w, h, r)[k] else d0[k]
  }

  lemma RowStep(d: seq<real>, d0: seq<real>, s: seq<real>, w: nat, h: nat, r: nat, i: nat)
    requires Fits(s, w, h, r) && i < h && RowsDone(d, d0, s, w, h, r, i)
    requires At(i * w, 1, w - 1) < |d|
    ensures RowsDone(Overlay(d, i * w, 1, BoxLine(Row(s, w, h, i), r, true)), d0, s, w, h, r, i + 1)
  {
    var out := BoxLine(Row(s, w, h, i), r, true);
    var e := Overlay(d, i * w, 1, out);
    forall k | 0 <= k < w * h
      ensures e[k] == if k < (i + 1) * w then HPass(s, w, h, r)[k] else d0[k]
    {
      FlatIndexSplit(k, w, h);
      var x, y := k % w, k / w;
      BeforeRow(k, w, i);
      BeforeRow(k, w, i + 1);
      if y == i {
        AtIsAffine(i * w, 1, x);
        OverlayOnLine(d, i * w, 1, out, x);
      } else {
        forall t | 0 <= t < w
          ensures At(i * w, 1, t) != k
        {
          AtIsAffine(i * w, 1, t);
          if i * w + t == k {
            DivModUnique(k, w, i, t);
          }
        }
        OverlayOffLine(d, i * w, 1, out, k);
      }
    }
  }

  lemma ColStep(d: seq<real>, d0: seq<real>, s: seq<real>, w: nat, h: nat, r: nat, i: nat)
    requires Fits(s, w, h, r) && i < w && ColsDone(d, d0, s, w, h, r, i)
    requires At(i, w, h - 1) < |d|
    ensures ColsDone(Overlay(d, i, w, BoxLine(Col(s, w, h, i), r, false)), d0, s, w, h, r, i + 1)
  {
    var out := BoxLine(Col(s, w, h, i), r, false);
    var e := Overlay(d, i, w, out);
    forall k | 0 <= k < w * h
      ensures e[k] == if k % w < i + 1 then TPass(s, w, h, r)[k] else d0[k]
    {
      FlatIndexSplit(k, w, h);
      var x, y := k % w, k / w;
      if x == i {
        AtIsAffine(i, w, y);
        OverlayOnLine(d, i, w, out, y);
      } else {
        forall t | 0 <= t < h
          ensures At(i, w, t) != k
        {
          AtIsAffine(i, w, t);
          if i + t * w == k {
            DivModUnique(k, w, t, i);
          }
        }
        OverlayOffLine(d, i, w, out, k);
      }
    }
  }

  /** boxBlurH_4(source, dest, w, h, r): every row of dest becomes the pass
      over the same row of source; the middle loop reads dest back. */
  method BoxBlurH(source: array<real>, dest: array<real>, w: nat, h: nat, r: nat)
    requires source != dest && source.Length == dest.Length && Fits(source[..], w, h, r)
    modifies dest
    ensures dest[..] == HPass(old(source[..]), w, h, r)
  {
    var src := source[..];
    ghost var d0 := dest[..];
    for i := 0 to h
      invariant RowsDone(dest[..], d0, src, w, h, r, i)
    {
      ghost var d := dest[..];
      assert At(i * w, 1, w - 1) < dest.Length by {
        AtIsAffine(i * w, 1, w - 1);
        FlatIndex(w - 1, i, w, h);
      }
      SlideLine(src, dest, i * w, 1, w, r, true);
      RowStep(d, d0, src, w, h, r, i);
    }
    assert dest[..] == HPass(src, w, h, r) by {
      forall k | 0 <= k < w * h
        ensures dest[k] == HPass(src, w, h, r)[k]
      {
        FlatIndexSplit(k, w, h);
        BeforeRow(k, w, h);
      }
    }
  }

  /** boxBlurT_4(source, dest, w, h, r): every column of dest becomes the
      pass over the same column of source. */
  method BoxBlurT(source: array<real>, dest: array<real>, w: nat, h: nat, r: nat)
    requires source != dest && source.Length == dest.Length && Fits(source[..], w, h, r)
    modifies dest
    ensures dest[..] == TPass(old(source[..]), w, h, r)
  {
    var src := source[..];
    ghost var d0 := dest[..];
    for i := 0 to w
      invariant ColsDone(dest[..], d0, src, w, h, r, i)
    {
      ghost var d := dest[..];
      assert At(i, w, h - 1) < dest.Length by {
        AtIsAffine(i, w, h - 1);
        FlatIndex(i, h - 1, w, h);
      }
      SlideLine(src, dest, i, w, h, r, false);
      ColStep(d, d0, src, w, h, r, i);
    }
    assert dest[..] == TPass(src, w, h, r) by {
      forall k | 0 <= k < w * h
        ensures dest[k] == TPass(src, w, h, r)[k]
      {
        FlatIndexSplit(k, w, h);
      }
    }
  }

  /** One box of boxBlur_4. */
  function Box(s: seq<real>, w: nat, h: nat, r: nat): (d: seq<real>)
    requires Fits(s, w, h, r)
    ensures |d| == |s|
  {
    TPass(HPass(s, w, h, r), w, h, r)
  }

  /** boxBlur_4(source, dest, w, h, r): dest gets a copy of source, the
      horizontal pass reads that copy into source, and the vertical pass
      reads source into dest. */
  method BoxBlur4(source: array<real>, dest: array<real>, w: nat, h: nat, r: nat)
    requires source != dest && source.Length == dest.Length && Fits(source[..], w, h, r)
    modifies source, dest
    ensures source[..] == HPass(old(source[..]), w, h, r)
    ensures dest[..] == Box(old(source[..]), w, h, r)
  {
    for i := 0 to source.Length
      invariant dest[..i] == source[..i]
      invariant source[..] == old(source[..])
    {
      dest[i] := source[i];
    }
    assert dest[..] == source[..];
    BoxBlurH(dest, source, w, h, r);
    BoxBlurT(source, dest, w, h, r);
  }

  /** The vertical pass is the mean over a window of 2r + 1 pixels of the
      column, the first and last pixels standing in beyond its ends. */
  lemma TPassIsMean(s: seq<real>, w: nat, h: nat, r: nat, x: nat, y: nat)
    requires Fits(s, w, h, r) && x < w && y < h
    ensures 0 <= x + y * w < |s|
    ensures TPass(s, w, h, r)[x + y * w] == Scaled(RangeSum(Col(s, w, h, x), y - r, y + r + 1), r)
  {
    FlatIndex(x, y, w, h);
    BoxLineIsMean(Col(s, w, h, x), r, y);
  }

  /** Every entry of a row or column of a constant channel is that constant. */
  lemma LineOfConstant(s: seq<real>, c: real, start: nat, stride: nat, n: nat)
    requires stride >= 1 && 0 < n && At(start, stride, n - 1) < |s|
    requires forall k :: 0 <= k < |s| ==> s[k] == c
    ensures forall t :: 0 <= t < n ==> Line(s, start, stride, n)[t] == c
  {
    forall t | 0 <= t < n
      ensures Line(s, start, stride, n)[t] == c
    {
      LineAt(s, start, stride, n, t);
    }
  }

  /** A box blur leaves a uniform channel as it is. */
  lemma BoxOfConstant(s: seq<real>, c: real, w: nat, h: nat, r: nat)
    requires Fits(s, w, h, r) && forall k :: 0 <= k < |s| ==> s[k] == c
    ensures forall k :: 0 <= k < |s| ==> Box(s, w, h, r)[k] == c
  {
    var t := HPass(s, w, h, r);
    forall k | 0 <= k < w * h
      ensures t[k] == c
    {
      FlatIndexSplit(k, w, h);
      var y := k / w;
      AtIsAffine(y * w, 1, w - 1);
      FlatIndex(w - 1, y, w, h);
      LineOfConstant(s, c, y * w, 1, w);
      BoxLineOfConstant(Row(s, w, h, y), c, r, true);
    }
    forall k | 0 <= k < w * h
      ensures Box(s, w, h, r)[k] == c
    {
      FlatIndexSplit(k, w, h);
      var x := k % w;
      AtIsAffine(x, w, h - 1);
      FlatIndex(x, h - 1, w, h);
      LineOfConstant(t, c, x, w, h);
      BoxLineOfConstant(Col(t, w, h, x), c, r, false);
    }
  }

  /** A box of radius 0 copies the channel. */
  lemma BoxRadiusZero(s: seq<real>, w: nat, h: nat)
    requires Fits(s, w, h, 0)
    ensures Box(s, w, h, 0) == s
  {
    var t := HPass(s, w, h, 0);
    forall k | 0 <= k < w * h
      ensures t[k] == s[k]
    {
      FlatIndexSplit(k, w, h);
      var x, y := k % w, k / w;
      AtIsAffine(y * w, 1, w - 1);
      FlatIndex(w - 1, y, w, h);
      BoxLineRadiusZero(Row(s, w, h, y), true);
      LineAt(s, y * w, 1, w, x);
      AtIsAffine(y * w, 1, x);
    }
    forall k | 0 <= k < w * h
      ensures Box(s, w, h, 0)[k] == s[k]
    {
      FlatIndexSplit(k, w, h);
      var x, y := k % w, k / w;
      AtIsAffine(x, w, h - 1);
      FlatIndex(x, h - 1, w, h);
      BoxLineRadiusZero(Col(t, w, h, x), false);
      LineAt(t, x, w, h, y);
      AtIsAffine(x, w, y);
    }
  }
}
