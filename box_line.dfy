/** One line of the box blur that boxBlurH_4 and boxBlurT_4 run over every
    row and every column of a channel: a running sum over a window of
    2r + 1 entries, the line's first and last entries standing in for the
    entries beyond its ends. A line is given by where it starts in the flat
    channel array and the stride between its entries (1 for a row, the
    width for a column). */
module BoxLines {
  function Sum(s: seq<real>): real
  {
    if s == [] then 0.0 else Sum(s[..|s| - 1]) + s[|s| - 1]
  }

  /** 1 / (r + r + 1), the weight of one window entry. */
  function Iar(r: nat): real
  {
    1.0 / (2 * r + 1) as real
  }

  /** An output: the running sum times 1 / (r + r + 1). */
  function Scaled(v: real, r: nat): real
  {
    v * Iar(r)
  }

  /** The running sum before the first output: fv counted r + 1 times, then
      the first r entries. */
  function Init(s: seq<real>, r: nat): real
    requires |s| >= 2 * r + 1
  {
    (r + 1) as real * s[0] + Sum(s[..r])
  }

  /** What step j adds to the running sum, given the outputs o[0..j) so far:
      the entry entering the window minus the one leaving it. The first r+1
      steps subtract the first entry; the middle steps subtract either the
      input r+1 places back (feedback off, the vertical pass) or the OUTPUT
      r+1 places back (feedback on, the horizontal pass, which reads dest);
      the last r steps add the last entry. */
  function Delta(s: seq<real>, r: nat, feedback: bool, o: seq<real>, j: nat): real
    requires |s| >= 2 * r + 1 && j < |s| && |o| == j
  {
    var n := |s|;
    if j <= r then s[j + r] - s[0]
    else if j < n - r then s[j + r] - (if feedback then o[j - r - 1] else s[j - r - 1])
    else s[n - 1] - s[j - r - 1]
  }

  /** The outputs of the first k steps and the running sum after them. */
  function Run(s: seq<real>, r: nat, feedback: bool, k: nat): (res: (seq<real>, real))
    requires |s| >= 2 * r + 1 && k <= |s|
    ensures |res.0| == k
  {
    if k == 0 then ([], Init(s, r))
    else
      var (o, v) := Run(s, r, feedback, k - 1);
      var v' := v + Delta(s, r, feedback, o, k - 1);
      (o + [Scaled(v', r)], v')
  }

  /** The line a box pass writes for the input line s. */
  function BoxLine(s: seq<real>, r: nat, feedback: bool): (o: seq<real>)
    requires |s| >= 2 * r + 1
    ensures |o| == |s|
  {
    Run(s, r, feedback, |s|).0
  }
  lemma RunStep(s: seq<real>, r: nat, feedback: bool, j: nat)
    requires |s| >= 2 * r + 1 && j < |s|
    ensures Run(s, r, feedback, j + 1).1 == Run(s, r, feedback, j).1 + Delta(s, r, feedback, Run(s, r, feedback, j).0, j)
    ensures Run(s, r, feedback, j + 1).0 == Run(s, r, feedback, j).0 + [Scaled(Run(s, r, feedback, j + 1).1, r)]
  {
  }

  lemma EnterStep(s: seq<real>, r: nat, fb: bool, j: nat, o: seq<real>, v: real)
    requires |s| >= 2 * r + 1 && j <= r && (o, v) == Run(s, r, fb, j)
    ensures Run(s, r, fb, j + 1) == (o + [Scaled(v + (s[j + r] - s[0]), r)], v + (s[j + r] - s[0]))
  {
    RunStep(s, r, fb, j);
  }

  lemma SlideStep(s: seq<real>, r: nat, fb: bool, j: nat, o: seq<real>, v: real, leaving: real)
    requires |s| >= 2 * r + 1 && r < j < |s| - r && (o, v) == Run(s, r, fb, j)
    requires leaving == if fb then o[j - r - 1] else s[j - r - 1]
    ensures Run(s, r, fb, j + 1) == (o + [Scaled(v + (s[j + r] - leaving), r)], v + (s[j + r] - leaving))
  {
    RunStep(s, r, fb, j);
  }

  lemma LeaveStep(s: seq<real>, r: nat, fb: bool, j: nat, o: seq<real>, v: real)
    requires |s| >= 2 * r + 1 && |s| - r <= j < |s| && (o, v) == Run(s, r, fb, j)
    ensures Run(s, r, fb, j + 1) == (o + [Scaled(v + (s[|s| - 1] - s[j - r - 1]), r)], v + (s[|s| - 1] - s[j - r - 1]))
  {
    RunStep(s, r, fb, j);
  }

  lemma OverlaySnoc(d: seq<real>, start: nat, stride: nat, out: seq<real>, x: real)
    requires stride >= 1 && At(start, stride, |out|) < |d|
    requires out == [] || At(start, stride, |out| - 1) < |d|
    ensures Overlay(d, start, stride, out + [x]) == Overlay(d, start, stride, out)[At(start, stride, |out|) := x]
  {
    assert (out + [x])[..|out|] == out;
  }

  // ------------------------------------------- the window mean the pass is meant to compute

  /** Entry u of s, with the first entry standing in for u < 0 and the last
      for u >= |s|. */
  function Clamped(s: seq<real>, u: int): real
    requires |s| > 0
  {
    if u < 0 then s[0] else if u >= |s| then s[|s| - 1] else s[u]
  }

  /** The sum of Clamped(s, u) for lo <= u < hi. */
  function RangeSum(s: seq<real>, lo: int, hi: int): real
    requires |s| > 0
    decreases hi - lo
  {
    if hi <= lo then 0.0 else RangeSum(s, lo, hi - 1) + Clamped(s, hi - 1)
  }

  lemma {:induction false} RangeSplit(s: seq<real>, a: int, b: int, c: int)
    requires |s| > 0 && a <= b <= c
    ensures RangeSum(s, a, c) == RangeSum(s, a, b) + RangeSum(s, b, c)
    decreases c - b
  {
    if b < c {
      RangeSplit(s, a, b, c - 1);
    }
  }

  lemma RangeSlide(s: seq<real>, lo: int, hi: int)
    requires |s| > 0 && lo < hi
    ensures RangeSum(s, lo + 1, hi + 1) == RangeSum(s, lo, hi) + Clamped(s, hi) - Clamped(s, lo)
  {
    RangeSplit(s, lo, lo + 1, hi + 1);
    assert RangeSum(s, lo, lo + 1) == Clamped(s, lo);
  }

  lemma {:induction false} LeftPad(s: seq<real>, k: nat)
    requires |s| > 0
    ensures RangeSum(s, -(k as int), 0) == k as real * s[0]
  {
    if k > 0 {
      LeftPad(s, k - 1);
      RangeSplit(s, -(k as int), -(k as int) + 1, 0);
      assert RangeSum(s, -(k as int), -(k as int) + 1) == s[0];
      assert (k - 1) as real * s[0] + s[0] == k as real * s[0];
    }
  }

  lemma {:induction false} PrefixRange(s: seq<real>, m: nat)
    requires 0 < |s| && m <= |s|
    ensures RangeSum(s, 0, m) == Sum(s[..m])
  {
    if m > 0 {
      PrefixRange(s, m - 1);
      assert s[..m][..m - 1] == s[..m - 1];
    }
  }

  /** The running sum starts as the window ending just before entry 0. */
  lemma InitIsWindow(s: seq<real>, r: nat)
    requires |s| >= 2 * r + 1
    ensures Init(s, r) == RangeSum(s, -(r as int) - 1, r)
  {
    LeftPad(s, r + 1);
    PrefixRange(s, r);
    RangeSplit(s, -(r as int) - 1, 0, r);
  }

  /** Without feedback, every step adds the entry entering the window and
      drops the one leaving it, clamped at both ends. */
  lemma DeltaIsSlide(s: seq<real>, r: nat, o: seq<real>, j: nat)
    requires |s| >= 2 * r + 1 && j < |s| && |o| == j
    ensures Delta(s, r, false, o, j) == Clamped(s, j + r) - Clamped(s, j - r - 1)
  {
  }

  lemma {:induction false} RunIsWindow(s: seq<real>, r: nat, k: nat)
    requires |s| >= 2 * r + 1 && k <= |s|
    ensures Run(s, r, false, k).1 == RangeSum(s, k - r - 1, k + r)
    ensures forall t :: 0 <= t < k ==> Run(s, r, false, k).0[t] == Scaled(RangeSum(s, t - r, t + r + 1), r)
  {
    if k == 0 {
      InitIsWindow(s, r);
    } else {
      RunIsWindow(s, r, k - 1);
      RunStep(s, r, false, k - 1);
      DeltaIsSlide(s, r, Run(s, r, false, k - 1).0, k - 1);
      RangeSlide(s, k - r - 2, k + r - 1);
    }
  }

  /** Without feedback (boxBlurT_4), output t is the mean of the 2r + 1
      entries centred on t, clamped at the ends of the line. */
  lemma BoxLineIsMean(s: seq<real>, r: nat, t: nat)
    requires |s| >= 2 * r + 1 && t < |s|
    ensures BoxLine(s, r, false)[t] == Scaled(RangeSum(s, t - r, t + r + 1), r)
  {
    RunIsWindow(s, r, |s|);
  }

  /** The sum of a window over a constant line. */
  lemma {:induction false} RangeOfConstant(s: seq<real>, c: real, lo: int, hi: int)
    requires |s| > 0 && lo <= hi && forall i :: 0 <= i < |s| ==> s[i] == c
    ensures RangeSum(s, lo, hi) == (hi - lo) as real * c
    decreases hi - lo
  {
    if lo < hi {
      RangeOfConstant(s, c, lo, hi - 1);
    }
  }

  lemma ScaledWindow(c: real, r: nat)
    ensures Scaled((2 * r + 1) as real * c, r) == c
  {
    var q := (2 * r + 1) as real;
    calc {
      Scaled(q * c, r);
      q * c * (1.0 / q);
      c * (q / q);
    }
  }

  /** Either pass leaves a constant line as it is: with feedback, every
      output it reads back is that constant too. */
  lemma {:induction false} RunOfConstant(s: seq<real>, c: real, r: nat, fb: bool, k: nat)
    requires |s| >= 2 * r + 1 && k <= |s| && forall i :: 0 <= i < |s| ==> s[i] == c
    ensures Run(s, r, fb, k).1 == (2 * r + 1) as real * c
    ensures forall t :: 0 <= t < k ==> Run(s, r, fb, k).0[t] == c
  {
    if k == 0 {
      InitIsWindow(s, r);
      RangeOfConstant(s, c, -(r as int) - 1, r);
    } else {
      RunOfConstant(s, c, r, fb, k - 1);
      ConstantStep(s, c, r, fb, k - 1, k);
    }
  }

  /** Over a constant line a step adds nothing to the running sum and
      outputs the constant. */
  lemma ConstantStep(s: seq<real>, c: real, r: nat, fb: bool, j: nat, k: nat)
    requires |s| >= 2 * r + 1 && k == j + 1 && k <= |s| && forall i :: 0 <= i < |s| ==> s[i] == c
    requires Run(s, r, fb, j).1 == (2 * r + 1) as real * c
    requires forall t :: 0 <= t < j ==> Run(s, r, fb, j).0[t] == c
    ensures Run(s, r, fb, k).1 == (2 * r + 1) as real * c
    ensures forall t :: 0 <= t < k ==> Run(s, r, fb, k).0[t] == c
  {
    var (o, v) := Run(s, r, fb, j);
    assert Delta(s, r, fb, o, j) == 0.0;
    RunStep(s, r, fb, j);
    ScaledWindow(c, r);
    assert Run(s, r, fb, k).0 == o + [c];
  }

  lemma BoxLineOfConstant(s: seq<real>, c: real, r: nat, fb: bool)
    requires |s| >= 2 * r + 1 && forall i :: 0 <= i < |s| ==> s[i] == c
    ensures forall t :: 0 <= t < |s| ==> BoxLine(s, r, fb)[t] == c
  {
    RunOfConstant(s, c, r, fb, |s|);
  }

  lemma {:induction false} RunRadiusZero(s: seq<real>, fb: bool, k: nat)
    requires 0 < |s| && k <= |s|
    ensures Run(s, 0, fb, k).1 == if k == 0 then s[0] else s[k - 1]
    ensures forall t :: 0 <= t < k ==> Run(s, 0, fb, k).0[t] == s[t]
  {
    if k == 0 {
      assert s[..0] == [];
    } else {
      RunRadiusZero(s, fb, k - 1);
      RadiusZeroStep(s, fb, k - 1, k);
    }
  }

  /** With radius 0 a step replaces the running sum by the next entry and
      outputs it. */
  lemma RadiusZeroStep(s: seq<real>, fb: bool, j: nat, k: nat)
    requires 0 < |s| && k == j + 1 && k <= |s|
    requires Run(s, 0, fb, j).1 == if j == 0 then s[0] else s[j - 1]
    requires forall t :: 0 <= t < j ==> Run(s, 0, fb, j).0[t] == s[t]
    ensures Run(s, 0, fb, k).1 == s[j]
    ensures forall t :: 0 <= t < k ==> Run(s, 0, fb, k).0[t] == s[t]
  {
    var (o, v) := Run(s, 0, fb, j);
    assert Delta(s, 0, fb, o, j) == s[j] - v;
    RunStep(s, 0, fb, j);
    ScaledRadiusZero(s[j]);
    assert Run(s, 0, fb, k).0 == o + [s[j]];
  }

  lemma ScaledRadiusZero(x: real)
    ensures Scaled(x, 0) == x
  {
    assert Iar(0) == 1.0;
  }

  /** With radius 0 either pass copies the line: the window is the entry
      itself, and with feedback the output read back equals the input. */
  lemma BoxLineRadiusZero(s: seq<real>, fb: bool)
    requires 0 < |s|
    ensures BoxLine(s, 0, fb) == s
  {
    RunRadiusZero(s, fb, |s|);
  }

  /** With feedback (boxBlurH_4 as written), the line [3, 0, 0, 0] blurred
      with radius 1 gives 1/3 at entry 2, where the window mean is 0: the
      middle loop subtracts the already blurred output rather than the
      input leaving the window. */
  lemma FeedbackDiffersFromMean()
    ensures BoxLine([3.0, 0.0, 0.0, 0.0], 1, true)[2] == 1.0 / 3.0
    ensures Scaled(RangeSum([3.0, 0.0, 0.0, 0.0], 1, 4), 1) == 0.0
    ensures BoxLine([3.0, 0.0, 0.0, 0.0], 1, false)[2] == 0.0
  {
    var s := [3.0, 0.0, 0.0, 0.0];
    BoxLineIsMean(s, 1, 2);
    assert s[..1] == [3.0];
    assert Run(s, 1, true, 0) == ([], 9.0);
    RunStep(s, 1, true, 0);
    assert Delta(s, 1, true, [], 0) == -3.0;
    assert Scaled(6.0, 1) == 2.0;
    assert Run(s, 1, true, 1).1 == 6.0;
    assert Run(s, 1, true, 1).0 == [] + [2.0] == [2.0];
    RunStep(s, 1, true, 1);
    assert Delta(s, 1, true, [2.0], 1) == -3.0;
    assert Scaled(3.0, 1) == 1.0;
    assert Run(s, 1, true, 2).1 == 3.0;
    assert Run(s, 1, true, 2).0 == [2.0] + [1.0] == [2.0, 1.0];
    RunStep(s, 1, true, 2);
    assert Delta(s, 1, true, [2.0, 1.0], 2) == -2.0;
    assert Scaled(1.0, 1) == 1.0 / 3.0;
    assert Run(s, 1, true, 3).1 == 1.0;
    assert Run(s, 1, true, 3).0 == [2.0, 1.0] + [1.0 / 3.0];
  }

  // ------------------------------------------- lines inside a flat array

  /** The flat index of entry t of the line that starts at start and steps
      by stride: a row has stride 1, a column stride w. */
  function At(start: nat, stride: nat, t: nat): nat
  {
    if t == 0 then start else At(start, stride, t - 1) + stride
  }

  lemma AtNext(start: nat, stride: nat, t: nat)
    ensures At(start, stride, t + 1) == At(start, stride, t) + stride
  {
  }

  /** The two indices a window pass advances together: the entry written and
      the entry k ahead of it. */
  lemma AtAdvance(start: nat, stride: nat, j: nat, k: nat)
    ensures At(start, stride, j + 1) == At(start, stride, j) + stride
    ensures At(start, stride, j + 1 + k) == At(start, stride, j + k) + stride
  {
    AtNext(start, stride, j + k);
  }

  lemma {:induction false} AtIsAffine(start: nat, stride: nat, t: nat)
    ensures At(start, stride, t) == start + t * stride
  {
    if t > 0 {
      AtIsAffine(start, stride, t - 1);
    }
  }

  lemma {:induction false} AtMonotone(start: nat, stride: nat, t: nat, j: nat)
    requires stride >= 1 && t < j
    ensures At(start, stride, t) < At(start, stride, j)
    decreases j
  {
    if t < j - 1 {
      AtMonotone(start, stride, t, j - 1);
    }
  }

  /** The n entries of s on the line that starts at start and steps by stride. */
  function Line(s: seq<real>, start: nat, stride: nat, n: nat): (l: seq<real>)
    requires stride >= 1
    requires n == 0 || At(start, stride, n - 1) < |s|
    ensures |l| == n
  {
    if n == 0 then []
    else
      assert n - 1 == 0 || At(start, stride, n - 2) < At(start, stride, n - 1) by {
        if n > 1 {
          AtMonotone(start, stride, n - 2, n - 1);
        }
      }
      Line(s, start, stride, n - 1) + [s[At(start, stride, n - 1)]]
  }

  lemma {:induction false} LineAt(s: seq<real>, start: nat, stride: nat, n: nat, t: nat)
    requires stride >= 1 && t < n && At(start, stride, n - 1) < |s|
    ensures At(start, stride, t) < |s| && Line(s, start, stride, n)[t] == s[At(start, stride, t)]
    decreases n
  {
    if t < n - 1 {
      AtMonotone(start, stride, t, n - 1);
      AtMonotone(start, stride, n - 2, n - 1);
      LineAt(s, start, stride, n - 1, t);
    }
  }

  /** d with out[t] written at entry t of the line, for every t. */
  function Overlay(d: seq<real>, start: nat, stride: nat, out: seq<real>): (e: seq<real>)
    requires stride >= 1
    requires out == [] || At(start, stride, |out| - 1) < |d|
    ensures |e| == |d|
    decreases |out|
  {
    if out == [] then d
    else
      var k := |out| - 1;
      assert k == 0 || At(start, stride, k - 1) < At(start, stride, k) by {
        if k > 0 {
          AtMonotone(start, stride, k - 1, k);
        }
      }
      Overlay(d, start, stride, out[..k])[At(start, stride, k) := out[k]]
  }

  lemma {:induction false} OverlayOnLine(d: seq<real>, start: nat, stride: nat, out: seq<real>, t: nat)
    requires stride >= 1 && t < |out| && At(start, stride, |out| - 1) < |d|
    ensures At(start, stride, t) < |d| && Overlay(d, start, stride, out)[At(start, stride, t)] == out[t]
    decreases |out|
  {
    var k := |out| - 1;
    if t < k {
      AtMonotone(start, stride, t, k);
      AtMonotone(start, stride, k - 1, k);
      OverlayOnLine(d, start, stride, out[..k], t);
    }
  }

  lemma {:induction false} OverlayOffLine(d: seq<real>, start: nat, stride: nat, out: seq<real>, i: int)
    requires stride >= 1 && (out == [] || At(start, stride, |out| - 1) < |d|)
    requires 0 <= i < |d| && forall t :: 0 <= t < |out| ==> At(start, stride, t) != i
    ensures Overlay(d, start, stride, out)[i] == d[i]
    decreases |out|
  {
    if out != [] {
      var k := |out| - 1;
      if k > 0 {
        AtMonotone(start, stride, k - 1, k);
      }
      OverlayOffLine(d, start, stride, out[..k], i);
    }
  }

  // ------------------------------------------- one pass over one line, in place

  /** The state a line pass keeps between its phases. */
  ghost predicate Pass(src: seq<real>, dest: array<real>, start: nat, stride: nat, n: nat, r: nat,
                       fb: bool, line: seq<real>, d0: seq<real>, j: nat, out: seq<real>, val: real)
    reads dest
  {
    |src| == dest.Length && |d0| == dest.Length &&
    stride >= 1 && n >= 2 * r + 1 && At(start, stride, n - 1) < dest.Length &&
    line == Line(src, start, stride, n) && j <= n &&
    (out, val) == Run(line, r, fb, j) && (j == 0 || At(start, stride, j - 1) < |d0|) &&
    dest[..] == Overlay(d0, start, stride, out)
  }

  method InitialSum(src: seq<real>, start: nat, stride: nat, n: nat, r: nat, ghost line: seq<real>)
    returns (val: real)
    requires stride >= 1 && n >= 2 * r + 1 && At(start, stride, n - 1) < |src|
    requires line == Line(src, start, stride, n)
    ensures val == Init(line, r)
  {
    LineAt(src, start, stride, n, 0);
    var fv := src[start];
    val := (r + 1) as real * fv;
    var ti := start;
    for j := 0 to r
      invariant ti == At(start, stride, j)
      invariant val == (r + 1) as real * fv + Sum(line[..j])
    {
      LineAt(src, start, stride, n, j);
      assert line[..j + 1][..j] == line[..j];
      val := val + src[ti];
      ti := ti + stride;
    }
  }

  /** Writes x at entry |out| of the line: the next output of a pass. */
  method Store(dest: array<real>, start: nat, stride: nat, ti: nat, x: real, ghost d0: seq<real>, ghost out: seq<real>)
    requires stride >= 1 && ti == At(start, stride, |out|) && ti < dest.Length && |d0| == dest.Length
    requires out == [] || At(start, stride, |out| - 1) < |d0|
    requires dest[..] == Overlay(d0, start, stride, out)
    modifies dest
    ensures dest[..] == Overlay(d0, start, stride, out + [x])
  {
    OverlaySnoc(d0, start, stride, out, x);
    dest[ti] := x;
  }

  method EnterOne(src: seq<real>, dest: array<real>, start: nat, stride: nat, n: nat, r: nat,
                  fb: bool, ghost line: seq<real>, ghost d0: seq<real>, j: nat, ti: nat, ri: nat, fv: real,
                  val0: real, ghost out0: seq<real>)
    returns (val: real, ghost out: seq<real>)
    requires Pass(src, dest, start, stride, n, r, fb, line, d0, j, out0, val0)
    requires j <= r && ti == At(start, stride, j) && ri == At(start, stride, j + r)
    requires start < |src| && fv == src[start]
    modifies dest
    ensures Pass(src, dest, start, stride, n, r, fb, line, d0, j + 1, out, val)
  {
    LineAt(src, start, stride, n, 0);
    LineAt(src, start, stride, n, j + r);
    LineAt(src, start, stride, n, j);
    EnterStep(line, r, fb, j, out0, val0);
    val := val0 + (src[ri] - fv);
    Store(dest, start, stride, ti, Scaled(val, r), d0, out0);
    out := out0 + [Scaled(val, r)];
  }

  method EnterWindow(src: seq<real>, dest: array<real>, start: nat, stride: nat, n: nat, r: nat,
                     fb: bool, ghost line: seq<real>, ghost d0: seq<real>, val0: real)
    returns (val: real, ghost out: seq<real>)
    requires Pass(src, dest, start, stride, n, r, fb, line, d0, 0, [], val0)
    modifies dest
    ensures Pass(src, dest, start, stride, n, r, fb, line, d0, r + 1, out, val)
  {
    LineAt(src, start, stride, n, 0);
    var fv := src[start];
    var j := 0;
    var ti := At(start, stride, j);
    var ri := At(start, stride, j + r);
    val, out := val0, [];
    while j <= r
      invariant j <= r + 1
      invariant ti == At(start, stride, j) && ri == At(start, stride, j + r)
      invariant Pass(src, dest, start, stride, n, r, fb, line, d0, j, out, val)
    {
      val, out := EnterOne(src, dest, start, stride, n, r, fb, line, d0, j, ti, ri, fv, val, out);
      AtAdvance(start, stride, j, r);
      j := j + 1;
      ri := ri + stride;
      ti := ti + stride;
    }
  }

  method SlideOne(src: seq<real>, dest: array<real>, start: nat, stride: nat, n: nat, r: nat,
                  fb: bool, ghost line: seq<real>, ghost d0: seq<real>, j: nat, ti: nat, ri: nat, li: nat,
                  val0: real, ghost out0: seq<real>)
    returns (val: real, ghost out: seq<real>)
    requires r < j < n - r && ti == At(start, stride, j) && ri == At(start, stride, j + r) && li == At(start, stride, j - r - 1)
    requires Pass(src, dest, start, stride, n, r, fb, line, d0, j, out0, val0)
    modifies dest
    ensures Pass(src, dest, start, stride, n, r, fb, line, d0, j + 1, out, val)
  {
    LineAt(src, start, stride, n, j + r);
    LineAt(src, start, stride, n, j);
    var leaving := Leaving(src, dest, start, stride, n, r, fb, line, d0, j, li, out0, val0);
    SlideStep(line, r, fb, j, out0, val0, leaving);
    val := val0 + (src[ri] - leaving);
    Store(dest, start, stride, ti, Scaled(val, r), d0, out0);
    out := out0 + [Scaled(val, r)];
  }

  /** The entry leaving the window: the one already written to dest when
      the pass feeds back, else the one in src. */
  method Leaving(src: seq<real>, dest: array<real>, start: nat, stride: nat, n: nat, r: nat,
                 fb: bool, ghost line: seq<real>, ghost d0: seq<real>, j: nat, li: nat,
                 ghost out0: seq<real>, ghost val0: real)
    returns (leaving: real)
    requires r < j < n - r && li == At(start, stride, j - r - 1)
    requires Pass(src, dest, start, stride, n, r, fb, line, d0, j, out0, val0)
    ensures leaving == if fb then out0[j - r - 1] else line[j - r - 1]
  {
    LineAt(src, start, stride, n, j - r - 1);
    OverlayOnLine(d0, start, stride, out0, j - r - 1);
    leaving := if fb then dest[li] else src[li];
  }

  method SlideWindow(src: seq<real>, dest: array<real>, start: nat, stride: nat, n: nat, r: nat,
                     fb: bool, ghost line: seq<real>, ghost d0: seq<real>, val0: real, ghost out0: seq<real>)
    returns (val: real, ghost out: seq<real>)
    requires Pass(src, dest, start, stride, n, r, fb, line, d0, r + 1, out0, val0)
    modifies dest
    ensures n >= 2 * r + 1 && Pass(src, dest, start, stride, n, r, fb, line, d0, n - r, out, val)
  {
    var j := r + 1;
    var ti := At(start, stride, j);
    var ri := At(start, stride, j + r);
    var li := At(start, stride, 0);
    val, out := val0, out0;
    while j < n - r
      invariant r + 1 <= j <= n - r
      invariant ti == At(start, stride, j) && ri == At(start, stride, j + r) && li == At(start, stride, j - r - 1)
      invariant Pass(src, dest, start, stride, n, r, fb, line, d0, j, out, val)
    {
      val, out := SlideOne(src, dest, start, stride, n, r, fb, line, d0, j, ti, ri, li, val, out);
      AtNext(start, stride, j);
      AtNext(start, stride, j + r);
      AtNext(start, stride, j - r - 1);
      j := j + 1;
      li := li + stride;
      ri := ri + stride;
      ti := ti + stride;
    }
  }

  method LeaveOne(src: seq<real>, dest: array<real>, start: nat, stride: nat, n: nat, r: nat,
                  fb: bool, ghost line: seq<real>, ghost d0: seq<real>, j: nat, ti: nat, li: nat, lv: real,
                  val0: real, ghost out0: seq<real>)
    returns (val: real, ghost out: seq<real>)
    requires n >= 2 * r + 1 && n - r <= j < n
    requires Pass(src, dest, start, stride, n, r, fb, line, d0, j, out0, val0)
    requires ti == At(start, stride, j) && li == At(start, stride, j - r - 1) && lv == line[n - 1]
    modifies dest
    ensures Pass(src, dest, start, stride, n, r, fb, line, d0, j + 1, out, val)
  {
    LineAt(src, start, stride, n, j - r - 1);
    LineAt(src, start, stride, n, j);
    LeaveStep(line, r, fb, j, out0, val0);
    val := val0 + (lv - src[li]);
    Store(dest, start, stride, ti, Scaled(val, r), d0, out0);
    out := out0 + [Scaled(val, r)];
  }

  method LeaveWindow(src: seq<real>, dest: array<real>, start: nat, stride: nat, n: nat, r: nat,
                     fb: bool, ghost line: seq<real>, ghost d0: seq<real>, val0: real, ghost out0: seq<real>)
    returns (val: real, ghost out: seq<real>)
    requires n >= 2 * r + 1 && Pass(src, dest, start, stride, n, r, fb, line, d0, n - r, out0, val0)
    modifies dest
    ensures Pass(src, dest, start, stride, n, r, fb, line, d0, n, out, val)
  {
    LineAt(src, start, stride, n, n - 1);
    var j := n - r;
    var ti := At(start, stride, j);
    var li := At(start, stride, j - r - 1);
    var lv := src[At(start, stride, n - 1)];
    val, out := val0, out0;
    while j < n
      invariant n - r <= j <= n
      invariant ti == At(start, stride, j) && li == At(start, stride, j - r - 1)
      invariant Pass(src, dest, start, stride, n, r, fb, line, d0, j, out, val)
    {
      val, out := LeaveOne(src, dest, start, stride, n, r, fb, line, d0, j, ti, li, lv, val, out);
      AtNext(start, stride, j);
      AtNext(start, stride, j - r - 1);
      j := j + 1;
      li := li + stride;
      ti := ti + stride;
    }
  }

  /** One line of boxBlurH_4 (feedback on) or boxBlurT_4 (feedback off):
      the entries of dest on the line become BoxLine of the source line, and
      every other entry of dest is unchanged. */
  method SlideLine(src: seq<real>, dest: array<real>, start: nat, stride: nat, n: nat, r: nat, fb: bool)
    requires |src| == dest.Length
    requires stride >= 1 && n >= 2 * r + 1 && At(start, stride, n - 1) < dest.Length
    modifies dest
    ensures dest[..] == Overlay(old(dest[..]), start, stride, BoxLine(Line(src, start, stride, n), r, fb))
  {
    ghost var line := Line(src, start, stride, n);
    ghost var d0 := dest[..];
    var val := InitialSum(src, start, stride, n, r, line);
    ghost var out: seq<real>;
    val, out := EnterWindow(src, dest, start, stride, n, r, fb, line, d0, val);
    val, out := SlideWindow(src, dest, start, stride, n, r, fb, line, d0, val, out);
    val, out := LeaveWindow(src, dest, start, stride, n, r, fb, line, d0, val, out);
  }
}
