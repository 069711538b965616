/** Integer facts used across the model: powers of two, bitwise or on
    naturals, and the row-major flat index x + y * w. */
module Arith {

  function Pow2(k: nat): (r: nat)
    ensures r >= 1
  {
    if k == 0 then 1 else 2 * Pow2(k - 1)
  }

  lemma {:induction false} Pow2Add(a: nat, b: nat)
    ensures Pow2(a + b) == Pow2(a) * Pow2(b)
    decreases a
  {
    if a > 0 {
      Pow2Add(a - 1, b);
      assert Pow2(a + b) == 2 * Pow2(a - 1 + b);
    }
  }

  lemma {:induction false} Pow2Monotone(a: nat, b: nat)
    requires a <= b
    ensures Pow2(a) <= Pow2(b)
    decreases b - a
  {
    if a < b {
      Pow2Monotone(a, b - 1);
    }
  }

  lemma Pow2Constants()
    ensures Pow2(7) == 128
    ensures Pow2(8) == 256
    ensures Pow2(64) == 0x1_0000_0000_0000_0000
  {
    assert Pow2(1) == 2;
    assert Pow2(2) == 4;
    assert Pow2(3) == 8;
    assert Pow2(4) == 16;
    assert Pow2(5) == 32;
    assert Pow2(6) == 64;
    assert Pow2(7) == 128;
    assert Pow2(8) == 256;
    Pow2Add(8, 8);
    assert Pow2(16) == 0x1_0000;
    Pow2Add(16, 16);
    assert Pow2(32) == 0x1_0000_0000;
    Pow2Add(32, 32);
    assert Pow2(64) == 0x1_0000_0000 * 0x1_0000_0000;
  }

  /** Bitwise or of two naturals, one binary digit at a time. */
  function BitOr(a: nat, b: nat): nat
    decreases a + b
  {
    if a == 0 then b
    else if b == 0 then a
    else 2 * BitOr(a / 2, b / 2) + (if a % 2 == 1 || b % 2 == 1 then 1 else 0)
  }

  /** Or-ing a value below 2^k into a multiple of 2^k is addition. */
  lemma {:induction false} BitOrDisjoint(a: nat, b: nat, k: nat)
    requires a < Pow2(k)
    requires b % Pow2(k) == 0
    ensures BitOr(a, b) == a + b
    decreases k
  {
    if a != 0 && b != 0 {
      var p := Pow2(k - 1);
      var q := b / Pow2(k);
      assert b == Pow2(k) * q;
      assert b == 2 * (p * q);
      HalfOfDouble(p * q);
      assert b / 2 == p * q && b % 2 == 0;
      MulMod(q, p);
      BitOrDisjoint(a / 2, b / 2, k - 1);
    }
  }

  lemma HalfOfDouble(m: nat)
    ensures (2 * m) / 2 == m && (2 * m) % 2 == 0
  {
  }

  lemma MulMod(q: nat, p: nat)
    requires p > 0
    ensures (p * q) % p == 0
  {
    DivModUnique(p * q, p, q, 0);
  }

  /** Or-ing two values below 2^k stays below 2^k. */
  lemma {:induction false} BitOrBelow(a: nat, b: nat, k: nat)
    requires a < Pow2(k) && b < Pow2(k)
    ensures BitOr(a, b) < Pow2(k)
    decreases k
  {
    if a != 0 && b != 0 {
      BitOrBelow(a / 2, b / 2, k - 1);
    }
  }

  /** The flat index of (x, y) in a w-by-h row-major grid lies in the grid
      and gives back x and y. */
  lemma FlatIndex(x: int, y: int, w: int, h: int)
    requires 0 <= x < w && 0 <= y < h
    ensures 0 <= x + y * w < w * h
    ensures (x + y * w) % w == x && (x + y * w) / w == y
  {
    assert y * w <= (h - 1) * w;
    assert (h - 1) * w + w == h * w;
    DivModUnique(x + y * w, w, y, x);
  }

  lemma DivModUnique(n: int, d: int, q: int, r: int)
    requires d > 0 && 0 <= r < d && n == q * d + r
    ensures n / d == q && n % d == r
  {
    var q', r' := n / d, n % d;
    assert n == q' * d + r';
    var e := q' - q;
    assert e * d == r - r' by {
      assert e * d == q' * d - q * d;
    }
    if e > 0 {
      MulAtLeast(e, d);
    } else if e < 0 {
      MulAtLeast(-e, d);
    }
  }

  lemma MulAtLeast(e: int, d: int)
    requires e >= 1 && d >= 0
    ensures e * d >= d
  {
    assert e * d == (e - 1) * d + d;
  }

  /** A non-negative index has a column in 0 .. w - 1 and a non-negative row. */
  lemma DivModNonNegative(k: int, w: int)
    requires w > 0 && k >= 0
    ensures 0 <= k % w < w && k / w >= 0
  {
  }

  /** Every flat index of a w-by-h grid is the flat index of its own column and row. */
  lemma FlatIndexSplit(k: int, w: int, h: int)
    requires w > 0 && 0 <= k < w * h
    ensures 0 <= k % w < w && 0 <= k / w < h
    ensures k == k % w + (k / w) * w
  {
  }

  /** Index k lies before row i of a width-w grid exactly when its row is below i. */
  lemma BeforeRow(k: int, w: int, i: int)
    requires w > 0 && k >= 0 && i >= 0
    ensures k < i * w <==> k / w < i
  {
    var q := k / w;
    assert k == q * w + k % w;
    if q < i {
      assert q * w <= (i - 1) * w;
      assert (i - 1) * w + w == i * w;
    } else {
      assert q * w >= i * w;
    }
  }
}
