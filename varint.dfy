/** The wire format of the byte stream: zig-zag mapping of signed integers,
    the little-endian base-128 varint whose continuation flag is bit 0 of each
    byte, and the cursor-level reader that the stream's Read loop follows. */
module Varint {
  import opened Wrappers
  import opened Arith

  type Byte = b: int | 0 <= b < 0x100

  const TwoTo64: nat := 0x1_0000_0000_0000_0000

  /** C# ulong. */
  type UInt64 = x: int | 0 <= x < 0x1_0000_0000_0000_0000

  // ---------------------------------------------------------------- zig-zag

  /** zigzag_encode for short, int and long: the shift-and-xor with the sign
      extension maps v >= 0 to 2v and v < 0 to -2v - 1, in every width. */
  function ZigZagEncode(v: int): nat
  {
    if v >= 0 then 2 * v else -2 * v - 1
  }

  /** zigzag_decode: (u >> 1) xor -(u & 1). */
  function ZigZagDecode(u: nat): int
  {
    if u % 2 == 0 then u / 2 else -(u / 2) - 1
  }

  lemma ZigZagRoundTrip(v: int)
    ensures ZigZagDecode(ZigZagEncode(v)) == v
  {
  }

  lemma ZigZagOnto(u: nat)
    ensures ZigZagEncode(ZigZagDecode(u)) == u
  {
  }

  /** A value fits the signed type of 'bits' bits exactly when its zig-zag
      code fits the unsigned type of the same width. */
  lemma ZigZagWidth(v: int, bits: nat)
    requires bits >= 1
    ensures -(Pow2(bits - 1) as int) <= v < Pow2(bits - 1) <==> ZigZagEncode(v) < Pow2(bits)
  {
    assert Pow2(bits) == 2 * Pow2(bits - 1);
  }

  /** The truncating cast of a long to a signed type of m = 2^bits values
      ((short) and (int) in C#). */
  function Wrap(x: int, m: nat): (r: int)
    requires m >= 2 && m % 2 == 0
    ensures -(m / 2) <= r < m / 2
  {
    (x + m / 2) % m - m / 2
  }

  lemma WrapInRange(x: int, m: nat)
    requires m >= 2 && m % 2 == 0
    requires -(m / 2) <= x < m / 2
    ensures Wrap(x, m) == x
  {
    DivModUnique(x + m / 2, m, 0, x + m / 2);
  }

  // ---------------------------------------------------------------- varint

  /** The bytes Write(u) emits: least significant 7-bit chunk first, each
      chunk shifted into bits 1..7, bit 0 set on every byte but the last. */
  function VarintBytes(u: nat): (bs: seq<Byte>)
    ensures |bs| >= 1
    decreases u
  {
    if u / 128 == 0 then [(u % 128) * 2]
    else [(u % 128) * 2 + 1] + VarintBytes(u / 128)
  }

  /** Byte k of the encoding of u carries chunk k of u in bits 1..7 and the
      continuation flag in bit 0. */
  lemma {:induction false} VarintLayout(u: nat, k: nat)
    requires k < |VarintBytes(u)|
    ensures VarintBytes(u)[k] / 2 == (u / Pow2(7 * k)) % 128
    ensures VarintBytes(u)[k] % 2 == if k < |VarintBytes(u)| - 1 then 1 else 0
    decreases u
  {
    if k == 0 {
      var bit := if u / 128 == 0 then 0 else 1;
      assert VarintBytes(u)[0] == (u % 128) * 2 + bit;
      DivModUnique(VarintBytes(u)[0], 2, u % 128, bit);
    } else {
      VarintLayout(u / 128, k - 1);
      assert Pow2(7) == 128;
      Pow2Add(7, 7 * (k - 1));
      assert 7 + 7 * (k - 1) == 7 * k;
      DivDiv(u, 128, Pow2(7 * (k - 1)));
    }
  }

  lemma DivDiv(u: nat, a: nat, b: nat)
    requires a > 0 && b > 0
    ensures u / a / b == u / (a * b)
  {
    var q := u / a / b;
    var r := u / a % b;
    var s := u % a;
    assert u / a == q * b + r;
    assert u == (q * b + r) * a + s;
    assert u == q * (a * b) + (r * a + s) by {
      assert (q * b + r) * a == q * (a * b) + r * a;
    }
    assert r * a + s < a * b by {
      assert r * a <= (b - 1) * a;
      assert (b - 1) * a + a == a * b;
    }
    DivModUnique(u, a * b, q, r * a + s);
  }

  /** A value below 2^(7k) takes at most k bytes. */
  lemma {:induction false} VarintLengthBound(u: nat, k: nat)
    requires k >= 1 && u < Pow2(7 * k)
    ensures |VarintBytes(u)| <= k
    decreases k
  {
    Pow2Constants();
    if u / 128 != 0 {
      Pow2Add(7, 7 * (k - 1));
      assert k > 1;
      VarintLengthBound(u / 128, k - 1);
    }
  }

  /** Every 64-bit value takes at most ten bytes. */
  lemma VarintAtMostTen(u: UInt64)
    ensures |VarintBytes(u)| <= 10
  {
    Pow2Constants();
    Pow2Monotone(64, 70);
    VarintLengthBound(u, 10);
  }

  /** The Read loop from byte offset pos, at chunk number i, with the value
      accumulated so far: one byte per step, or-ing (byte >> 1) << (7i) into
      a 64-bit result (the shift count is taken mod 64 and the shifted chunk
      truncated to 64 bits, as for ulong), stopping after the first byte
      whose bit 0 is clear. Reading at or past the end of the buffer fails
      after the cursor has already been bumped. Returns the value (or None)
      and the cursor afterwards. */
  function ReadFrom(s: seq<Byte>, pos: nat, i: nat, acc: UInt64): (Option<UInt64>, nat)
    decreases |s| - pos
  {
    if pos >= |s| then (None, pos + 1)
    else
      var value := s[pos];
      var acc' := Or64(acc, (value / 2 * Pow2((7 * i) % 64)) % TwoTo64);
      if value % 2 == 0 then (Some(acc'), pos + 1)
      else ReadFrom(s, pos + 1, i + 1, acc')
  }

  /** ulong |. */
  function Or64(a: UInt64, b: UInt64): UInt64
  {
    Pow2Constants();
    BitOrBelow(a, b, 64);
    BitOr(a, b)
  }

  /** Read() from the cursor: the loop above from chunk 0 with result 0. */
  function ReadVarint(s: seq<Byte>, pos: nat): (Option<UInt64>, nat)
  {
    ReadFrom(s, pos, 0, 0)
  }

  /** One step of the Read loop on chunk c of a value that still fits:
      the or is an addition and the shift is neither masked nor truncated. */
  lemma ChunkStep(acc: UInt64, i: nat, c: nat, w: nat)
    requires c <= w && c < 128
    requires acc < Pow2(7 * i)
    requires acc + w * Pow2(7 * i) < TwoTo64
    ensures Or64(acc, (c * Pow2((7 * i) % 64)) % TwoTo64) == acc + c * Pow2(7 * i)
  {
    var p := Pow2(7 * i);
    if c == 0 {
      assert c * Pow2((7 * i) % 64) == 0;
      assert Or64(acc, 0) == acc;
    } else {
      ChunkInRange(acc, i, c, w);
      var cp := c * p;
      DivModUnique(7 * i, 64, 0, 7 * i);
      DivModUnique(cp, TwoTo64, 0, cp);
      assert (c * Pow2((7 * i) % 64)) % TwoTo64 == cp;
      MulMod(c, p);
      assert cp % p == 0 by { assert cp == p * c; }
      BitOrDisjoint(acc, cp, 7 * i);
    }
  }

  /** A nonzero chunk of a value that still fits sits below bit 64, so its
      shift count is not masked. */
  lemma ChunkInRange(acc: nat, i: nat, c: nat, w: nat)
    requires 1 <= c <= w
    requires acc + w * Pow2(7 * i) < TwoTo64
    ensures 7 * i < 64 && c * Pow2(7 * i) < TwoTo64
  {
    var p := Pow2(7 * i);
    MulLe(1, w, p);
    MulLe(c, w, p);
    if 7 * i >= 64 {
      Pow2Constants();
      Pow2Monotone(64, 7 * i);
    }
  }

  lemma MulLe(a: nat, b: nat, c: nat)
    requires a <= b
    ensures a * c <= b * c
  {
    assert b * c == a * c + (b - a) * c;
  }

  /** The accumulator after chunk c keeps the invariant of the next step. */
  lemma ChunkAccumulate(acc: nat, p: nat, w: nat)
    requires acc < p
    ensures acc + (w % 128) * p < p * 128
    ensures acc + (w % 128) * p + (w / 128) * (p * 128) == acc + w * p
  {
    var q, r := w / 128, w % 128;
    MulLe(r, 127, p);
    assert w == q * 128 + r;
    assert w * p == (q * 128 + r) * p;
    assert (q * 128 + r) * p == q * (p * 128) + r * p;
  }

  /** Reading the encoding of the remaining value w, with acc holding the
      chunks already read, yields acc + w * 2^(7i) and stops just past. */
  lemma {:induction false} ReadFromEncoding(s: seq<Byte>, pos: nat, i: nat, acc: UInt64, w: nat)
    requires pos + |VarintBytes(w)| <= |s|
    requires s[pos .. pos + |VarintBytes(w)|] == VarintBytes(w)
    requires acc < Pow2(7 * i)
    requires acc + w * Pow2(7 * i) < TwoTo64
    ensures ReadFrom(s, pos, i, acc) == (Some(acc + w * Pow2(7 * i)), pos + |VarintBytes(w)|)
    decreases w
  {
    var p := Pow2(7 * i);
    var c := w % 128;
    var enc := VarintBytes(w);
    var value := s[pos];
    assert value == enc[0];
    assert value / 2 == c;
    ChunkStep(acc, i, c, w);
    var term := (value / 2 * Pow2((7 * i) % 64)) % TwoTo64;
    var acc' := acc + c * p;
    assert Or64(acc, term) == acc';
    if w / 128 == 0 {
      assert w == c;
      assert value % 2 == 0;
      assert |enc| == 1;
    } else {
      assert value % 2 == 1;
      NextChunk(acc, i, w);
      EncodingTail(s, pos, w);
      ReadFromEncoding(s, pos + 1, i + 1, acc', w / 128);
      assert ReadFrom(s, pos, i, acc) == ReadFrom(s, pos + 1, i + 1, acc');
    }
  }

  /** The accumulator after chunk w % 128 still fits the next step. */
  lemma NextChunk(acc: nat, i: nat, w: nat)
    requires acc < Pow2(7 * i)
    ensures acc + (w % 128) * Pow2(7 * i) < Pow2(7 * (i + 1))
    ensures acc + (w % 128) * Pow2(7 * i) + (w / 128) * Pow2(7 * (i + 1)) == acc + w * Pow2(7 * i)
  {
    Pow2Constants();
    Pow2Add(7 * i, 7);
    assert Pow2(7 * (i + 1)) == Pow2(7 * i) * 128;
    ChunkAccumulate(acc, Pow2(7 * i), w);
  }

  /** The encoding of w with more than one chunk: the rest of it, from the
      second byte, is the encoding of w / 128. */
  lemma EncodingTail(s: seq<Byte>, pos: nat, w: nat)
    requires w / 128 != 0
    requires pos + |VarintBytes(w)| <= |s| && s[pos .. pos + |VarintBytes(w)|] == VarintBytes(w)
    ensures pos + 1 + |VarintBytes(w / 128)| <= |s|
    ensures s[pos + 1 .. pos + 1 + |VarintBytes(w / 128)|] == VarintBytes(w / 128)
  {
    var enc, rest := VarintBytes(w), VarintBytes(w / 128);
    assert enc == [enc[0]] + rest;
    assert s[pos + 1 .. pos + 1 + |rest|] == enc[1..];
  }

  /** Varint round trip: the bytes Write(u) emits, read back by Read() from
      their first byte, give u, and the cursor ends just past the last one. */
  lemma VarintRoundTrip(s: seq<Byte>, pos: nat, u: UInt64)
    requires pos + |VarintBytes(u)| <= |s|
    requires s[pos .. pos + |VarintBytes(u)|] == VarintBytes(u)
    ensures ReadVarint(s, pos) == (Some(u), pos + |VarintBytes(u)|)
  {
    ReadFromEncoding(s, pos, 0, 0, u);
  }
}
