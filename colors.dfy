/** The RGBA colour of the picture utilities and the per-pixel colour
    transforms: grayscale from one channel, negation, and the [0,1] clamp
    applied after blurring. Channels are reals; float rounding is not
    modelled. */
module Colors {
  import opened Wrappers

  datatype Color = Color(r: real, g: real, b: real, a: real)

  /** default(Color): transparent black. */
  const Clear := Color(0.0, 0.0, 0.0, 0.0)
  const White := Color(1.0, 1.0, 1.0, 1.0)

  /** The indexer color[i]: 0 is red, 1 green, 2 blue, 3 alpha; any other
      index raises (None). */
  function Channel(c: Color, i: int): (v: Option<real>)
    ensures v.Some? <==> 0 <= i < 4
  {
    if i == 0 then Some(c.r)
    else if i == 1 then Some(c.g)
    else if i == 2 then Some(c.b)
    else if i == 3 then Some(c.a)
    else None
  }

  /** A colour whose four channels are all f. */
  function Gray(f: real): (c: Color)
    ensures c.r == f && c.g == f && c.b == f && c.a == f
  {
    Color(f, f, f, f)
  }

  /** The per-pixel operation of Negation: every channel f becomes 1 - f. */
  function Negate(c: Color): (n: Color)
    ensures n.r + c.r == 1.0 && n.g + c.g == 1.0 && n.b + c.b == 1.0 && n.a + c.a == 1.0
  {
    Color(1.0 - c.r, 1.0 - c.g, 1.0 - c.b, 1.0 - c.a)
  }

  /** The clamp of GaussianBlur: values above 1 become 1, then values below
      0 become 0. */
  function Clamp01(x: real): (y: real)
    ensures 0.0 <= y <= 1.0
    ensures 0.0 <= x <= 1.0 ==> y == x
    ensures x > 1.0 ==> y == 1.0
    ensures x < 0.0 ==> y == 0.0
  {
    if x > 1.0 then 1.0 else if x < 0.0 then 0.0 else x
  }

  /** ClampColor: every channel of the result lies in [0,1]. */
  function ClampColor(c: Color): (d: Color)
    ensures 0.0 <= d.r <= 1.0 && 0.0 <= d.g <= 1.0 && 0.0 <= d.b <= 1.0 && 0.0 <= d.a <= 1.0
    ensures InUnitRange(c) ==> d == c
  {
    Color(Clamp01(c.r), Clamp01(c.g), Clamp01(c.b), Clamp01(c.a))
  }

  predicate InUnitRange(c: Color)
  {
    0.0 <= c.r <= 1.0 && 0.0 <= c.g <= 1.0 && 0.0 <= c.b <= 1.0 && 0.0 <= c.a <= 1.0
  }

  /** Grayscale(pixels, channel): a new array, each pixel the gray of the
      chosen channel of the source pixel. An out-of-range channel raises as
      soon as one pixel is indexed, so only for a non-empty array. */
  method Grayscale(pixels: array<Color>, channel: int) returns (r: Option<array<Color>>)
    ensures r.None? <==> pixels.Length > 0 && !(0 <= channel < 4)
    ensures r.Some? ==> fresh(r.value) && r.value.Length == pixels.Length
    ensures r.Some? ==> forall i :: 0 <= i < pixels.Length ==>
              Channel(pixels[i], channel).Some? && r.value[i] == Gray(Channel(pixels[i], channel).value)
  {
    var length := pixels.Length;
    if length > 0 && !(0 <= channel < 4) {
      return None;
    }
    var dest := new Color[length](_ => Clear);
    for i := 0 to length
      invariant forall k :: 0 <= k < i ==> dest[k] == Gray(Channel(pixels[k], channel).value)
    {
      var f := Channel(pixels[i], channel).value;
      dest[i] := Gray(f);
    }
    return Some(dest);
  }

  /** Negation(pixels): a new array of the negated pixels. */
  method Negation(pixels: array<Color>) returns (result: array<Color>)
    ensures fresh(result) && result.Length == pixels.Length
    ensures forall i :: 0 <= i < pixels.Length ==> result[i] == Negate(pixels[i])
  {
    var length := pixels.Length;
    result := new Color[length](_ => Clear);
    for i := 0 to length
      invariant forall k :: 0 <= k < i ==> result[k] == Negate(pixels[k])
    {
      result[i] := Negate(pixels[i]);
    }
  }

  /** Negating twice gives the original pixels back. */
  method NegationTwice(pixels: array<Color>) returns (result: array<Color>)
    ensures result[..] == pixels[..]
  {
    var once := Negation(pixels);
    result := Negation(once);
    forall i | 0 <= i < pixels.Length
      ensures result[i] == pixels[i]
    {
      NegateInvolutive(pixels[i]);
    }
  }

  lemma NegateInvolutive(c: Color)
    ensures Negate(Negate(c)) == c
  {
  }

  /** A gray pixel stays itself under Grayscale with every channel. */
  lemma GrayIdempotent(f: real, channel: int)
    requires 0 <= channel < 4
    ensures Gray(Channel(Gray(f), channel).value) == Gray(f)
  {
  }

  /** Grayscale on the alpha channel of a fully opaque pixel is white. */
  lemma OpaqueAlphaIsWhite(c: Color)
    requires c.a == 1.0
    ensures Gray(Channel(c, 3).value) == White
  {
  }
}
