/** The texture size rounding and the per-cell drawing pass of the tilemap
    baker: each cell of the map draws its sprite, centred, into a
    pixelsPerCellHorizontal x pixelsPerCellVertical block of the output
    picture, blended over what is there. */
module Tilemap {
  import opened Wrappers
  import opened Colors

  // ------------------------------------------- LargerPowerOf2

  /** The C# int >> on a 32-bit pattern: an arithmetic shift that copies the
      sign bit. */
  function ShiftRight(x: bv32, k: bv32): (r: bv32)
    requires k < 32
    ensures x & 0x8000_0000 == 0 ==> r == x >> k
  {
    if x & 0x8000_0000 == 0 then x >> k else !((!x) >> k)
  }

  /** LargerPowerOf2(num): the bits below the highest set bit are smeared
      into ones and one is added. For 0 <= num < 2^30 the result is the
      smallest power of two above num; from 2^30 it wraps to int.MinValue
      and for a negative num it is 0. */
  function LargerPowerOf2(num: bv32): (r: bv32)
    ensures num < 0x4000_0000 ==> r & (r - 1) == 0 && r != 0 && r > num
    ensures 1 <= num < 0x4000_0000 ==> r <= 2 * num
    ensures num == 0 ==> r == 1
    ensures 0x4000_0000 <= num < 0x8000_0000 ==> r == 0x8000_0000
    ensures num >= 0x8000_0000 ==> r == 0
  {
    var n1 := num | ShiftRight(num, 1);
    var n2 := n1 | ShiftRight(n1, 2);
    var n4 := n2 | ShiftRight(n2, 4);
    var n8 := n4 | ShiftRight(n4, 8);
    var n16 := n8 | ShiftRight(n8, 16);
    n16 + 1
  }

  /** Exact powers are doubled; anything else rounds up. */
  lemma LargerPowerOf2Examples()
    ensures LargerPowerOf2(1024) == 2048
    ensures LargerPowerOf2(1000) == 1024
    ensures LargerPowerOf2(1) == 2
  {
  }

  // ------------------------------------------- the per-cell pass

  /** What one cell draws: the tile's pixels and where they sit.
      colors is GetPixels of the tile texture. When shrunk is false, the
      tile is the sprite's rectangle (rectX, rectY, width, height), and
      stride is the width of the sprite's atlas texture. colors is then
      either that atlas itself or, when the sprite's pixels per unit differ
      from the map's, the atlas rescaled by ShrinkImage; the reads still
      use atlas coordinates and the atlas stride. When shrunk is true, the
      tile texture is the shrunk sprite itself. cellWidth and cellHeight
      are the pixels per cell, already rounded up. */
  datatype Tile = Tile(colors: seq<Color>, stride: int, width: int, height: int, shrunk: bool,
                       rectX: int, rectY: int, cellWidth: int, cellHeight: int)

  /** A tile's sizes are never negative, and a shrunk sprite's texture is
      exactly width x height pixels. */
  predicate WellFormed(t: Tile)
  {
    t.width >= 0 && t.height >= 0 &&
    (t.shrunk ==> t.stride == t.width && |t.colors| == t.width * t.height)
  }

  /** The sprite rectangle lies inside the colours, read with the stride:
      what an unscaled atlas gives. */
  predicate InsideAtlas(t: Tile)
  {
    0 <= t.rectX && t.rectX + t.width <= t.stride && 0 <= t.rectY &&
    (t.rectY + t.height) * t.stride <= |t.colors|
  }

  function Abs(x: real): real
  {
    if x < 0.0 then -x else x
  }

  /** Cell pixel (px, py) lies on the tile: its distance from the cell's
      centre is within half the tile on both axes, and the tile coordinate
      tileCen - diff it maps to is inside the tile. */
  predicate OnTile(t: Tile, px: int, py: int)
  {
    var diffX := t.cellWidth as real * 0.5 - px as real;
    var diffY := t.cellHeight as real * 0.5 - py as real;
    var cellPx := t.width as real * 0.5 - diffX;
    var cellPy := t.height as real * 0.5 - diffY;
    Abs(diffX) <= t.width as real * 0.5 && Abs(diffY) <= t.height as real * 0.5 &&
    0.0 <= cellPx < t.width as real && 0.0 <= cellPy < t.height as real
  }

  /** The tile column and row cell pixel (px, py) reads: the truncated tile
      coordinate. */
  function TileX(t: Tile, px: int): int
  {
    (t.width as real * 0.5 - (t.cellWidth as real * 0.5 - px as real)).Floor
  }

  function TileY(t: Tile, py: int): int
  {
    (t.height as real * 0.5 - (t.cellHeight as real * 0.5 - py as real)).Floor
  }

  /** The index of the tile colour read for cell pixel (px, py): in atlas
      coordinates with the atlas stride, or inside the shrunk texture. */
  function ReadIndex(t: Tile, px: int, py: int): int
  {
    var sx, sy := TileX(t, px), TileY(t, py);
    if t.shrunk then sx + sy * t.width else (sx + t.rectX) + (sy + t.rectY) * t.stride
  }

  /** A read on a shrunk sprite, or on a rectangle inside its colours, lies
      in the tile's colours. */
  lemma ReadInRange(t: Tile, px: int, py: int)
    requires WellFormed(t) && OnTile(t, px, py) && (t.shrunk || InsideAtlas(t))
    ensures 0 <= TileX(t, px) < t.width && 0 <= TileY(t, py) < t.height
    ensures 0 <= ReadIndex(t, px, py) < |t.colors|
  {
    var cellPx := t.width as real * 0.5 - (t.cellWidth as real * 0.5 - px as real);
    var cellPy := t.height as real * 0.5 - (t.cellHeight as real * 0.5 - py as real);
    FloorBelow(cellPx, t.width);
    FloorBelow(cellPy, t.height);
    var sx, sy := TileX(t, px), TileY(t, py);
    if t.shrunk {
      GridIndex(sx, sy, t.width, t.height, t.width, |t.colors|);
    } else {
      GridIndex(sx + t.rectX, sy + t.rectY, t.stride, t.rectY + t.height, t.stride, |t.colors|);
    }
  }

  lemma FloorBelow(x: real, n: int)
    requires 0.0 <= x < n as real
    ensures 0 <= x.Floor < n
  {
  }

  /** Column x below w and row y below h of a grid with that stride stay
      below h * stride. */
  lemma GridIndex(x: int, y: int, w: int, h: int, stride: int, len: int)
    requires 0 <= x < w <= stride && 0 <= y < h && h * stride <= len
    ensures 0 <= x + y * stride < len
  {
    assert y * stride <= (h - 1) * stride;
    assert (h - 1) * stride + stride == h * stride;
  }

  /** The colour drawn at cell pixel (px, py): the default colour off the
      tile; on it, the tile's colour with any positive alpha raised to 1.
      None is the IndexOutOfRangeException of a read outside the colours. */
  function Sample(t: Tile, px: int, py: int): (r: Option<Color>)
    ensures r.None? <==> OnTile(t, px, py) && !(0 <= ReadIndex(t, px, py) < |t.colors|)
    ensures !OnTile(t, px, py) ==> r == Some(Clear)
    ensures r.Some? && r.value.a > 0.0 ==> r.value.a == 1.0
    ensures r.Some? && OnTile(t, px, py) ==>
              var pixel := t.colors[ReadIndex(t, px, py)];
              var c := r.value;
              c.r == pixel.r && c.g == pixel.g && c.b == pixel.b &&
              (pixel.a > 0.0 ==> c.a == 1.0) && (pixel.a <= 0.0 ==> c.a == pixel.a)
  {
    if !OnTile(t, px, py) then Some(Clear)
    else
      var index := ReadIndex(t, px, py);
      if 0 <= index < |t.colors| then
        var pixel := t.colors[index];
        Some(if pixel.a > 0.0 then pixel.(a := 1.0) else pixel)
      else None
  }

  /** A sprite whose pixels per unit differ from the map's: a 256 x 256
      atlas rescaled by one half to 128 x 128 colours, and the sprite
      rectangle (128, 128, 128, 128) still read in atlas coordinates. Cell
      pixel (127, 127) lies on the tile and reads index 255 + 255 * 256,
      past the 16384 colours. */
  lemma RescaledAtlasReadsOutOfRange(colors: seq<Color>)
    requires |colors| == 128 * 128
    ensures var t := Tile(colors, 256, 128, 128, false, 128, 128, 128, 128);
            WellFormed(t) && OnTile(t, 127, 127) && ReadIndex(t, 127, 127) == 255 + 255 * 256 &&
            Sample(t, 127, 127) == None
  {
    var t := Tile(colors, 256, 128, 128, false, 128, 128, 128, 128);
    assert TileX(t, 127) == 127 && TileY(t, 127) == 127;
  }

  /** alpha * pixel + (1 - alpha) * col, channel by channel. */
  function Blend(pixel: Color, col: Color): (b: Color)
    ensures pixel.a == 1.0 ==> b == pixel
    ensures pixel.a == 0.0 ==> b == col
  {
    var alpha := pixel.a;
    Color(alpha * pixel.r + (1.0 - alpha) * col.r,
          alpha * pixel.g + (1.0 - alpha) * col.g,
          alpha * pixel.b + (1.0 - alpha) * col.b,
          alpha * pixel.a + (1.0 - alpha) * col.a)
  }

  /** Mathf.Max(0, offset). */
  function ClampOffset(offset: int): (o: nat)
    ensures o >= offset && (offset >= 0 ==> o == offset)
  {
    if offset < 0 then 0 else offset
  }

  /** The output index of cell pixel (px, py); there is no per-column check,
      so a column past the right edge lands in the next row. */
  function Target(imageWidth: int, offX: nat, offY: nat, px: int, py: int): int
  {
    (px + offX) + (py + offY) * imageWidth
  }

  /** Whether the index lies where the array write would fail: inside the
      guard `0 <= index < numPixels` but past the end of the array. */
  predicate OutOfArray(size: int, numPixels: int, index: int)
  {
    size <= index < numPixels
  }

  /** Whether the step at (px, py) goes through: its read succeeds and its
      write, if the guard lets it through, lies in the array. */
  predicate Drawable(t: Tile, imageWidth: int, numPixels: int, size: int, offX: nat, offY: nat, px: int, py: int)
  {
    Sample(t, px, py).Some? && !OutOfArray(size, numPixels, Target(imageWidth, offX, offY, px, py))
  }

  /** One step of the pass: the sample is read first, and a failed read
      ends the pass (None); otherwise, when the target index passes the
      guard against numPixels (the pixel count imageWidth * imageHeight of
      the caller), its blend over the picture is stored there, and a target
      past the end of the array raises (None). GenerateTexture's array
      holds numPixels pixels; Write2TargetPixels' array is its caller's. */
  function Step(canvas: seq<Color>, t: Tile, imageWidth: int, numPixels: int, offX: nat, offY: nat, px: int, py: int): (r: Option<seq<Color>>)
    ensures r.None? <==> !Drawable(t, imageWidth, numPixels, |canvas|, offX, offY, px, py)
    ensures r.Some? ==> |r.value| == |canvas|
    ensures r.Some? ==> forall i :: 0 <= i < |canvas| && i != Target(imageWidth, offX, offY, px, py) ==> r.value[i] == canvas[i]
    ensures r.Some? && !(0 <= Target(imageWidth, offX, offY, px, py) < numPixels) ==> r.value == canvas
  {
    var pixel := Sample(t, px, py);
    if pixel.None? then None
    else
      var index := Target(imageWidth, offX, offY, px, py);
      if !(0 <= index < numPixels) then Some(canvas)
      else if index < |canvas| then Some(canvas[index := Blend(pixel.value, canvas[index])])
      else None
  }

  /** Rows 0 .. py - 1 of column px, in order, stopping at a failed read. */
  function ColumnPass(canvas: seq<Color>, t: Tile, imageWidth: int, numPixels: int, offX: nat, offY: nat, px: int, py: int): (r: Option<seq<Color>>)
    requires py >= 0
    ensures r.Some? ==> |r.value| == |canvas|
    decreases py
  {
    if py == 0 then Some(canvas)
    else
      var before := ColumnPass(canvas, t, imageWidth, numPixels, offX, offY, px, py - 1);
      if before.None? then None else Step(before.value, t, imageWidth, numPixels, offX, offY, px, py - 1)
  }

  /** The row count of the inner loop: pixelsPerCellVertical, none when it
      is not positive. */
  function Rows(t: Tile): nat
  {
    if t.cellHeight < 0 then 0 else t.cellHeight
  }

  /** Columns 0 .. px - 1 of the cell, each through all its rows, stopping
      at a failed read. */
  function CellPass(canvas: seq<Color>, t: Tile, imageWidth: int, numPixels: int, offX: nat, offY: nat, px: int): (r: Option<seq<Color>>)
    requires px >= 0
    ensures r.Some? ==> |r.value| == |canvas|
    decreases px
  {
    if px == 0 then Some(canvas)
    else
      var before := CellPass(canvas, t, imageWidth, numPixels, offX, offY, px - 1);
      if before.None? then None else ColumnPass(before.value, t, imageWidth, numPixels, offX, offY, px - 1, Rows(t))
  }

  /** The two nested Parallel.For loops of one cell, in sequence: column by
      column, row by row, the sample of each cell pixel blended over the
      output at its target index, with the offsets clamped to 0. The same
      loop runs in GenerateTexture, over an array of numPixels pixels, and in
      Write2TargetPixels, over the caller's array. ok is false when a read
      or a write raised; the exception leaves the method, so the picture is
      then left unstated. */
  method DrawCell(result: array<Color>, imageWidth: int, numPixels: int, t: Tile, pxOffset: int, pyOffset: int)
    returns (ok: bool)
    modifies result
    ensures ok == CellPass(old(result[..]), t, imageWidth, numPixels, ClampOffset(pxOffset), ClampOffset(pyOffset),
                           if t.cellWidth < 0 then 0 else t.cellWidth).Some?
    ensures ok ==> result[..] == CellPass(old(result[..]), t, imageWidth, numPixels, ClampOffset(pxOffset), ClampOffset(pyOffset),
                                          if t.cellWidth < 0 then 0 else t.cellWidth).value
  {
    var offX := ClampOffset(pxOffset);
    var offY := ClampOffset(pyOffset);
    ghost var canvas := result[..];
    var columns := if t.cellWidth < 0 then 0 else t.cellWidth;
    for px := 0 to columns
      invariant CellPass(canvas, t, imageWidth, numPixels, offX, offY, px) == Some(result[..])
    {
      var done := DrawColumn(result, imageWidth, numPixels, t, offX, offY, px);
      if !done {
        CellPassFails(canvas, t, imageWidth, numPixels, offX, offY, px + 1, columns);
        return false;
      }
    }
    ok := true;
  }

  /** The inner Parallel.For of DrawCell, in sequence: every row of column
      px, stopping at the first read or write that raises. */
  method DrawColumn(result: array<Color>, imageWidth: int, numPixels: int, t: Tile, offX: nat, offY: nat, px: int)
    returns (ok: bool)
    modifies result
    ensures ok == ColumnPass(old(result[..]), t, imageWidth, numPixels, offX, offY, px, Rows(t)).Some?
    ensures ok ==> result[..] == ColumnPass(old(result[..]), t, imageWidth, numPixels, offX, offY, px, Rows(t)).value
  {
    ghost var before := result[..];
    var rows := if t.cellHeight < 0 then 0 else t.cellHeight;
    for py := 0 to rows
      invariant ColumnPass(before, t, imageWidth, numPixels, offX, offY, px, py) == Some(result[..])
    {
      var pixel := Sample(t, px, py);
      if pixel.None? {
        ColumnPassFails(before, t, imageWidth, numPixels, offX, offY, px, py + 1, rows);
        return false;
      }
      var index := Target(imageWidth, offX, offY, px, py);
      if 0 <= index < numPixels {
        if index >= result.Length {
          ColumnPassFails(before, t, imageWidth, numPixels, offX, offY, px, py + 1, rows);
          return false;
        }
        var col := result[index];
        result[index] := Blend(pixel.value, col);
      }
    }
    ok := true;
  }

  /** Once a column has failed, it stays failed. */
  lemma {:induction false} ColumnPassFails(canvas: seq<Color>, t: Tile, imageWidth: int, numPixels: int, offX: nat, offY: nat, px: int, py: int, py': int)
    requires 0 <= py <= py' && ColumnPass(canvas, t, imageWidth, numPixels, offX, offY, px, py).None?
    ensures ColumnPass(canvas, t, imageWidth, numPixels, offX, offY, px, py').None?
    decreases py' - py
  {
    if py < py' {
      ColumnPassFails(canvas, t, imageWidth, numPixels, offX, offY, px, py + 1, py');
    }
  }

  /** Once a cell pass has failed, it stays failed. */
  lemma {:induction false} CellPassFails(canvas: seq<Color>, t: Tile, imageWidth: int, numPixels: int, offX: nat, offY: nat, px: int, px': int)
    requires 0 <= px <= px' && CellPass(canvas, t, imageWidth, numPixels, offX, offY, px).None?
    ensures CellPass(canvas, t, imageWidth, numPixels, offX, offY, px').None?
    decreases px' - px
  {
    if px < px' {
      CellPassFails(canvas, t, imageWidth, numPixels, offX, offY, px + 1, px');
    }
  }

  /** A column succeeds exactly when every one of its steps does: each read
      succeeds and no write that passes the guard lies past the array. */
  lemma {:induction false} ColumnPassSucceeds(canvas: seq<Color>, t: Tile, imageWidth: int, numPixels: int, offX: nat, offY: nat, px: int, py: int)
    requires py >= 0
    ensures ColumnPass(canvas, t, imageWidth, numPixels, offX, offY, px, py).Some? <==>
            forall y :: 0 <= y < py ==> Drawable(t, imageWidth, numPixels, |canvas|, offX, offY, px, y)
    decreases py
  {
    if py > 0 {
      ColumnPassSucceeds(canvas, t, imageWidth, numPixels, offX, offY, px, py - 1);
    }
  }

  /** The pass over a cell succeeds exactly when every step over its pixels
      does. */
  lemma {:induction false} CellPassSucceeds(canvas: seq<Color>, t: Tile, imageWidth: int, numPixels: int, offX: nat, offY: nat, px: int)
    requires px >= 0
    ensures CellPass(canvas, t, imageWidth, numPixels, offX, offY, px).Some? <==>
            forall x, y :: 0 <= x < px && 0 <= y < Rows(t) ==> Drawable(t, imageWidth, numPixels, |canvas|, offX, offY, x, y)
    decreases px
  {
    if px > 0 {
      CellPassSucceeds(canvas, t, imageWidth, numPixels, offX, offY, px - 1);
      var before := CellPass(canvas, t, imageWidth, numPixels, offX, offY, px - 1);
      if before.Some? {
        ColumnPassSucceeds(before.value, t, imageWidth, numPixels, offX, offY, px - 1, Rows(t));
      }
    }
  }

  /** On a shrunk sprite, or on an atlas rectangle inside its colours, no
      read of the cell fails. */
  lemma NoReadFails(t: Tile, px: int, py: int)
    requires WellFormed(t) && (t.shrunk || InsideAtlas(t))
    ensures Sample(t, px, py).Some?
  {
    if OnTile(t, px, py) {
      ReadInRange(t, px, py);
    }
  }

  /** GenerateTexture's array holds exactly numPixels pixels, so no write
      raises there: on a shrunk sprite or an unscaled atlas its cell pass
      always succeeds. */
  lemma GenerateTextureCellSucceeds(canvas: seq<Color>, t: Tile, imageWidth: int, offX: nat, offY: nat, px: int)
    requires px >= 0 && WellFormed(t) && (t.shrunk || InsideAtlas(t))
    ensures CellPass(canvas, t, imageWidth, |canvas|, offX, offY, px).Some?
  {
    forall x, y | 0 <= x < px && 0 <= y < Rows(t)
      ensures Drawable(t, imageWidth, |canvas|, |canvas|, offX, offY, x, y)
    {
      NoReadFails(t, x, y);
    }
    CellPassSucceeds(canvas, t, imageWidth, |canvas|, offX, offY, px);
  }

  /** Write2TargetPixels guards its writes with its own pixel count
      imageWidth * imageHeight, not with the length of the caller's array.
      With a 16 x 16 target (numPixels 256) and a tile that draws only the
      default colour, cell pixel (6, 9) targets index 150, so the write into
      an array of 100 raises; cell pixel (4, 16) targets index 260, so into
      an array of 300 it is skipped although the array holds that index. */
  lemma TargetArrayMismatch(short: seq<Color>, long: seq<Color>)
    requires |short| == 100 && |long| == 300
    ensures var t := Tile([], 0, 0, 0, true, 0, 0, 16, 17);
            Step(short, t, 16, 256, 0, 0, 6, 9) == None &&
            Step(long, t, 16, 256, 0, 0, 4, 16) == Some(long)
  {
    var t := Tile([], 0, 0, 0, true, 0, 0, 16, 17);
    assert !OnTile(t, 6, 9) && !OnTile(t, 4, 16);
  }

  /** A picture index no cell pixel targets keeps its colour through a
      column. */
  lemma {:induction false} ColumnPassUntouched(canvas: seq<Color>, t: Tile, imageWidth: int, numPixels: int, offX: nat, offY: nat, px: int, py: int, i: int)
    requires py >= 0 && 0 <= i < |canvas|
    requires forall y :: 0 <= y < py ==> Target(imageWidth, offX, offY, px, y) != i
    ensures var r := ColumnPass(canvas, t, imageWidth, numPixels, offX, offY, px, py); r.Some? ==> r.value[i] == canvas[i]
    decreases py
  {
    if py > 0 {
      ColumnPassUntouched(canvas, t, imageWidth, numPixels, offX, offY, px, py - 1, i);
    }
  }

  /** Only the targets of the cell's pixels change: every other index of the
      picture keeps its colour through the whole pass. */
  lemma {:induction false} CellPassUntouched(canvas: seq<Color>, t: Tile, imageWidth: int, numPixels: int, offX: nat, offY: nat, px: int, i: int)
    requires px >= 0 && 0 <= i < |canvas|
    requires forall x, y :: 0 <= x < px && 0 <= y < t.cellHeight ==> Target(imageWidth, offX, offY, x, y) != i
    ensures var r := CellPass(canvas, t, imageWidth, numPixels, offX, offY, px); r.Some? ==> r.value[i] == canvas[i]
    decreases px
  {
    if px > 0 {
      CellPassUntouched(canvas, t, imageWidth, numPixels, offX, offY, px - 1, i);
      var before := CellPass(canvas, t, imageWidth, numPixels, offX, offY, px - 1);
      if before.Some? {
        ColumnPassUntouched(before.value, t, imageWidth, numPixels, offX, offY, px - 1, Rows(t), i);
      }
    }
  }

  /** A column whose samples are all transparent leaves the picture as it
      was, when it succeeds; it always does when the array holds numPixels
      pixels or more. */
  lemma {:induction false} ColumnPassTransparent(canvas: seq<Color>, t: Tile, imageWidth: int, numPixels: int, offX: nat, offY: nat, px: int, py: int)
    requires py >= 0
    requires forall y :: 0 <= y < py ==> Sample(t, px, y).Some? && Sample(t, px, y).value.a == 0.0
    ensures var r := ColumnPass(canvas, t, imageWidth, numPixels, offX, offY, px, py); r.Some? ==> r.value == canvas
    ensures numPixels <= |canvas| ==> ColumnPass(canvas, t, imageWidth, numPixels, offX, offY, px, py) == Some(canvas)
    decreases py
  {
    if py > 0 {
      ColumnPassTransparent(canvas, t, imageWidth, numPixels, offX, offY, px, py - 1);
      var index := Target(imageWidth, offX, offY, px, py - 1);
      if 0 <= index < |canvas| {
        assert canvas[index := Blend(Sample(t, px, py - 1).value, canvas[index])] == canvas;
      }
    }
  }

  /** A cell whose samples are all transparent, such as a fully transparent
      tile, leaves the picture as it was, when it succeeds; it always does
      when the array holds numPixels pixels or more. */
  lemma {:induction false} CellPassTransparent(canvas: seq<Color>, t: Tile, imageWidth: int, numPixels: int, offX: nat, offY: nat, px: int)
    requires px >= 0
    requires forall x, y :: 0 <= x < px && 0 <= y < t.cellHeight ==> Sample(t, x, y).Some? && Sample(t, x, y).value.a == 0.0
    ensures var r := CellPass(canvas, t, imageWidth, numPixels, offX, offY, px); r.Some? ==> r.value == canvas
    ensures numPixels <= |canvas| ==> CellPass(canvas, t, imageWidth, numPixels, offX, offY, px) == Some(canvas)
    decreases px
  {
    if px > 0 {
      CellPassTransparent(canvas, t, imageWidth, numPixels, offX, offY, px - 1);
      ColumnPassTransparent(canvas, t, imageWidth, numPixels, offX, offY, px - 1, Rows(t));
    }
  }

  /** A target hit by exactly one cell pixel whose sample is visible ends up
      holding exactly that sample. */
  lemma {:induction false} ColumnPassHit(canvas: seq<Color>, t: Tile, imageWidth: int, numPixels: int, offX: nat, offY: nat, px: int, py: int, y0: int)
    requires 0 <= y0 < py
    requires 0 <= Target(imageWidth, offX, offY, px, y0) < |canvas| && Target(imageWidth, offX, offY, px, y0) < numPixels
    requires forall y :: 0 <= y < py && y != y0 ==> Target(imageWidth, offX, offY, px, y) != Target(imageWidth, offX, offY, px, y0)
    requires Sample(t, px, y0).Some? && Sample(t, px, y0).value.a > 0.0
    ensures var r := ColumnPass(canvas, t, imageWidth, numPixels, offX, offY, px, py);
            r.Some? ==> r.value[Target(imageWidth, offX, offY, px, y0)] == Sample(t, px, y0).value
    decreases py
  {
    var i := Target(imageWidth, offX, offY, px, y0);
    if py - 1 == y0 {
      ColumnPassUntouched(canvas, t, imageWidth, numPixels, offX, offY, px, py - 1, i);
    } else {
      ColumnPassHit(canvas, t, imageWidth, numPixels, offX, offY, px, py - 1, y0);
    }
  }

  /** Over the whole cell: a target hit by exactly one cell pixel whose
      sample is visible ends up holding exactly that sample. */
  lemma {:induction false} CellPassHit(canvas: seq<Color>, t: Tile, imageWidth: int, numPixels: int, offX: nat, offY: nat, px: int, x0: int, y0: int)
    requires 0 <= x0 < px && 0 <= y0 < t.cellHeight
    requires 0 <= Target(imageWidth, offX, offY, x0, y0) < |canvas| && Target(imageWidth, offX, offY, x0, y0) < numPixels
    requires forall x, y :: 0 <= x < px && 0 <= y < t.cellHeight && (x != x0 || y != y0) ==>
               Target(imageWidth, offX, offY, x, y) != Target(imageWidth, offX, offY, x0, y0)
    requires Sample(t, x0, y0).Some? && Sample(t, x0, y0).value.a > 0.0
    ensures var r := CellPass(canvas, t, imageWidth, numPixels, offX, offY, px);
            r.Some? ==> r.value[Target(imageWidth, offX, offY, x0, y0)] == Sample(t, x0, y0).value
    decreases px
  {
    var i := Target(imageWidth, offX, offY, x0, y0);
    var before := CellPass(canvas, t, imageWidth, numPixels, offX, offY, px - 1);
    if before.Some? {
      if px - 1 == x0 {
        ColumnPassHit(before.value, t, imageWidth, numPixels, offX, offY, x0, t.cellHeight, y0);
      } else {
        CellPassHit(canvas, t, imageWidth, numPixels, offX, offY, px - 1, x0, y0);
        ColumnPassUntouched(before.value, t, imageWidth, numPixels, offX, offY, px - 1, Rows(t), i);
      }
    }
  }
}
