/** Cutting a sprite atlas into fixed-size cells and packing cells back into
    one texture. Pictures are row-major colour arrays, as GetPixels returns
    them: pixel (x, y) sits at x + y * width and row 0 is the bottom row. */
module Atlas {
  import opened Wrappers
  import opened Arith
  import opened Colors

  // ------------------------------------------- ExtractByCellSize

  /** The alpha a pixel must exceed for its cell to count as non-empty. */
  const Visible: real := 0.01

  /** Mathf.FloorToInt(n * 1.0f / cell): whole cells along one axis. */
  function CellCount(n: nat, cell: nat): (c: nat)
    requires cell >= 1
    ensures c * cell <= n < (c + 1) * cell
  {
    DivModUnique(n, cell, n / cell, n % cell);
    n / cell
  }

  /** The atlas index of pixel (px, py) of cell (v, h): column h * cw + px and
      row height - (v + 1) * ch + py, so strip v = 0 is the top one. */
  function SourceIndex(width: nat, height: nat, cw: nat, ch: nat, v: int, h: int, px: int, py: int): int
  {
    (h * cw + px) + (height - (v + 1) * ch + py) * width
  }

  /** Every pixel of every whole cell lies inside the atlas: the guard on the
      index in ExtractByCellSize never skips a pixel. */
  lemma SourceIndexInAtlas(width: nat, height: nat, cw: nat, ch: nat, v: int, h: int, px: int, py: int)
    requires cw >= 1 && ch >= 1
    requires 0 <= v < CellCount(height, ch) && 0 <= h < CellCount(width, cw)
    requires 0 <= px < cw && 0 <= py < ch
    ensures 0 <= h * cw + px < width && 0 <= height - (v + 1) * ch + py < height
    ensures 0 <= SourceIndex(width, height, cw, ch, v, h, px, py) < width * height
  {
    MulMonotone(h + 1, CellCount(width, cw), cw);
    MulMonotone(v + 1, CellCount(height, ch), ch);
    MulMonotone(0, h, cw);
    MulMonotone(0, v, ch);
    Distribute(h, cw);
    Distribute(v, ch);
    FlatIndex(h * cw + px, height - (v + 1) * ch + py, width, height);
  }

  lemma Distribute(a: int, b: int)
    ensures (a + 1) * b == a * b + b
  {
  }

  /** Slot k of the pixel array of cell (v, h). */
  function CellPixel(p: seq<Color>, width: nat, height: nat, cw: nat, ch: nat, v: int, h: int, k: int): Color
    requires |p| == width * height && cw >= 1 && ch >= 1
    requires 0 <= v < CellCount(height, ch) && 0 <= h < CellCount(width, cw)
    requires 0 <= k < cw * ch
  {
    FlatIndexSplit(k, cw, ch);
    SourceIndexInAtlas(width, height, cw, ch, v, h, k % cw, k / cw);
    p[SourceIndex(width, height, cw, ch, v, h, k % cw, k / cw)]
  }

  /** The cw * ch pixels of cell (v, h), in the cell's own row-major order. */
  function Cell(p: seq<Color>, width: nat, height: nat, cw: nat, ch: nat, v: int, h: int): (c: seq<Color>)
    requires |p| == width * height && cw >= 1 && ch >= 1
    requires 0 <= v < CellCount(height, ch) && 0 <= h < CellCount(width, cw)
    ensures |c| == cw * ch
  {
    seq(cw * ch, k requires 0 <= k < cw * ch => CellPixel(p, width, height, cw, ch, v, h, k))
  }

  /** Pixel (px, py) of cell (v, h) is the atlas pixel SourceIndex names. */
  lemma CellAt(p: seq<Color>, width: nat, height: nat, cw: nat, ch: nat, v: int, h: int, px: int, py: int)
    requires |p| == width * height && cw >= 1 && ch >= 1
    requires 0 <= v < CellCount(height, ch) && 0 <= h < CellCount(width, cw)
    requires 0 <= px < cw && 0 <= py < ch
    ensures 0 <= px + py * cw < cw * ch && 0 <= SourceIndex(width, height, cw, ch, v, h, px, py) < |p|
    ensures Cell(p, width, height, cw, ch, v, h)[px + py * cw] == p[SourceIndex(width, height, cw, ch, v, h, px, py)]
  {
    FlatIndex(px, py, cw, ch);
    SourceIndexInAtlas(width, height, cw, ch, v, h, px, py);
  }

  /** A cell is kept when some pixel has alpha above 0.01. */
  predicate Kept(c: seq<Color>)
  {
    exists k :: 0 <= k < |c| && c[k].a > Visible
  }

  /** The kept cells of strip v among columns 0 .. h - 1, left to right. */
  function StripCells(p: seq<Color>, width: nat, height: nat, cw: nat, ch: nat, v: int, h: int): seq<seq<Color>>
    requires |p| == width * height && cw >= 1 && ch >= 1
    requires 0 <= v < CellCount(height, ch) && 0 <= h <= CellCount(width, cw)
    decreases h
  {
    if h == 0 then []
    else
      var c := Cell(p, width, height, cw, ch, v, h - 1);
      StripCells(p, width, height, cw, ch, v, h - 1) + (if Kept(c) then [c] else [])
  }

  /** The kept cells of strips 0 .. v - 1, top strip first. */
  function Strips(p: seq<Color>, width: nat, height: nat, cw: nat, ch: nat, v: int): seq<seq<Color>>
    requires |p| == width * height && cw >= 1 && ch >= 1
    requires 0 <= v <= CellCount(height, ch)
    decreases v
  {
    if v == 0 then []
    else Strips(p, width, height, cw, ch, v - 1) + StripCells(p, width, height, cw, ch, v - 1, CellCount(width, cw))
  }

  /** What ExtractByCellSize returns: the pixels of every kept cell, strips
      from the top, cells from the left. */
  function Extracted(p: seq<Color>, width: nat, height: nat, cw: nat, ch: nat): seq<seq<Color>>
    requires |p| == width * height && cw >= 1 && ch >= 1
  {
    Strips(p, width, height, cw, ch, CellCount(height, ch))
  }

  /** The slots of the cell array filled once columns 0 .. px - 1 are done and
      rows 0 .. py - 1 of column px. */
  predicate Done(k: int, cw: nat, px: int, py: int)
    requires cw >= 1
  {
    k % cw < px || (k % cw == px && k / cw < py)
  }

  /** The filled slots hold their atlas pixels. */
  ghost predicate Filled(a: seq<Color>, p: seq<Color>, width: nat, height: nat, cw: nat, ch: nat, v: int, h: int, px: int, py: int)
    requires |p| == width * height && cw >= 1 && ch >= 1
    requires 0 <= v < CellCount(height, ch) && 0 <= h < CellCount(width, cw)
    requires |a| == cw * ch
  {
    forall k :: 0 <= k < |a| && Done(k, cw, px, py) ==> a[k] == CellPixel(p, width, height, cw, ch, v, h, k)
  }

  /** No filled slot is visible. */
  ghost predicate Hidden(a: seq<Color>, cw: nat, px: int, py: int)
    requires cw >= 1
  {
    forall k :: 0 <= k < |a| && Done(k, cw, px, py) ==> a[k].a <= Visible
  }

  /** The inner loop of ExtractByCellSize: rows 0 .. ch - 1 of column px of
      cell (v, h). */
  method FillColumn(pixels: array<Color>, width: nat, height: nat, cw: nat, ch: nat, v: int, h: int,
                    cell: array<Color>, px: int, empty: bool)
    returns (empty': bool)
    requires pixels.Length == width * height && cw >= 1 && ch >= 1
    requires 0 <= v < CellCount(height, ch) && 0 <= h < CellCount(width, cw)
    requires cell.Length == cw * ch && cell != pixels && 0 <= px < cw
    requires Filled(cell[..], pixels[..], width, height, cw, ch, v, h, px, 0)
    requires empty == Hidden(cell[..], cw, px, 0)
    modifies cell
    ensures Filled(cell[..], pixels[..], width, height, cw, ch, v, h, px + 1, 0)
    ensures empty' == Hidden(cell[..], cw, px + 1, 0)
  {
    empty' := empty;
    for py := 0 to ch
      invariant Filled(cell[..], pixels[..], width, height, cw, ch, v, h, px, py)
      invariant empty' == Hidden(cell[..], cw, px, py)
    {
      ghost var before := cell[..];
      var x := h * cw + px;
      var y := height - (v + 1) * ch + py;
      var index := x + y * width;
      SourceIndexInAtlas(width, height, cw, ch, v, h, px, py);
      if 0 <= index < pixels.Length {
        var pixel := pixels[index];
        if pixel.a > Visible {
          empty' := false;
        }
        FlatIndex(px, py, cw, ch);
        cell[px + py * cw] := pixel;
        forall k | 0 <= k < cell.Length
          ensures Done(k, cw, px, py + 1) <==> Done(k, cw, px, py) || k == px + py * cw
          ensures k != px + py * cw ==> cell[k] == before[k]
        {
          FlatIndexSplit(k, cw, ch);
        }
      }
    }
    forall k | 0 <= k < cell.Length
      ensures Done(k, cw, px + 1, 0) <==> Done(k, cw, px, ch)
    {
      FlatIndexSplit(k, cw, ch);
    }
  }

  /** The pixels of cell (v, h) and whether all of them are invisible. */
  method FillCell(pixels: array<Color>, width: nat, height: nat, cw: nat, ch: nat, v: int, h: int)
    returns (cell: seq<Color>, empty: bool)
    requires pixels.Length == width * height && cw >= 1 && ch >= 1
    requires 0 <= v < CellCount(height, ch) && 0 <= h < CellCount(width, cw)
    ensures cell == Cell(pixels[..], width, height, cw, ch, v, h)
    ensures empty <==> !Kept(cell)
  {
    var cellPixels := new Color[cw * ch](_ => Clear);
    empty := true;
    for px := 0 to cw
      invariant Filled(cellPixels[..], pixels[..], width, height, cw, ch, v, h, px, 0)
      invariant empty == Hidden(cellPixels[..], cw, px, 0)
    {
      empty := FillColumn(pixels, width, height, cw, ch, v, h, cellPixels, px, empty);
    }
    forall k | 0 <= k < cellPixels.Length
      ensures Done(k, cw, cw, 0)
    {
      FlatIndexSplit(k, cw, ch);
    }
    cell := cellPixels[..];
  }

  /** ExtractByCellSize(rawAtlas, cellWidth, cellHeight): the pixel arrays of
      the non-empty cells, visited strip by strip from the top and cell by
      cell from the left. */
  method ExtractByCellSize(pixels: array<Color>, width: nat, height: nat, cw: nat, ch: nat)
    returns (cells: seq<seq<Color>>)
    requires pixels.Length == width * height && cw >= 1 && ch >= 1
    ensures cells == Extracted(pixels[..], width, height, cw, ch)
  {
    var horizontal := CellCount(width, cw);
    var vertical := CellCount(height, ch);
    cells := [];
    for v := 0 to vertical
      invariant cells == Strips(pixels[..], width, height, cw, ch, v)
    {
      ghost var above := cells;
      for h := 0 to horizontal
        invariant cells == above + StripCells(pixels[..], width, height, cw, ch, v, h)
      {
        var cell, empty := FillCell(pixels, width, height, cw, ch, v, h);
        if !empty {
          cells := cells + [cell];
        }
      }
    }
  }

  /** Every cell of cs is a whole cw * ch cell with a visible pixel. */
  predicate WholeKept(cs: seq<seq<Color>>, cw: nat, ch: nat)
  {
    forall i :: 0 <= i < |cs| ==> |cs[i]| == cw * ch && Kept(cs[i])
  }

  lemma WholeKeptConcat(a: seq<seq<Color>>, b: seq<seq<Color>>, cw: nat, ch: nat)
    requires WholeKept(a, cw, ch) && WholeKept(b, cw, ch)
    ensures WholeKept(a + b, cw, ch)
  {
    forall i | 0 <= i < |a + b|
      ensures |(a + b)[i]| == cw * ch && Kept((a + b)[i])
    {
      if i < |a| {
        assert (a + b)[i] == a[i];
      } else {
        assert (a + b)[i] == b[i - |a|];
      }
    }
  }

  lemma {:induction false} StripCellsKept(p: seq<Color>, width: nat, height: nat, cw: nat, ch: nat, v: int, h: int)
    requires |p| == width * height && cw >= 1 && ch >= 1
    requires 0 <= v < CellCount(height, ch) && 0 <= h <= CellCount(width, cw)
    ensures |StripCells(p, width, height, cw, ch, v, h)| <= h
    ensures WholeKept(StripCells(p, width, height, cw, ch, v, h), cw, ch)
    decreases h
  {
    if h > 0 {
      StripCellsKept(p, width, height, cw, ch, v, h - 1);
      var c := Cell(p, width, height, cw, ch, v, h - 1);
      WholeKeptConcat(StripCells(p, width, height, cw, ch, v, h - 1), if Kept(c) then [c] else [], cw, ch);
    }
  }

  lemma {:induction false} StripsKept(p: seq<Color>, width: nat, height: nat, cw: nat, ch: nat, v: int)
    requires |p| == width * height && cw >= 1 && ch >= 1
    requires 0 <= v <= CellCount(height, ch)
    ensures |Strips(p, width, height, cw, ch, v)| <= v * CellCount(width, cw)
    ensures WholeKept(Strips(p, width, height, cw, ch, v), cw, ch)
    decreases v
  {
    if v > 0 {
      var cols := CellCount(width, cw);
      StripsKept(p, width, height, cw, ch, v - 1);
      StripCellsKept(p, width, height, cw, ch, v - 1, cols);
      WholeKeptConcat(Strips(p, width, height, cw, ch, v - 1), StripCells(p, width, height, cw, ch, v - 1, cols), cw, ch);
      assert v * cols == (v - 1) * cols + cols;
    }
  }

  /** At most one cell per grid position comes out, and each is a whole
      visible cell. */
  lemma ExtractedKept(p: seq<Color>, width: nat, height: nat, cw: nat, ch: nat)
    requires |p| == width * height && cw >= 1 && ch >= 1
    ensures |Extracted(p, width, height, cw, ch)| <= CellCount(height, ch) * CellCount(width, cw)
    ensures forall c :: c in Extracted(p, width, height, cw, ch) ==> |c| == cw * ch && Kept(c)
  {
    StripsKept(p, width, height, cw, ch, CellCount(height, ch));
  }

  /** An atlas whose pixels are all visible yields every cell of the grid,
      in visiting order. */
  lemma {:induction false} VisibleStrip(p: seq<Color>, width: nat, height: nat, cw: nat, ch: nat, v: int, h: int)
    requires |p| == width * height && cw >= 1 && ch >= 1
    requires 0 <= v < CellCount(height, ch) && 0 <= h <= CellCount(width, cw)
    requires forall i :: 0 <= i < |p| ==> p[i].a > Visible
    ensures |StripCells(p, width, height, cw, ch, v, h)| == h
    ensures forall j :: 0 <= j < h ==> StripCells(p, width, height, cw, ch, v, h)[j] == Cell(p, width, height, cw, ch, v, j)
    decreases h
  {
    if h > 0 {
      VisibleStrip(p, width, height, cw, ch, v, h - 1);
      var c := Cell(p, width, height, cw, ch, v, h - 1);
      FlatIndex(0, 0, cw, ch);
      assert c[0] == p[SourceIndex(width, height, cw, ch, v, h - 1, 0, 0)] by {
        CellAt(p, width, height, cw, ch, v, h - 1, 0, 0);
      }
      assert Kept(c);
    }
  }

  lemma {:induction false} VisibleStrips(p: seq<Color>, width: nat, height: nat, cw: nat, ch: nat, v: int)
    requires |p| == width * height && cw >= 1 && ch >= 1
    requires 0 <= v <= CellCount(height, ch)
    requires forall i :: 0 <= i < |p| ==> p[i].a > Visible
    ensures |Strips(p, width, height, cw, ch, v)| == v * CellCount(width, cw)
    decreases v
  {
    if v > 0 {
      VisibleStrips(p, width, height, cw, ch, v - 1);
      VisibleStrip(p, width, height, cw, ch, v - 1, CellCount(width, cw));
      assert v * CellCount(width, cw) == (v - 1) * CellCount(width, cw) + CellCount(width, cw);
    }
  }

  lemma VisibleAtlas(p: seq<Color>, width: nat, height: nat, cw: nat, ch: nat)
    requires |p| == width * height && cw >= 1 && ch >= 1
    requires forall i :: 0 <= i < |p| ==> p[i].a > Visible
    ensures |Extracted(p, width, height, cw, ch)| == CellCount(height, ch) * CellCount(width, cw)
  {
    VisibleStrips(p, width, height, cw, ch, CellCount(height, ch));
  }

  /** An atlas with no visible pixel yields no cell. */
  lemma {:induction false} HiddenStrips(p: seq<Color>, width: nat, height: nat, cw: nat, ch: nat, v: int)
    requires |p| == width * height && cw >= 1 && ch >= 1
    requires 0 <= v <= CellCount(height, ch)
    requires forall i :: 0 <= i < |p| ==> p[i].a <= Visible
    ensures Strips(p, width, height, cw, ch, v) == []
    decreases v
  {
    if v > 0 {
      HiddenStrips(p, width, height, cw, ch, v - 1);
      HiddenStrip(p, width, height, cw, ch, v - 1, CellCount(width, cw));
    }
  }

  lemma {:induction false} HiddenStrip(p: seq<Color>, width: nat, height: nat, cw: nat, ch: nat, v: int, h: int)
    requires |p| == width * height && cw >= 1 && ch >= 1
    requires 0 <= v < CellCount(height, ch) && 0 <= h <= CellCount(width, cw)
    requires forall i :: 0 <= i < |p| ==> p[i].a <= Visible
    ensures StripCells(p, width, height, cw, ch, v, h) == []
    decreases h
  {
    if h > 0 {
      HiddenStrip(p, width, height, cw, ch, v, h - 1);
      var c := Cell(p, width, height, cw, ch, v, h - 1);
      forall k | 0 <= k < |c|
        ensures c[k].a <= Visible
      {
        FlatIndexSplit(k, cw, ch);
        SourceIndexInAtlas(width, height, cw, ch, v, h - 1, k % cw, k / cw);
      }
    }
  }

  lemma HiddenAtlas(p: seq<Color>, width: nat, height: nat, cw: nat, ch: nat)
    requires |p| == width * height && cw >= 1 && ch >= 1
    requires forall i :: 0 <= i < |p| ==> p[i].a <= Visible
    ensures Extracted(p, width, height, cw, ch) == []
  {
    HiddenStrips(p, width, height, cw, ch, CellCount(height, ch));
  }

  // ------------------------------------------- PackAtlas

  /** The two bin sizes PackAtlas chooses between. */
  const MinSize: nat := 1024
  const MaxSize: nat := 2048

  /** A source texture: its size and the pixels GetPixels returns. */
  datatype Texture = Texture(width: nat, height: nat, pixels: seq<Color>)

  /** Why PackAtlas produces no atlas. DivideByZero: no textures, or an
      average cell size of 0; OutOfRange: more cells than a 2048 x 2048 bin
      holds (the logged error); IndexOutOfRange: a texture with fewer
      pixels than one cell. */
  datatype PackError = DivideByZero | OutOfRange(numCells: nat) | IndexOutOfRange

  /** The cell size every texture is drawn at and the size of the bin. */
  datatype Layout = Layout(cellWidth: nat, cellHeight: nat, width: nat, height: nat)

  /** The bin and the pixels PackAtlas encodes. */
  datatype Packing = Packing(layout: Layout, pixels: seq<Color>)

  function TotalWidth(ts: seq<Texture>): nat
  {
    if ts == [] then 0 else TotalWidth(ts[..|ts| - 1]) + ts[|ts| - 1].width
  }

  function TotalHeight(ts: seq<Texture>): nat
  {
    if ts == [] then 0 else TotalHeight(ts[..|ts| - 1]) + ts[|ts| - 1].height
  }

  /** Mathf.CeilToInt(a * 1f / b) on naturals. */
  function CeilDiv(a: nat, b: nat): (c: nat)
    requires b >= 1
    ensures c * b >= a && (c == 0 || (c - 1) * b < a)
  {
    var q := (a + b - 1) / b;
    DivModUnique(a + b - 1, b, q, (a + b - 1) % b);
    assert (q - 1) * b == q * b - b;
    q
  }

  /** Cells per row and rows per bin. */
  function Columns(lay: Layout): nat
    requires lay.cellWidth >= 1
  {
    lay.width / lay.cellWidth
  }

  function Rows(lay: Layout): nat
    requires lay.cellHeight >= 1
  {
    lay.height / lay.cellHeight
  }

  /** A layout with room for n cells of its cell size. */
  predicate Fits(lay: Layout, n: nat)
  {
    lay.cellWidth >= 1 && lay.cellHeight >= 1 && n <= Columns(lay) * Rows(lay)
  }

  /** The capacity check and the bin choice of PackAtlas: the cell size is the
      integer average; more cells than a 2048 bin holds is an error; up to
      the capacity of a 1024 bin gives 1024 x 1024, otherwise the bin is 2048
      wide and 1024 or 2048 high. A chosen bin always has room for every
      cell. */
  function Plan(ts: seq<Texture>): (r: Result<Layout, PackError>)
    ensures r.Err? && r.error == DivideByZero <==> |ts| == 0 || TotalWidth(ts) < |ts| || TotalHeight(ts) < |ts|
    ensures r.Ok? ==> Fits(r.value, |ts|) && |ts| >= 1
    ensures r.Ok? ==> r.value.cellWidth * |ts| <= TotalWidth(ts) < (r.value.cellWidth + 1) * |ts|
    ensures r.Ok? ==> r.value.cellHeight * |ts| <= TotalHeight(ts) < (r.value.cellHeight + 1) * |ts|
    ensures r.Ok? ==> (r.value.width == MinSize && r.value.height == MinSize) ||
                      (r.value.width == MaxSize && (r.value.height == MinSize || r.value.height == MaxSize))
  {
    var n := |ts|;
    if n == 0 then Err(DivideByZero)
    else
      var cw := CellCount(TotalWidth(ts), n);
      var ch := CellCount(TotalHeight(ts), n);
      CellCountZero(TotalWidth(ts), n);
      CellCountZero(TotalHeight(ts), n);
      if cw == 0 || ch == 0 then Err(DivideByZero)
      else Bin(n, cw, ch)
  }

  /** The bin for n cells of cw x ch pixels, or the capacity error. */
  function Bin(n: nat, cw: nat, ch: nat): (r: Result<Layout, PackError>)
    requires n >= 1 && cw >= 1 && ch >= 1
    ensures r.Err? <==> n > (MaxSize / cw) * (MaxSize / ch)
    ensures r.Err? ==> r.error == OutOfRange(n)
    ensures r.Ok? ==> Fits(r.value, n) && r.value.cellWidth == cw && r.value.cellHeight == ch
    ensures r.Ok? ==> (r.value.width == MinSize && r.value.height == MinSize) ||
                      (r.value.width == MaxSize && (r.value.height == MinSize || r.value.height == MaxSize))
  {
    var minNum := (MinSize / cw) * (MinSize / ch);
    var maxNum := (MaxSize / cw) * (MaxSize / ch);
    if n > maxNum then Err(OutOfRange(n))
    else if n <= minNum then
      FitsOf(n, cw, ch, MinSize, MinSize);
      Ok(Layout(cw, ch, MinSize, MinSize))
    else
      var col := MaxSize / cw;
      ProductPositive(col, MaxSize / ch, n);
      var row := CeilDiv(n, col);
      if row * ch <= MinSize then
        CeilFits(n, col, ch, MinSize);
        FitsOf(n, cw, ch, MaxSize, MinSize);
        Ok(Layout(cw, ch, MaxSize, MinSize))
      else
        FitsOf(n, cw, ch, MaxSize, MaxSize);
        Ok(Layout(cw, ch, MaxSize, MaxSize))
  }

  /** The average is 0 exactly when the total is below the count. */
  lemma CellCountZero(total: nat, n: nat)
    requires n >= 1
    ensures CellCount(total, n) == 0 <==> total < n
  {
    var c := CellCount(total, n);
    if c >= 1 {
      MulMonotone(1, c, n);
    }
  }

  lemma FitsOf(n: nat, cw: nat, ch: nat, width: nat, height: nat)
    requires cw >= 1 && ch >= 1 && n <= (width / cw) * (height / ch)
    ensures Fits(Layout(cw, ch, width, height), n)
  {
  }

  lemma ProductPositive(a: nat, b: nat, n: nat)
    requires 1 <= n <= a * b
    ensures a >= 1 && b >= 1
  {
  }

  /** Rows of col cells that fit under size hold all n cells. */
  lemma CeilFits(n: nat, col: nat, ch: nat, size: nat)
    requires col >= 1 && ch >= 1 && CeilDiv(n, col) * ch <= size
    ensures n <= col * (size / ch)
  {
    var row := CeilDiv(n, col);
    RowsBelow(row, ch, size);
    MulMonotone(row, size / ch, col);
  }

  lemma RowsBelow(row: nat, ch: nat, size: nat)
    requires ch >= 1 && row * ch <= size
    ensures row <= size / ch
  {
    DivModUnique(size, ch, size / ch, size % ch);
    if row > size / ch {
      MulMonotone(size / ch + 1, row, ch);
    }
  }

  lemma MulMonotone(a: nat, b: nat, c: nat)
    requires a <= b
    ensures a * c <= b * c
  {
  }

  /** Where a cell goes: its bottom-left corner in the bin. */
  datatype Slot = Slot(x: int, y: int)

  /** The slot of cell j: placement fills the top row from the left, then
      moves down one cell height whenever the next cell would stick out on
      the right. */
  function SlotOf(lay: Layout, j: nat): Slot
    requires lay.cellWidth >= 1 && lay.cellHeight >= 1 && Columns(lay) >= 1
  {
    var col := Columns(lay);
    Slot((j % col) * lay.cellWidth, lay.height - lay.cellHeight - (j / col) * lay.cellHeight)
  }

  /** When the layout has room for n cells, each of the first n slots lies
      wholly inside the bin. */
  lemma SlotInside(lay: Layout, n: nat, j: nat)
    requires Fits(lay, n) && j < n
    ensures Columns(lay) >= 1
    ensures 0 <= SlotOf(lay, j).x && SlotOf(lay, j).x + lay.cellWidth <= lay.width
    ensures 0 <= SlotOf(lay, j).y && SlotOf(lay, j).y + lay.cellHeight <= lay.height
  {
    var col, rows := Columns(lay), Rows(lay);
    ProductPositive(col, rows, n);
    RowOfCell(j, col, rows, n);
    SlotColumn(lay.width, lay.cellWidth, j % col);
    SlotRow(lay.height, lay.cellHeight, j / col);
  }

  lemma RowOfCell(j: nat, col: nat, rows: nat, n: nat)
    requires col >= 1 && j < n <= col * rows
    ensures j / col < rows
  {
    assert j == (j / col) * col + j % col;
    if j / col >= rows {
      MulMonotone(rows, j / col, col);
    }
  }

  lemma SlotColumn(width: nat, cw: nat, r: nat)
    requires cw >= 1 && r < width / cw
    ensures r * cw + cw <= width
  {
    DivModUnique(width, cw, width / cw, width % cw);
    MulMonotone(r + 1, width / cw, cw);
  }

  lemma SlotRow(height: nat, ch: nat, q: nat)
    requires ch >= 1 && q < height / ch
    ensures 0 <= height - ch - q * ch
  {
    DivModUnique(height, ch, height / ch, height % ch);
    MulMonotone(q + 1, height / ch, ch);
  }

  /** Distinct cells get non-overlapping rectangles: they are apart by at
      least a cell width or a cell height. */
  lemma SlotsDisjoint(lay: Layout, i: nat, j: nat)
    requires lay.cellWidth >= 1 && lay.cellHeight >= 1 && Columns(lay) >= 1 && i != j
    ensures SlotOf(lay, i).x + lay.cellWidth <= SlotOf(lay, j).x || SlotOf(lay, j).x + lay.cellWidth <= SlotOf(lay, i).x ||
            SlotOf(lay, i).y + lay.cellHeight <= SlotOf(lay, j).y || SlotOf(lay, j).y + lay.cellHeight <= SlotOf(lay, i).y
  {
    if i / Columns(lay) == j / Columns(lay) {
      ColumnsApart(lay, i, j);
    } else {
      RowsApart(lay, i, j);
    }
  }

  /** Cells of one row are a cell width apart. */
  lemma ColumnsApart(lay: Layout, i: nat, j: nat)
    requires lay.cellWidth >= 1 && lay.cellHeight >= 1 && Columns(lay) >= 1 && i != j
    requires i / Columns(lay) == j / Columns(lay)
    ensures SlotOf(lay, i).x + lay.cellWidth <= SlotOf(lay, j).x || SlotOf(lay, j).x + lay.cellWidth <= SlotOf(lay, i).x
  {
    var col, cw := Columns(lay), lay.cellWidth;
    SameRowDistinct(i, j, col);
    if i % col < j % col {
      Apart(i % col, j % col, cw);
    } else {
      Apart(j % col, i % col, cw);
    }
  }

  /** Cells of different rows are a cell height apart. */
  lemma RowsApart(lay: Layout, i: nat, j: nat)
    requires lay.cellWidth >= 1 && lay.cellHeight >= 1 && Columns(lay) >= 1
    requires i / Columns(lay) != j / Columns(lay)
    ensures SlotOf(lay, i).y + lay.cellHeight <= SlotOf(lay, j).y || SlotOf(lay, j).y + lay.cellHeight <= SlotOf(lay, i).y
  {
    var col, ch := Columns(lay), lay.cellHeight;
    if i / col < j / col {
      Apart(i / col, j / col, ch);
    } else {
      Apart(j / col, i / col, ch);
    }
  }

  lemma SameRowDistinct(i: nat, j: nat, col: nat)
    requires col >= 1 && i != j && i / col == j / col
    ensures i % col != j % col
  {
    assert i == (i / col) * col + i % col;
    assert j == (j / col) * col + j % col;
  }

  /** Two different multiples of c are at least c apart. */
  lemma Apart(a: nat, b: nat, c: nat)
    requires a < b
    ensures a * c + c <= b * c
  {
    MulMonotone(a + 1, b, c);
    Distribute(a, c);
  }

  /** Pixel i of the canvas once columns 0 .. cx - 1 of the cell at s, and
      rows 0 .. cy - 1 of column cx, are drawn: inside that part of the
      rectangle the texture's pixel, elsewhere the canvas. */
  function PaintedAt(canvas: seq<Color>, tex: seq<Color>, s: Slot, width: nat, cw: nat, ch: nat, cx: int, cy: int, i: int): Color
    requires width >= 1 && cw >= 1 && ch >= 1 && |tex| >= cw * ch && 0 <= i < |canvas|
  {
    var dx := i % width - s.x;
    var dy := i / width - s.y;
    if 0 <= dx < cw && 0 <= dy < ch && (dx < cx || (dx == cx && dy < cy)) then
      FlatIndex(dx, dy, cw, ch);
      tex[dx + dy * cw]
    else canvas[i]
  }

  function Painted(canvas: seq<Color>, tex: seq<Color>, s: Slot, width: nat, cw: nat, ch: nat, cx: int, cy: int): (r: seq<Color>)
    requires width >= 1 && cw >= 1 && ch >= 1 && |tex| >= cw * ch
    ensures |r| == |canvas|
  {
    seq(|canvas|, i requires 0 <= i < |canvas| => PaintedAt(canvas, tex, s, width, cw, ch, cx, cy, i))
  }

  /** The canvas with the whole cell drawn at s. */
  function Paint(canvas: seq<Color>, tex: seq<Color>, s: Slot, width: nat, cw: nat, ch: nat): (r: seq<Color>)
    requires width >= 1 && cw >= 1 && ch >= 1 && |tex| >= cw * ch
    ensures |r| == |canvas|
  {
    Painted(canvas, tex, s, width, cw, ch, cw, 0)
  }

  /** Drawing pixel (cx, cy) of the cell changes only its own canvas index. */
  lemma PaintStep(canvas: seq<Color>, tex: seq<Color>, s: Slot, width: nat, cw: nat, ch: nat, cx: int, cy: int, i: int)
    requires width >= 1 && cw >= 1 && ch >= 1 && |tex| >= cw * ch && 0 <= i < |canvas|
    requires 0 <= cx < cw && 0 <= cy < ch && 0 <= s.x + cx < width
    ensures 0 <= cx + cy * cw < cw * ch
    ensures PaintedAt(canvas, tex, s, width, cw, ch, cx, cy + 1, i) ==
            if i == (s.x + cx) + (s.y + cy) * width then tex[cx + cy * cw]
            else PaintedAt(canvas, tex, s, width, cw, ch, cx, cy, i)
  {
    FlatIndex(cx, cy, cw, ch);
    var px, py := s.x + cx, s.y + cy;
    if i == px + py * width {
      DivModUnique(i, width, py, px);
    } else {
      assert i == i % width + (i / width) * width;
    }
  }

  /** A finished column leaves the same picture as the start of the next. */
  lemma PaintColumnDone(canvas: seq<Color>, tex: seq<Color>, s: Slot, width: nat, cw: nat, ch: nat, cx: int)
    requires width >= 1 && cw >= 1 && ch >= 1 && |tex| >= cw * ch
    ensures Painted(canvas, tex, s, width, cw, ch, cx, ch) == Painted(canvas, tex, s, width, cw, ch, cx + 1, 0)
  {
  }

  /** The column loop of the placement: rows 0 .. ch - 1 of column cx of the
      cell drawn at s. */
  method BlitColumn(a: array<Color>, tex: seq<Color>, s: Slot, width: nat, cw: nat, ch: nat, cx: int, ghost canvas: seq<Color>)
    requires width >= 1 && cw >= 1 && ch >= 1 && |tex| >= cw * ch
    requires 0 <= cx < cw && 0 <= s.x + cx < width && |canvas| == a.Length
    requires a[..] == Painted(canvas, tex, s, width, cw, ch, cx, 0)
    modifies a
    ensures a[..] == Painted(canvas, tex, s, width, cw, ch, cx + 1, 0)
  {
    for cy := 0 to ch
      invariant a[..] == Painted(canvas, tex, s, width, cw, ch, cx, cy)
    {
      var px, py := s.x + cx, s.y + cy;
      FlatIndex(cx, cy, cw, ch);
      var color := tex[cx + cy * cw];
      var index := px + py * width;
      if 0 <= index < a.Length {
        a[index] := color;
      }
      forall i | 0 <= i < a.Length
        ensures a[i] == PaintedAt(canvas, tex, s, width, cw, ch, cx, cy + 1, i)
      {
        PaintStep(canvas, tex, s, width, cw, ch, cx, cy, i);
      }
    }
    PaintColumnDone(canvas, tex, s, width, cw, ch, cx);
  }

  /** The nested Parallel.For of PackAtlas, in sequence: every pixel of the
      cell that lands inside the array is written at px + py * width. */
  method Blit(a: array<Color>, tex: seq<Color>, s: Slot, width: nat, cw: nat, ch: nat)
    requires width >= 1 && cw >= 1 && ch >= 1 && |tex| >= cw * ch
    requires 0 <= s.x && s.x + cw <= width
    modifies a
    ensures a[..] == Paint(old(a[..]), tex, s, width, cw, ch)
  {
    ghost var canvas := a[..];
    assert a[..] == Painted(canvas, tex, s, width, cw, ch, 0, 0);
    for cx := 0 to cw
      invariant a[..] == Painted(canvas, tex, s, width, cw, ch, cx, 0)
    {
      BlitColumn(a, tex, s, width, cw, ch, cx, canvas);
    }
  }

  /** Every texture has at least one cell's worth of pixels. */
  predicate LargeEnough(ts: seq<Texture>, cw: nat, ch: nat, j: nat)
    requires j <= |ts|
  {
    forall i :: 0 <= i < j ==> |ts[i].pixels| >= cw * ch
  }

  /** The bin after cells 0 .. j - 1 are drawn into a transparent picture. */
  function Composite(ts: seq<Texture>, lay: Layout, j: nat): (r: seq<Color>)
    requires Fits(lay, |ts|) && j <= |ts| && LargeEnough(ts, lay.cellWidth, lay.cellHeight, j)
    ensures |r| == lay.width * lay.height
    decreases j
  {
    if j == 0 then seq(lay.width * lay.height, _ => Clear)
    else
      SlotInside(lay, |ts|, j - 1);
      Paint(Composite(ts, lay, j - 1), ts[j - 1].pixels, SlotOf(lay, j - 1), lay.width, lay.cellWidth, lay.cellHeight)
  }

  /** What PackAtlas encodes, or why it stops. */
  function Pack(ts: seq<Texture>): Result<Packing, PackError>
  {
    match Plan(ts)
    case Err(e) => Err(e)
    case Ok(lay) =>
      if !LargeEnough(ts, lay.cellWidth, lay.cellHeight, |ts|) then Err(IndexOutOfRange)
      else Ok(Packing(lay, Composite(ts, lay, |ts|)))
  }

  /** The integer totals of the texture sizes. */
  method Totals(textures: seq<Texture>) returns (totalWidth: nat, totalHeight: nat)
    ensures totalWidth == TotalWidth(textures) && totalHeight == TotalHeight(textures)
  {
    totalWidth, totalHeight := 0, 0;
    for i := 0 to |textures|
      invariant totalWidth == TotalWidth(textures[..i]) && totalHeight == TotalHeight(textures[..i])
    {
      assert textures[..i + 1][..i] == textures[..i];
      totalWidth := totalWidth + textures[i].width;
      totalHeight := totalHeight + textures[i].height;
    }
    assert textures[..|textures|] == textures;
  }

  /** Whether the next cell would stick out on the right: exactly when the
      row is full. */
  lemma RowFull(width: nat, cw: nat, c: nat)
    requires cw >= 1 && c <= width / cw
    ensures width - c * cw < cw <==> c == width / cw
  {
    DivModUnique(width, cw, width / cw, width % cw);
    if c < width / cw {
      MulMonotone(c + 1, width / cw, cw);
    }
  }

  lemma MulSucc(a: nat, b: nat)
    ensures (a + 1) * b == a * b + b
  {
  }

  /** The slot of cell row * col + c, for a column c within the row. */
  lemma SlotAt(lay: Layout, row: nat, c: nat)
    requires lay.cellWidth >= 1 && lay.cellHeight >= 1 && c < Columns(lay)
    ensures SlotOf(lay, row * Columns(lay) + c) == Slot(c * lay.cellWidth, lay.height - lay.cellHeight - row * lay.cellHeight)
  {
    DivModUnique(row * Columns(lay) + c, Columns(lay), row, c);
  }

  /** The capacity check and bin choice of PackAtlas, as statements. */
  method ChooseLayout(textures: seq<Texture>) returns (r: Result<Layout, PackError>)
    ensures r == Plan(textures)
  {
    var numCells := |textures|;
    var totalWidth, totalHeight := Totals(textures);
    if numCells == 0 {
      return Err(DivideByZero);
    }
    var cellWidth := totalWidth / numCells;
    var cellHeight := totalHeight / numCells;
    if cellWidth == 0 || cellHeight == 0 {
      return Err(DivideByZero);
    }
    r := ChooseBin(numCells, cellWidth, cellHeight);
  }

  /** The bin choice of PackAtlas for n cells of the average size. */
  method ChooseBin(numCells: nat, cellWidth: nat, cellHeight: nat) returns (r: Result<Layout, PackError>)
    requires numCells >= 1 && cellWidth >= 1 && cellHeight >= 1
    ensures r == Bin(numCells, cellWidth, cellHeight)
  {
    var minNum := (MinSize / cellWidth) * (MinSize / cellHeight);
    var maxNum := (MaxSize / cellWidth) * (MaxSize / cellHeight);
    if numCells > maxNum {
      return Err(OutOfRange(numCells));
    }
    var width, height;
    if numCells <= minNum {
      width, height := MinSize, MinSize;
    } else {
      width := MaxSize;
      var col := width / cellWidth;
      ProductPositive(col, MaxSize / cellHeight, numCells);
      var row := CeilDiv(numCells, col);
      height := if row * cellHeight <= MinSize then MinSize else MaxSize;
    }
    return Ok(Layout(cellWidth, cellHeight, width, height));
  }

  /** The placement loop of PackAtlas: each texture's first cw * ch pixels
      drawn at its slot, in input order; a texture with fewer pixels stops
      it. */
  method Place(textures: seq<Texture>, lay: Layout) returns (r: Result<Packing, PackError>)
    requires Fits(lay, |textures|)
    ensures r == if LargeEnough(textures, lay.cellWidth, lay.cellHeight, |textures|)
                 then Ok(Packing(lay, Composite(textures, lay, |textures|))) else Err(IndexOutOfRange)
  {
    var numCells := |textures|;
    var width, height, cellWidth, cellHeight := lay.width, lay.height, lay.cellWidth, lay.cellHeight;
    var col := Columns(lay);
    if numCells > 0 {
      SlotInside(lay, numCells, 0);
    }
    var atlasPixels := new Color[width * height](_ => Clear);
    var collectionIndex := 0;
    var atlasX: int, atlasY: int := 0, height - cellHeight;
    ghost var row: nat, c: nat := 0, 0;
    while collectionIndex < numCells
      invariant 0 <= collectionIndex <= numCells && 0 <= c <= col
      invariant collectionIndex == row * col + c
      invariant atlasX == c * cellWidth && atlasY == height - cellHeight - row * cellHeight
      invariant LargeEnough(textures, cellWidth, cellHeight, collectionIndex)
      invariant atlasPixels[..] == Composite(textures, lay, collectionIndex)
      decreases 2 * (numCells - collectionIndex) + (if c == col then 1 else 0)
    {
      SlotInside(lay, numCells, collectionIndex);
      RowFull(width, cellWidth, c);
      if width - atlasX < cellWidth {
        MulSucc(row, col);
        MulSucc(row, cellHeight);
        atlasX := 0;
        atlasY := atlasY - cellHeight;
        row, c := row + 1, 0;
        continue;
      }
      var colors := textures[collectionIndex].pixels;
      if |colors| < cellWidth * cellHeight {
        return Err(IndexOutOfRange);
      }
      SlotAt(lay, row, c);
      Blit(atlasPixels, colors, Slot(atlasX, atlasY), width, cellWidth, cellHeight);
      MulSucc(c, cellWidth);
      collectionIndex := collectionIndex + 1;
      atlasX := atlasX + cellWidth;
      c := c + 1;
    }
    return Ok(Packing(lay, atlasPixels[..]));
  }

  /** PackAtlas(textures, output) up to encoding and writing the file. */
  method PackAtlas(textures: seq<Texture>) returns (r: Result<Packing, PackError>)
    ensures r == Pack(textures)
  {
    var plan := ChooseLayout(textures);
    if plan.Err? {
      return Err(plan.error);
    }
    r := Place(textures, plan.value);
  }

  /** Drawing a cell puts pixel (dx, dy) of the texture at (s.x + dx, s.y + dy). */
  lemma PaintInside(canvas: seq<Color>, tex: seq<Color>, s: Slot, width: nat, cw: nat, ch: nat, dx: int, dy: int)
    requires width >= 1 && cw >= 1 && ch >= 1 && |tex| >= cw * ch
    requires 0 <= s.x && s.x + cw <= width && 0 <= dx < cw && 0 <= dy < ch
    requires 0 <= (s.x + dx) + (s.y + dy) * width < |canvas|
    ensures 0 <= dx + dy * cw < cw * ch
    ensures Paint(canvas, tex, s, width, cw, ch)[(s.x + dx) + (s.y + dy) * width] == tex[dx + dy * cw]
  {
    DivModUnique((s.x + dx) + (s.y + dy) * width, width, s.y + dy, s.x + dx);
    FlatIndex(dx, dy, cw, ch);
  }

  /** Drawing a cell leaves every pixel outside its rectangle alone. */
  lemma PaintOutside(canvas: seq<Color>, tex: seq<Color>, s: Slot, width: nat, cw: nat, ch: nat, i: int)
    requires width >= 1 && cw >= 1 && ch >= 1 && |tex| >= cw * ch && 0 <= i < |canvas|
    requires !(0 <= i % width - s.x < cw && 0 <= i / width - s.y < ch)
    ensures Paint(canvas, tex, s, width, cw, ch)[i] == canvas[i]
  {
  }

  /** Once cell j is drawn, later cells never cover its pixels. */
  lemma {:induction false} CompositeKeeps(ts: seq<Texture>, lay: Layout, k: nat, j: nat, dx: int, dy: int)
    requires Fits(lay, |ts|) && j < k <= |ts| && LargeEnough(ts, lay.cellWidth, lay.cellHeight, k)
    requires 0 <= dx < lay.cellWidth && 0 <= dy < lay.cellHeight
    ensures Columns(lay) >= 1
    ensures 0 <= dx + dy * lay.cellWidth < lay.cellWidth * lay.cellHeight <= |ts[j].pixels|
    ensures var i := (SlotOf(lay, j).x + dx) + (SlotOf(lay, j).y + dy) * lay.width;
            0 <= i < lay.width * lay.height && Composite(ts, lay, k)[i] == ts[j].pixels[dx + dy * lay.cellWidth]
    decreases k
  {
    var width, height, cw, ch := lay.width, lay.height, lay.cellWidth, lay.cellHeight;
    SlotInside(lay, |ts|, j);
    var sj := SlotOf(lay, j);
    var x, y := sj.x + dx, sj.y + dy;
    FlatIndex(x, y, width, height);
    FlatIndex(dx, dy, cw, ch);
    assert |ts[j].pixels| >= cw * ch;
    var i := x + y * width;
    if k == j + 1 {
      PaintInside(Composite(ts, lay, j), ts[j].pixels, sj, width, cw, ch, dx, dy);
    } else {
      CompositeKeeps(ts, lay, k - 1, j, dx, dy);
      SlotsDisjoint(lay, j, k - 1);
      SlotInside(lay, |ts|, k - 1);
      PaintOutside(Composite(ts, lay, k - 1), ts[k - 1].pixels, SlotOf(lay, k - 1), width, cw, ch, i);
    }
  }

  /** In a packed atlas, pixel (dx, dy) of cell j sits at its slot plus
      (dx, dy): the bounds check of the placement never drops a pixel and
      no cell overwrites another. */
  lemma PackedPixel(ts: seq<Texture>, pk: Packing, j: nat, dx: int, dy: int)
    requires Pack(ts) == Ok(pk) && j < |ts|
    requires 0 <= dx < pk.layout.cellWidth && 0 <= dy < pk.layout.cellHeight
    ensures Columns(pk.layout) >= 1
    ensures 0 <= dx + dy * pk.layout.cellWidth < |ts[j].pixels|
    ensures var i := (SlotOf(pk.layout, j).x + dx) + (SlotOf(pk.layout, j).y + dy) * pk.layout.width;
            0 <= i < |pk.pixels| && pk.pixels[i] == ts[j].pixels[dx + dy * pk.layout.cellWidth]
  {
    CompositeKeeps(ts, pk.layout, |ts|, j, dx, dy);
  }
}
