# Unity game tools: a verified model

This project models the computational core of a Unity game-tools repository
and proves properties of that model. The repository contains five tools:

- **ByteStream** is a growable byte buffer with a cursor. It serialises
  booleans, 16/32/64-bit integers, byte arrays and strings. Integers are zig-zag
  encoded and written as a varint: seven payload bits and a continuation flag
  in the lowest bit of each byte.
- **Picture utilities** cover:
  - grayscale and negation;
  - a Gaussian blur approximated by three box blurs, each box blur a
    horizontal then a vertical sliding-window pass;
  - bicubic shrinking;
  - cutting an atlas into cells;
  - packing textures into a new atlas.
- **Tilemap rendering** takes the next power of two above each size (an exact power is doubled) and draws each tile
  cell into the target image, one pixel at a time, with alpha blending.
- **xls2lua** exports a spreadsheet to a Lua module. It scans the header rows,
  grabs the data, formats each cell by its column type and lays out the rows,
  the annotations and the module text.
- **patchtool** is the hot-update patch tool. It records the resources of a
  version directory and finds the latest version. For every older base version
  it builds the difference list that takes a client from that version to the
  latest one.

Each tool is its own module:
- `ByteStreams` and `Varint` (byte_stream.dfy, varint.dfy);
- `Colors`, `BoxLines`, `BoxBlur`, `Gauss`, `Bicubic` and `Atlas` (colors.dfy,
  box_line.dfy, box_blur.dfy, gauss.dfy, bicubic.dfy, atlas.dfy);
- `Tilemap` (tilemap.dfy);
- `Xls2Lua` (xls2lua.dfy);
- `Patch` (patch.dfy).

`Wrappers`, `Arith` and `Decimal` are shared helpers. `Decimal` holds the
decimal text of naturals, as Python's `str`, `int` and `isdigit` use it.

Code that updates state step by step is modelled imperatively:
- the stream is a class over an `array` of bytes;
- the picture passes are methods over arrays with loop invariants.

Each such method is proved equal to a specification function. The properties
that matter are then proved about that function, for example:
- reading back what was written;
- the blur of a uniform picture;
- where each packed texture lands.

The xls2lua and patch code builds lists, strings and dictionaries in loops.
It is modelled by methods over `seq` and `map` values, each proved against a
recursive function.

Three points where the code departs from the algorithm it evidently intends, and the model keeps the code's behaviour:

- The horizontal box pass (PictureUtils.cs:169) subtracts the already blurred
  output `dest[li]`, not the source sample, when a pixel leaves the window. The
  vertical pass subtracts the source sample (PictureUtils.cs:203). The model
  keeps both as written:
  - `BoxLines.BoxLine` takes a `feedback` flag.
  - `BoxLines.BoxLineIsMean` proves that the pass without feedback is the
    window mean, with clamped edges.
  - `BoxLines.FeedbackDiffersFromMean` exhibits a line where the horizontal pass
    differs from that mean.
  - Both passes still map a uniform image to itself, and radius 0 to the
    identity.
- The bicubic sampler converts the sample position with a C# `(int)` cast,
  which truncates toward zero (PictureUtils.cs:241). The model truncates too
  (`Bicubic.Truncate`). Take an axis whose sample position px·xfactor lies
  below 1/2. The offset px·xfactor − 0.5 is then negative, so the fraction
  is negative as well.
  - The four weights of that axis then add up to more than 1
    (`Bicubic.WeightBelowZero`, `Bicubic.AxisWeight`).
  - At position 0 the fraction is −1/2 and the weights add up to 17/16
    (`Bicubic.WeightAtNegativeHalf`).
  - The sixteen weights are the product of the two axes
    (`Bicubic.UniformPictureScaled`). The sum is 289/256 only at output pixel
    (0, 0) (`Bicubic.UniformPictureAtOrigin`). Elsewhere in column 0 or row 0,
    with the other position at least 1/2, it is 17/16.
  - Pictures are in GetPixels order, so row 0 is the bottom row and pixel
    (0, 0) is the bottom-left corner.
- `LargerPowerOf2` (Utils/TilemapUtils.cs:422-430) works on 32-bit ints. It is
  modelled on `bv32`, with the arithmetic shift written out. Its contract
  covers negative inputs and overflow too.

## Model

| member | source | states |
|---|---|---|
| ByteStreams.GrownLength | Optimize/ByteStream.cs:156-168 | the grown length reaches both the old length and the requested capacity; it is unchanged when the buffer is already large enough and stays below twice the capacity otherwise |
| ByteStreams.Grown | Optimize/ByteStream.cs:156-168 | a grown buffer keeps the old bytes as its prefix, is at least the requested capacity long, and is the same buffer when already large enough |
| ByteStreams.PutByte | Optimize/ByteStream.cs:29-33 | writing a byte at the cursor leaves that byte there, in a buffer at least as long as before and longer than the cursor |
| ByteStreams.PutBytesAppend | Optimize/ByteStream.cs:68-74 | writing a + b from pos is writing a, then b where a ended |
| ByteStreams.PutBytesContents | Optimize/ByteStream.cs:68-74 | a written run of bytes sits at the cursor in order; every byte outside it is unchanged |
| ByteStreams.ByteStream.WithCapacity | Optimize/ByteStream.cs:17-21 | a fresh zero-filled buffer of max(1, capacity) bytes, with the cursor at 0 |
| ByteStreams.ByteStream.FromBytes | Optimize/ByteStream.cs:23-27 | the stream reads the caller's own array (no copy), with the cursor at 0 |
| ByteStreams.ByteStream.Available | Optimize/ByteStream.cs:13-15 | available is positive exactly when the stream is readable, and is then the distance from the cursor to the end |
| ByteStreams.ByteStream.EnsureCapacity | Optimize/ByteStream.cs:156-168 | the buffer becomes Grown(old buffer), its length GrownLength (doubling plus one until it fits), the same array when big enough, and the cursor is kept |
| ByteStreams.FitByte | Optimize/ByteStream.cs:29-33 | the array that was the buffer keeps its length and every other byte; it takes the byte at the cursor when the cursor lies inside it |
| ByteStreams.FittedPastEnd | Optimize/ByteStream.cs:29-33 | writes that start at or past the end of an array leave that array unchanged |
| ByteStreams.SelfPrefixedPastEnd | Optimize/ByteStream.cs:68-74 | with the cursor at or past the end of the stream's own array, WriteBytes of that array copies it faithfully |
| ByteStreams.SelfWriteExample | Optimize/ByteStream.cs:68-74 | a stream over [5, 6] that writes its own array sends [8, 8, 8], where the length-prefixed payload is [8, 5, 6] |
| ByteStreams.SelfWrite | Optimize/ByteStream.cs:23-74 | FromBytes([5, 6]), then WriteBytes of that same array, then ToBytes gives [8, 8, 8] |
| ByteStreams.ByteStream.WriteByte | Optimize/ByteStream.cs:29-33 | grows the buffer as needed, stores the byte at the cursor and advances the cursor by one; the array that was the buffer takes the byte when the cursor lies inside it, and otherwise stays as it was while the buffer moves to a grown copy |
| ByteStreams.ByteStream.ReadByte | Optimize/ByteStream.cs:35-36 | returns the byte at the cursor, or the out-of-range error past the end; the cursor advances by one either way |
| ByteStreams.ByteStream.WriteBoolean | Optimize/ByteStream.cs:38-39 | writes byte 1 for true and 0 for false |
| ByteStreams.ByteStream.ReadBoolean | Optimize/ByteStream.cs:41-42 | true exactly when the byte read is 1; error past the end |
| ByteStreams.ByteStream.WriteVarint | Optimize/ByteStream.cs:119-132 | writes exactly VarintBytes(u) at the cursor and advances past it; the array that was the buffer holds what those writes left in it |
| ByteStreams.ByteStream.ReadVarint | Optimize/ByteStream.cs:134-146 | returns and consumes what Varint.ReadVarint decodes at the cursor, including the error when the bytes run out |
| ByteStreams.ByteStream.WriteInt16 | Optimize/ByteStream.cs:44-45 | writes the varint of the zig-zag code of the value; the array that was the buffer holds what those writes left in it |
| ByteStreams.ByteStream.WriteInt32 | Optimize/ByteStream.cs:50-51 | writes the varint of the zig-zag code of the value; the array that was the buffer holds what those writes left in it |
| ByteStreams.ByteStream.WriteInt64 | Optimize/ByteStream.cs:56-57 | writes the varint of the zig-zag code of the value; the array that was the buffer holds what those writes left in it |
| ByteStreams.ByteStream.ReadInt16 | Optimize/ByteStream.cs:47-48 | decodes the varint, un-zig-zags it and truncates it to 16 bits as the cast does |
| ByteStreams.ByteStream.ReadInt32 | Optimize/ByteStream.cs:53-54 | decodes the varint, un-zig-zags it and truncates it to 32 bits as the cast does |
| ByteStreams.ByteStream.ReadInt64 | Optimize/ByteStream.cs:59-60 | decodes the varint and un-zig-zags it into the 64-bit range |
| ByteStreams.ByteStream.WriteBytes | Optimize/ByteStream.cs:68-74 | writes the length as an Int32, then every byte, each read just before it is written; a null array writes length 0. When the argument is the stream's own array, the writes can overwrite bytes not yet read, and what goes out is SelfPrefixed |
| ByteStreams.ByteStream.WriteString | Optimize/ByteStream.cs:76-85 | an empty string writes the single byte 0; any other string writes what WriteBytes writes for its bytes |
| ByteStreams.ByteStream.ReadBytes | Optimize/ByteStream.cs:93-105 | a positive length yields a fresh copy of that many bytes and moves the cursor past them (error when they run past the end); any other length yields null |
| ByteStreams.ByteStream.ReadString | Optimize/ByteStream.cs:107-114 | a positive length yields that many bytes, but the cursor stays after the length and does not move past the payload; any other length yields the empty string |
| ByteStreams.ByteStream.ToBytes | Optimize/ByteStream.cs:148-154 | a fresh array holding the bytes before the cursor; the copy fails when the cursor is past the end |
| ByteStreams.WriteIntegers | Optimize/ByteStream.cs:44-57 | a stream after WriteInt16, WriteInt32 and WriteInt64 holds exactly the three encodings in order |
| ByteStreams.IntegersRoundTrip | Optimize/ByteStream.cs:44-60 | reading back a written Int16, Int32 and Int64 returns the same three values |
| ByteStreams.WritePayloads | Optimize/ByteStream.cs:68-85 | WriteBytes then WriteString leaves exactly the two length-prefixed payloads |
| ByteStreams.PayloadsRoundTrip | Optimize/ByteStream.cs:68-114 | ReadBytes returns the written bytes (null for an empty array), and the following ReadString returns the written string |
| ByteStreams.IntRoundTrip | Optimize/ByteStream.cs:44-60 | for any value in the range of the width, the integer reader returns it and moves the cursor past its encoding |
| ByteStreams.PrefixedRoundTrip | Optimize/ByteStream.cs:93-114 | on a written payload, ReadString returns it leaving the cursor after the length, and ReadBytes returns it (null when empty) with the cursor after the payload |
| ByteStreams.ZigZagFits | Optimize/ByteStream.cs:182-183 | the zig-zag code of an Int64 fits in a ulong |
| ByteStreams.ZigZagDecodeFits | Optimize/ByteStream.cs:185-186 | decoding any ulong gives a value in the Int64 range |
| Varint.ZigZagRoundTrip | Optimize/ByteStream.cs:176-186 | decoding the zig-zag code of any integer gives the integer back |
| Varint.ZigZagOnto | Optimize/ByteStream.cs:176-186 | encoding the decoded value of any code gives the code back |
| Varint.ZigZagWidth | Optimize/ByteStream.cs:176-183 | a value fits the signed range of a width exactly when its code fits the unsigned range (both directions) |
| Varint.Wrap | Optimize/ByteStream.cs:47-54 | a truncating cast always lands in the signed range of the width |
| Varint.WrapInRange | Optimize/ByteStream.cs:47-54 | the cast leaves in-range values unchanged |
| Varint.VarintLayout | Optimize/ByteStream.cs:119-132 | byte k holds bits 7k..7k+6 of the value shifted left by one, with the continuation bit set on every byte but the last |
| Varint.VarintAtMostTen | Optimize/ByteStream.cs:119-132 | a 64-bit value never takes more than ten bytes |
| Varint.VarintRoundTrip | Optimize/ByteStream.cs:119-146 | reading the encoding of a 64-bit value returns it and moves the cursor exactly past the encoding |
| Colors.Channel | PictureUtils.cs:26 | the channel indexer is defined for indices 0..3 and fails for any other |
| Colors.Negate | PictureUtils.cs:39 | each channel of the negation and of the original sum to one |
| Colors.Clamp01 | PictureUtils.cs:101-111 | the clamp lands in [0, 1], keeps values already inside, and sends values above one to one and values below zero to zero |
| Colors.ClampColor | PictureUtils.cs:101-113 | every channel of the clamped colour lies in [0, 1], and a colour already in range is unchanged |
| Colors.Grayscale | PictureUtils.cs:19-30 | fails exactly when some pixel is read with a channel outside 0..3; otherwise a fresh array in which pixel i is the grey whose four channels are pixel i's chosen channel |
| Colors.Negation | PictureUtils.cs:32-42 | a fresh array in which pixel i is the negation of pixel i |
| Colors.NegationTwice | PictureUtils.cs:32-42 | negating a picture twice gives the original pixels back |
| Colors.NegateInvolutive | PictureUtils.cs:39 | negation is an involution on colours |
| Colors.GrayIdempotent | PictureUtils.cs:19-30 | grayscaling a grey pixel again, by any channel, changes nothing |
| Colors.OpaqueAlphaIsWhite | PictureUtils.cs:19-30 | grayscaling by the default alpha channel turns every opaque pixel white |
| Gauss.SqrtFrom | PictureUtils.cs:129-130 | the result is the floor of the square root: its square is at most x, and the next square is above x |
| Gauss.FloorSqrtUnique | PictureUtils.cs:129-130 | the floor square root is the only k with k² ≤ x < (k+1)² |
| Gauss.RoundHalfEven | PictureUtils.cs:135 | rounds to within one half, and a tie goes to the even neighbour, as Math.Round does |
| Gauss.LowerWidth | PictureUtils.cs:129-131 | the lower box width is a positive odd number |
| Gauss.BoxSizes | PictureUtils.cs:127-140 | n box sizes, each a positive odd width |
| Gauss.Split | PictureUtils.cs:137-138 | entries before m take the lower width and the rest the upper width |
| Gauss.BoxesForGauss | PictureUtils.cs:127-140 | the loop builds exactly BoxSizes(sigma, n) |
| Gauss.LowerWidthThree | PictureUtils.cs:129-131 | for three boxes the lower width is 2·abs(sigma) − 1, and 1 when sigma is 0 |
| Gauss.LowerCountThree | PictureUtils.cs:134-135 | for three boxes two take the lower width, and all three when sigma is 0 |
| Gauss.BoxesForThree | PictureUtils.cs:121 | for three boxes the widths are [2σ−1, 2σ−1, 2σ+1] with σ = abs(sigma), and [1, 1, 1] for sigma 0 |
| Gauss.RadiiOfWidths | PictureUtils.cs:121-124 | the three box radii are (width − 1) / 2 of the three widths |
| Gauss.GaussBlur4 | PictureUtils.cs:119-125 | the destination ends as the three-box blur of the source; the source is left as the intermediate picture |
| Gauss.GaussOfConstant | PictureUtils.cs:119-125 | blurring a uniform channel leaves it uniform with the same value |
| Gauss.GaussSigmaZero | PictureUtils.cs:119-125 | with sigma 0 the blur is the identity |
| Gauss.Plane | PictureUtils.cs:81-87 | the plane of channel c holds that channel of every pixel |
| Gauss.Joined | PictureUtils.cs:101-113 | pixel k of the joined picture is the clamped colour of the four blurred channels at k |
| Gauss.SplitChannels | PictureUtils.cs:81-87 | the four arrays receive the red, green, blue and alpha planes of the source |
| Gauss.ClampJoin | PictureUtils.cs:101-114 | every channel value is clamped into [0, 1] in place, and the destination is the joined colours |
| Gauss.BlurTwo | PictureUtils.cs:95-99 | two channels are blurred exactly as two separate GaussBlur4 calls would blur them |
| Gauss.GaussianBlur | PictureUtils.cs:74-117 | the result is the per-channel Gaussian blur of the picture, clamped |
| Gauss.BlurredInUnitRange | PictureUtils.cs:101-113 | every channel of every blurred pixel lies in [0, 1] |
| Gauss.BlurredOfUniform | PictureUtils.cs:74-117 | a uniform picture of an in-range colour is unchanged by the blur |
| Gauss.BlurredSigmaZero | PictureUtils.cs:74-117 | with sigma 0 the blur only clamps each pixel |
| BoxLines.RunIsWindow | PictureUtils.cs:181-218 | without feedback, the running sum after k steps is the clamped window sum around k, and each output is the scaled window sum around its index |
| BoxLines.BoxLineIsMean | PictureUtils.cs:181-218 | without feedback, output t is the mean of the 2r+1 samples around t, the edges repeating the first and last samples |
| BoxLines.BoxLineOfConstant | PictureUtils.cs:149-218 | with or without feedback, a constant line is mapped to itself |
| BoxLines.BoxLineRadiusZero | PictureUtils.cs:149-218 | with radius 0, with or without feedback, the pass is the identity |
| BoxLines.FeedbackDiffersFromMean | PictureUtils.cs:167-171 | on the line [3, 0, 0, 0] with radius 1, the pass that subtracts blurred output gives 1/3 at index 2, where the window mean is 0 |
| BoxLines.RangeSplit | PictureUtils.cs:159-177 | a window sum splits at any interior point |
| BoxLines.RangeSlide | PictureUtils.cs:167-208 | sliding the window by one adds the entering sample and drops the leaving one |
| BoxLines.InitIsWindow | PictureUtils.cs:157-160 | the initial value (r+1)·first + the first r samples is the clamped window just left of the line |
| BoxLines.Line | PictureUtils.cs:154-158 | the line read from a start and a stride has the requested length (LineAt: entry t is the sample at start + t·stride) |
| BoxLines.Overlay | PictureUtils.cs:164-215 | writing a line back at a start and stride keeps the array length (OverlayOnLine and OverlayOffLine: line positions hold the outputs, every other position is unchanged) |
| BoxLines.SlideLine | PictureUtils.cs:149-218 | one pass over a line of a row or column writes exactly BoxLine of that line into the line positions and leaves the rest of the array as it was |
| BoxBlur.BoxBlurH | PictureUtils.cs:149-179 | every row of the destination becomes the feedback pass of the matching source row |
| BoxBlur.BoxBlurT | PictureUtils.cs:181-218 | every column of the destination becomes the box mean of the matching source column |
| BoxBlur.BoxBlur4 | PictureUtils.cs:142-147 | copies the source, blurs its rows into the source and then its columns into the destination |
| BoxBlur.TPassIsMean | PictureUtils.cs:181-218 | each pixel of the vertical pass is the scaled sum of the 2r+1 pixels around it in its column, with the edges clamped |
| BoxBlur.BoxOfConstant | PictureUtils.cs:142-147 | one box blur maps a uniform picture to itself |
| BoxBlur.BoxRadiusZero | PictureUtils.cs:142-147 | a box blur of radius 0 is the identity |
| Bicubic.Kernel | PictureUtils.cs:220-234 | the kernel is zero at distance two or more |
| Bicubic.KernelEven | PictureUtils.cs:220-222 | the kernel is even |
| Bicubic.KernelAtIntegers | PictureUtils.cs:220-234 | the kernel is 1 at 0 and 0 at ±1 and ±2 (it interpolates) |
| Bicubic.KernelInner | PictureUtils.cs:224-227 | on [0, 1] the Horner form equals 1.5a³ − 2.5a² + 1 |
| Bicubic.KernelOuter | PictureUtils.cs:228-231 | on [1, 2] the Horner form equals −0.5a³ + 2.5a² − 4a + 2 |
| Bicubic.PartitionOfUnity | PictureUtils.cs:246-256 | for a fractional offset in [0, 1) the four weights sum to one |
| Bicubic.WeightAtNegativeHalf | PictureUtils.cs:240-248 | at offset −0.5 the four weights sum to 17/16 |
| Bicubic.WeightBelowZero | PictureUtils.cs:240-256 | for a fraction d in (−1, 0) the four weights sum to 1 − Kernel(2 + d), which is more than 1 |
| Bicubic.OuterNegative | PictureUtils.cs:228-231 | the kernel is negative strictly between distances 1 and 2 |
| Bicubic.AxisWeight | PictureUtils.cs:240-256 | at a non-negative sample position, an axis's four weights sum to 1 from position 1/2 on, and to more than 1 below it |
| Bicubic.Truncate | PictureUtils.cs:241-245 | the cast leaves a fractional part in [0, 1) for non-negative positions and in (−1, 0] for negative ones |
| Bicubic.TruncateVersusFloor | PictureUtils.cs:241 | the cast agrees with floor on non-negative positions and differs at −0.5 |
| Bicubic.ClampIndex | PictureUtils.cs:249-253 | Mathf.Clamp lands in [0, max] and keeps in-range indices |
| Bicubic.Locate | PictureUtils.cs:240-245 | the base index plus the offset is the sample position, and the offset lies strictly between −1 and 1 |
| Bicubic.TapIndex | PictureUtils.cs:249-254 | every tap reads inside the picture |
| Bicubic.SumTaps | PictureUtils.cs:246-256 | the two loops accumulate exactly the sixteen weighted taps |
| Bicubic.Interpolator | PictureUtils.cs:236-259 | returns the bicubic sample Interpolate defines |
| Bicubic.UniformGrid | PictureUtils.cs:246-256 | on a uniform picture the sixteen taps sum to the colour scaled by the product of the row and column weight sums |
| Bicubic.UniformPicture | PictureUtils.cs:236-259 | when both sample positions px·xfactor and py·yfactor are at least 1/2, sampling a uniform picture returns its colour |
| Bicubic.UniformPictureScaled | PictureUtils.cs:236-259 | at non-negative sample positions, a uniform picture's colour comes back scaled by the product of the row and column weight sums; each sum is 1 when its position is at least 1/2 and more than 1 below it |
| Bicubic.UniformPictureAtOrigin | PictureUtils.cs:236-259 | at sample position (0, 0), the bottom-left corner, sampling a uniform picture returns its colour scaled by 289/256 |
| Bicubic.Shrink | PictureUtils.cs:44-61 | fails exactly when floor(width·scaleX)·floor(height·scaleY) is negative, the overflow of a negative array length; otherwise a fresh array of that many pixels. With both new sizes positive, pixel x + y·newWidth is the bicubic sample at (x, y) with factors 1/scale; otherwise every pixel keeps the default colour |
| Bicubic.ShrunkAt | PictureUtils.cs:55-56 | each pixel of the shrunk picture is the sample at its own coordinates |
| Atlas.CellCount | Utils/PictureUtils.cs:19-20 | the whole number of cells that fit along a side (the floor of n / cell) |
| Atlas.SourceIndexInAtlas | Utils/PictureUtils.cs:32-36 | for every cell and every pixel in it, the flipped row index falls inside the atlas, which makes the range guard always pass |
| Atlas.CellAt | Utils/PictureUtils.cs:28-39 | pixel (px, py) of cell (v, h) is the atlas pixel at column h·cw + px of the row counted from the top |
| Atlas.FillCell | Utils/PictureUtils.cs:26-41 | the cell loop copies exactly the cell's pixels and reports it empty exactly when no pixel has alpha above 0.01 |
| Atlas.ExtractByCellSize | Utils/PictureUtils.cs:15-56 | the result lists the non-empty cells, rows from the top of the atlas and cells from left to right |
| Atlas.ExtractedKept | Utils/PictureUtils.cs:22-45 | at most rows · columns cells come out, each of cw·ch pixels with some pixel visible |
| Atlas.VisibleAtlas | Utils/PictureUtils.cs:22-45 | when every pixel is visible every cell is kept |
| Atlas.HiddenAtlas | Utils/PictureUtils.cs:22-45 | when no pixel is visible no cell is kept |
| Atlas.CeilDiv | Utils/PictureUtils.cs:89 | the ceiling of a / b |
| Atlas.Plan | Utils/PictureUtils.cs:61-91 | division by zero exactly when there are no textures or the average cell size is 0; out of range when too many cells; otherwise average cell sizes, a 1024² or 2048-wide atlas, and the cells fit |
| Atlas.Bin | Utils/PictureUtils.cs:71-91 | fails exactly when there are more cells than a 2048² atlas holds; otherwise 1024² when the cells fit there, else 2048 wide and 1024 or 2048 tall, and the cells fit |
| Atlas.SlotInside | Utils/PictureUtils.cs:95-104 | texture j goes to a slot wholly inside the atlas |
| Atlas.SlotsDisjoint | Utils/PictureUtils.cs:95-117 | the slots of two different textures do not overlap |
| Atlas.Blit | Utils/PictureUtils.cs:107-116 | a texture's pixels are copied into its slot, guarded by the index check |
| Atlas.PaintInside | Utils/PictureUtils.cs:111-114 | a pixel of the slot holds the texture's matching pixel |
| Atlas.PaintOutside | Utils/PictureUtils.cs:111-114 | pixels outside the slot are untouched |
| Atlas.Totals | Utils/PictureUtils.cs:62-67 | the loop sums the texture widths and heights |
| Atlas.ChooseLayout | Utils/PictureUtils.cs:69-91 | computes exactly the layout Plan defines, including its errors |
| Atlas.ChooseBin | Utils/PictureUtils.cs:71-91 | computes exactly the size choice Bin defines |
| Atlas.Place | Utils/PictureUtils.cs:94-118 | places every texture in turn, wrapping rows down from the top; fails with an index error when a texture is smaller than a cell |
| Atlas.PackAtlas | Utils/PictureUtils.cs:58-124 | computes exactly the packing Pack defines |
| Atlas.CompositeKeeps | Utils/PictureUtils.cs:94-118 | a texture's pixels survive the textures placed after it |
| Atlas.PackedPixel | Utils/PictureUtils.cs:58-118 | in a successful packing, every pixel of every texture's cell is found in the atlas at that texture's slot |
| Tilemap.ShiftRight | Utils/TilemapUtils.cs:424-428 | the arithmetic right shift agrees with the logical shift on non-negative values |
| Tilemap.LargerPowerOf2 | Utils/TilemapUtils.cs:422-430 | for inputs below 2³⁰ the result is a power of two above the input and at most twice it (1 for 0); 2³⁰..2³¹−1 gives int.MinValue's bits; negatives give 0 |
| Tilemap.LargerPowerOf2Examples | Utils/TilemapUtils.cs:422-430 | 1024 → 2048, 1000 → 1024, 1 → 2 |
| Tilemap.ReadInRange | Utils/TilemapUtils.cs:99-114 | on a shrunk sprite, or on a sprite rectangle inside the colours read with the atlas stride, any pixel that passes the two guards reads inside the tile's colours |
| Tilemap.Sample | Utils/TilemapUtils.cs:96-119 | off the tile the pixel is the clear base colour. On the tile, the read raises exactly when its index lies outside the colours; otherwise it gives the tile's pixel with any positive alpha raised to one |
| Tilemap.RescaledAtlasReadsOutOfRange | Utils/TilemapUtils.cs:66-110 | a 256² atlas rescaled by ShrinkImage to 128² colours, with the sprite rectangle (128, 128, 128, 128) still read in atlas coordinates: cell pixel (127, 127) lies on the tile and reads index 255 + 255·256, past the colours, so the read raises |
| Tilemap.NoReadFails | Utils/TilemapUtils.cs:99-114 | on a shrunk sprite, or on an atlas rectangle inside its colours, no read raises |
| Tilemap.Blend | Utils/TilemapUtils.cs:125-128 | an opaque pixel replaces the canvas colour and a transparent one keeps it |
| Tilemap.ClampOffset | Utils/TilemapUtils.cs:89-90 | negative offsets become 0 and others are kept |
| Tilemap.Step | Utils/TilemapUtils.cs:96-129 | the sample is read first: the step fails exactly when the read raises, or when the target passes the guard `0 <= index < numPixels` but lies past the end of the array; otherwise it changes at most its target index, and nothing when the guard skips the write |
| Tilemap.DrawCell | Utils/TilemapUtils.cs:89-131 | for the guard's pixel count numPixels, given apart from the array as in GenerateTexture and Write2TargetPixels: succeeds exactly when no read or write of the cell raises, and then the canvas ends as the blend of every pixel of the cell, column by column and row by row, for the clamped offsets |
| Tilemap.DrawColumn | Utils/TilemapUtils.cs:94-129 | succeeds exactly when no read or write of the column raises, and then the canvas ends as the blend of the column's pixels, row by row |
| Tilemap.CellPassFails | Utils/TilemapUtils.cs:92-131 | once a read or a write has raised, the rest of the cell pass fails too |
| Tilemap.CellPassSucceeds | Utils/TilemapUtils.cs:92-131 | the cell pass succeeds exactly when, for every pixel of the cell, the read succeeds and a target that passes the guard lies in the array |
| Tilemap.GenerateTextureCellSucceeds | Utils/TilemapUtils.cs:43-44 | when the array holds exactly numPixels pixels, as GenerateTexture's does, a cell pass over a shrunk sprite or an unscaled atlas always succeeds |
| Tilemap.TargetArrayMismatch | Utils/TilemapUtils.cs:348-353 | with a 16 × 16 target (numPixels 256), a write to index 150 of an array of 100 raises, and a write to index 260 of an array of 300 is skipped |
| Tilemap.CellPassUntouched | Utils/TilemapUtils.cs:92-131 | canvas pixels that no cell pixel targets are unchanged |
| Tilemap.CellPassTransparent | Utils/TilemapUtils.cs:92-131 | a fully transparent cell leaves the canvas unchanged when it succeeds, and always succeeds when the array holds numPixels pixels or more |
| Tilemap.CellPassHit | Utils/TilemapUtils.cs:92-131 | a canvas pixel below numPixels, targeted by exactly one visible cell pixel, ends as that pixel |
| Decimal.NatTextValue | xls2lua/xls2lua.py:152 | the decimal text of n is all digits and reads back as n |
| Decimal.NatTextInjective | patchtool/patch.py:117-119 | different versions have different directory names |
| Xls2Lua.Split | xls2lua/xls2lua.py:64 | split gives at least one part and no part contains the separator |
| Xls2Lua.JoinSplit | xls2lua/xls2lua.py:141-158 | joining the parts of a split restores the text |
| Xls2Lua.SplitJoin | xls2lua/xls2lua.py:141-158 | splitting a join of separator-free parts gives the parts back |
| Xls2Lua.UnescapeEscape | xls2lua/xls2lua.py:134 | the quote escaping can be undone, so no text is lost |
| Xls2Lua.QuoteInjective | xls2lua/xls2lua.py:134 | different strings give different Lua string literals |
| Xls2Lua.QuoteLiteral | xls2lua/xls2lua.py:147-151 | the quoted value is "true" or "false" exactly when the value is true or false |
| Xls2Lua.Capitalize | xls2lua/xls2lua.py:183 | the first letter upper-cased and every other letter lower-cased |
| Xls2Lua.CapitalizeIdempotent | xls2lua/xls2lua.py:183 | capitalizing twice is capitalizing once |
| Xls2Lua.TagTwoParts | xls2lua/xls2lua.py:64-70 | a type "t\|client" exports as t and "t\|other" not at all |
| Xls2Lua.TagPlain | xls2lua/xls2lua.py:64-70 | a type without "\|" is kept |
| Xls2Lua.TagMany | xls2lua/xls2lua.py:64-70 | a type with three or more parts is kept whole |
| Xls2Lua.ParseTitleType | xls2lua/xls2lua.py:50-73 | columns up to the first missing type, with keys from the key row and types tagged |
| Xls2Lua.NilIfMissing | xls2lua/xls2lua.py:88-89 | empty cells become the text nil; others are kept |
| Xls2Lua.GetDataByExcel | xls2lua/xls2lua.py:77-92 | a grid of the requested rows and key columns read from row 3 onwards, missing cells as nil |
| Xls2Lua.Entries | xls2lua/xls2lua.py:143-157 | one table entry per part, in order |
| Xls2Lua.EntryIndexed | xls2lua/xls2lua.py:145-153 | a numeric key becomes [k] = "v" |
| Xls2Lua.EntryNamed | xls2lua/xls2lua.py:145-155 | any other key becomes k = "v" |
| Xls2Lua.EntryBoolean | xls2lua/xls2lua.py:148-155 | true and false stay unquoted |
| Xls2Lua.EntryVerbatim | xls2lua/xls2lua.py:156-157 | a part without "=" is copied as it is |
| Xls2Lua.TableOfParts | xls2lua/xls2lua.py:138-158 | a table cell is the braced, comma-joined entries of its parts |
| Xls2Lua.FormatTable | xls2lua/xls2lua.py:138-158 | the loop builds exactly the table text |
| Xls2Lua.RenderCell | xls2lua/xls2lua.py:121-160 | formats one cell by its column type, raising as int(), float() or split would |
| Xls2Lua.RenderEmpty | xls2lua/xls2lua.py:122-137 | an empty cell is false in a bool column and nil in every other |
| Xls2Lua.RenderString | xls2lua/xls2lua.py:132-134 | a string cell becomes a quoted literal that unescapes back to the cell's text |
| Xls2Lua.RenderBool | xls2lua/xls2lua.py:135-137 | a bool cell is false when it says false and its own text otherwise |
| Xls2Lua.ItemsCount | xls2lua/xls2lua.py:117-161 | a row has one item per column that has both a type and a key |
| Xls2Lua.ItemsIgnoreSkipped | xls2lua/xls2lua.py:118-120 | cells of skipped columns never affect the row |
| Xls2Lua.RowKeyChoice | xls2lua/xls2lua.py:162-163 | the row key is int(first cell) when the first column is an int id (row + 1 when that is 0, an error when int() raises), otherwise row + 1 |
| Xls2Lua.RowsExtend | xls2lua/xls2lua.py:164 | each row's text is appended after the earlier rows |
| Xls2Lua.FormatItems | xls2lua/xls2lua.py:116-161 | the column loop builds exactly the items of a row |
| Xls2Lua.FormatRow | xls2lua/xls2lua.py:116-163 | one row's text |
| Xls2Lua.ParseData | xls2lua/xls2lua.py:113-165 | all rows' text, or the first error |
| Xls2Lua.FieldTextLines | xls2lua/xls2lua.py:168-176 | the annotation body is one field line per present key, in order |
| Xls2Lua.FieldsComplete | xls2lua/xls2lua.py:170-175 | every present key gets its field line |
| Xls2Lua.ParseAnnotation | xls2lua/xls2lua.py:168-176 | the loop builds the annotation text |
| Xls2Lua.ModuleStartsWithFileLine | xls2lua/xls2lua.py:185-197 | the module starts with its file-name comment |
| Xls2Lua.ModuleEndsWithReturn | xls2lua/xls2lua.py:196-197 | the module ends with return of the module table |
| Xls2Lua.ModuleHoldsRows | xls2lua/xls2lua.py:187-197 | the row data sits right after the preamble |
| Xls2Lua.GetLuaText | xls2lua/xls2lua.py:180-198 | the module name and text |
| Patch.Normalise | patchtool/patch.py:44 | every backslash becomes a slash and nothing else changes |
| Patch.NewResource | patchtool/patch.py:42-46 | a record keeps the name, size and MD5 and normalises the path |
| Patch.NormalisedPath | patchtool/patch.py:44 | a stored path contains no backslash and normalising it again is a no-op |
| Patch.ResListMembers | patchtool/patch.py:74-84 | listed exactly when a file is not excluded |
| Patch.ResListExcludes | patchtool/patch.py:81-83 | no .json, .exe or .DS_Store entry |
| Patch.GenResList | patchtool/patch.py:74-86 | the loop builds the resource list |
| Patch.LatestIsMaximal | patchtool/patch.py:89-100 | the latest is at least every numeric name |
| Patch.LatestIsFirst | patchtool/patch.py:93-96 | the latest is "0" or the first numeric name with the maximum value |
| Patch.LatestWithoutDigits | patchtool/patch.py:89-100 | "0" when no name is numeric |
| Patch.LatestIgnoresOtherNames | patchtool/patch.py:94 | non-numeric names do not matter |
| Patch.GetLatestVersion | patchtool/patch.py:89-100 | "0" for a missing directory, otherwise the latest numeric name |
| Patch.MergeSize | patchtool/patch.py:126-142 | the merged dictionary has one entry per distinct name |
| Patch.MergeKeepsLast | patchtool/patch.py:126-142 | each entry is the last of its name |
| Patch.Rebuild | patchtool/patch.py:126-127 | merging a distinct list rebuilds it unchanged |
| Patch.Merge | patchtool/patch.py:126-142 | the dictionary update loop |
| Patch.FullDiffContents | patchtool/patch.py:134-142 | the full list holds one resource per name, taken from the highest version holding it |
| Patch.IncrementalIsFull | patchtool/patch.py:122-140 | the incremental branch gives the same list as the full one |
| Patch.OutputsNamed | patchtool/patch.py:117-144 | one file per base, named diff_platform_i_latest |
| Patch.OutputsFail | patchtool/patch.py:117-144 | a run fails exactly when some base's list fails |
| Patch.MergeRange | patchtool/patch.py:136-140 | the full list for a base, or the missing version's error |
| Patch.BuildDiff | patchtool/patch.py:118-142 | one base's difference list |
| Patch.GenDiffs | patchtool/patch.py:117-144 | the difference files of all bases |
| Patch.GenDiffFile | patchtool/patch.py:110-146 | the difference files for the latest version |

## Left out

- Texture and Unity I/O is outside the model: GetPixels/SetPixels, PNG encoding, file writes, AssetDatabase and the progress bar (Utils/TilemapUtils.cs:62-65, 137). Pictures are sequences of colours.
- Floating point is outside the model. Channels and weights are reals, with no float or double rounding, and the `(float)` casts in the blur and sampler are exact.
  - Tilemap.Sample: the sprite rectangle's `rect.x` and `rect.y` are floats inside `(int)(sx + rect.x)` (Utils/TilemapUtils.cs:108-109). The model's rectangle has integer corners, so it covers whole-pixel rectangles only.
- WriteSingle, WriteDouble, ReadSingle and ReadDouble are not modelled: they reinterpret IEEE bits, which the model does not have.
- Parallel.For and Parallel.Invoke are outside the model. The model runs their bodies in one fixed order: column by column, and within a column row by row.
  - In grayscale, negation, the blur passes, the bicubic shrink and the atlas copy, each iteration writes its own indices and reads nothing another writes, within the preconditions of the model. There the order does not change the result.
  - Tilemap.DrawCell: this does not hold for the tilemap cell pass. Target adds no check per column, so when cellWidth is larger than the image width a column wraps into the next row. Two cell pixels can then target the same output pixel, and the parallel iterations race on it. Blend is not commutative, so the result depends on their order. The model states one order only.
- ByteStreams.ByteStream.EnsureCapacity: the model does not represent the 32-bit overflow of `(length << 1) + 1` or of the cursor; lengths are unbounded naturals.
- Bicubic.Shrink: a negative width or height, and a pixel array shorter than width·height, are outside its precondition. In the code both make the sampler read outside the array.
- Atlas.ExtractByCellSize: cell sizes of 0 or less are outside its precondition. The float division at Utils/PictureUtils.cs:19-20 then gives an infinity or NaN, and the int value FloorToInt makes of that depends on the platform.
- Tilemap.DrawCell: the picture left after a read or a write raises is not stated. The exception leaves GenerateTexture or Write2TargetPixels, and the state of a partly drawn array is not part of what either promises.
- Write2TargetPixels itself (Utils/TilemapUtils.cs:255-357) is modelled only through its cell loop, Tilemap.DrawCell with its own numPixels. Its bounds and pixel-size arithmetic are the same world geometry as GenerateTexture's, which is left out below.
- ByteStreams.ByteStream.WriteBytes and WriteString: partial writes are not modelled. This includes a stream left half-written by an exception.
- Strings are byte sequences; UTF-8 encoding and decoding are not modelled.
- Gauss.BoxesForGauss: the 32-bit overflow of `12 * sigma * sigma` (PictureUtils.cs:129 and 134) for abs(sigma) of 13378 or more is not modelled; the model's integers are unbounded. Under the blur's precondition that size arises only on pictures of at least 26757² pixels.
- BoxBlur.BoxBlurH, BoxBlur.BoxBlurT, BoxBlur.BoxBlur4 and Gauss.GaussianBlur: box blurs of rows or columns shorter than 2r+1 are not modelled (BoxBlur.Fits requires the length, and Gauss.GaussianBlur requires both sides to be at least 2·|sigma| + 1). In the code such a pass reads past its row, or writes into a neighbouring one.
- GetTilemapBoundsInWorld, the world-to-pixel geometry of a cell, ShrinkImage and ShrinkSprite are outside the model (Utils/TilemapUtils.cs:394-420 and 432-440). A tile is given by its colours and sizes. Pixel offsets are inputs.
  - When ShrinkImage has rescaled the atlas, the colours can be smaller than the sprite rectangle read with the atlas stride. The read then raises in the code, and Tilemap.Sample fails the same way (Tilemap.RescaledAtlasReadsOutOfRange).
- `findAllFile`, `parseExcel`, `writeFile`, `writeToLua` and `main` of xls2lua are not modelled: they list directories, open workbooks and write files. The `findAllFile` recursion at line 42 passes the wrong number of arguments.
- Xls2Lua.Capitalize, Patch.LatestOf and Patch.GetLatestVersion: `capitalize` and `isdigit` are modelled on ASCII only. Python's `isdigit` also accepts other digit characters such as "²", on which the following `int()` raises (patchtool/patch.py:94-95); the model treats such a name as not numeric.
- Xls2Lua.RenderCell: Python's `int()` and `float()` are parameters, not reimplemented.
- Xls2Lua: the branch at xls2lua.py:159-160 is dead, since a split always yields a part, and is not modelled.
- `get_md5`, `writefile`, `call_unity`, the JSON files and the rename of the temp directory in `patch` are not modelled; hashes and file lists are inputs.
- Patch.GenDiffs: the code writes each base's file inside the loop (patch.py:143-144). An error at base k therefore leaves the files of all earlier bases on disk. The model returns only the error, not that partial output.
- `modify_version_file` and the always-true `os.path.exists` test at patch.py:166 are not modelled.
- Patch.GenDiffFile does not model the regeneration of missing resource lists at patch.py:114-116. The lists are taken as given.
