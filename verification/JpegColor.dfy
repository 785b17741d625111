/** From pixels to the samples of one MCU: colour conversion, and chroma sums over squares of four pixels. */
module JpegColor {
  import opened Fdct
  import opened FdctBounds

  /** The image as WriteImage is given it: rows `step` apart, pixels `channels` apart, blue first. */
  datatype Image = Image(data: seq<nat>, step: nat, width: nat, height: nat, channels: nat)
  {
    predicate Color() { channels > 1 }

    predicate InData(row: nat, col: nat, c: nat) { row * step + col * channels + c < |data| }

    ghost predicate Valid() {
      && channels > 0 && (forall k :: 0 <= k < |data| ==> data[k] < 256)
      && forall row: nat, col: nat, c: nat ::
           row < height && col < width && c < (if Color() then 3 else 1) ==> InData(row, col, c)
    }

    function At(row: nat, col: nat, c: nat): nat
      requires InData(row, col, c)
    {
      data[row * step + col * channels + c]
    }

    /** Pixels of the source that are in the image. */
    predicate Has(row: nat, col: nat) { row < height && col < width }
  }

  // fix(x, fixc) of the conversion coefficients
  const Y_R: int := 1225
  const Y_G: int := 2404
  const Y_B: int := 467
  const CB_R: int := -691
  const CB_G: int := -1357
  const CB_B: int := 2048
  const CR_R: int := 2048
  const CR_G: int := -1715
  const CR_B: int := -333

  /** descale with a shift of 10. */
  function Descale10(x: int): int { (x + 512) / 1024 }

  function YOf(r: int, g: int, b: int): int { Descale10(r * Y_R + g * Y_G + b * Y_B) - 512 }

  function CbOf(r: int, g: int, b: int): int { Descale10(r * CB_R + g * CB_G + b * CB_B) }

  function CrOf(r: int, g: int, b: int): int { Descale10(r * CR_R + g * CR_G + b * CR_B) }

  lemma ConversionBounds(r: int, g: int, b: int)
    requires 0 <= r < 256 && 0 <= g < 256 && 0 <= b < 256
    ensures -512 <= YOf(r, g, b) <= 508 && -510 <= CbOf(r, g, b) <= 510 && -510 <= CrOf(r, g, b) <= 510
  {
  }

  // ---------- one pixel ----------

  datatype Plane = PlaneY | PlaneU | PlaneV

  /** What a pixel contributes to a plane: luma, or one of the two chroma values. */
  function PixelValue(img: Image, p: Plane, row: nat, col: nat): int
    requires img.Valid() && img.Has(row, col)
  {
    if !img.Color() then (Gray(img, row, col) * 4) - 512
    else
      var (r, g, b) := Rgb(img, row, col);
      match p
      case PlaneY => YOf(r, g, b)
      case PlaneU => CbOf(r, g, b)
      case PlaneV => CrOf(r, g, b)
  }

  function Gray(img: Image, row: nat, col: nat): nat
    requires img.Valid() && img.Has(row, col)
  {
    assert img.InData(row, col, 0);
    img.At(row, col, 0)
  }

  function Rgb(img: Image, row: nat, col: nat): (nat, nat, nat)
    requires img.Valid() && img.Has(row, col) && img.Color()
  {
    assert img.InData(row, col, 0) && img.InData(row, col, 1) && img.InData(row, col, 2);
    (img.At(row, col, 2), img.At(row, col, 1), img.At(row, col, 0))
  }

  lemma ValueBounds(img: Image, p: Plane, row: nat, col: nat)
    requires img.Valid() && img.Has(row, col)
    ensures p.PlaneY? ==> -512 <= PixelValue(img, p, row, col) <= 508
    ensures !p.PlaneY? && img.Color() ==> -510 <= PixelValue(img, p, row, col) <= 510
  {
    hide YOf, CbOf, CrOf;
    if img.Color() {
      assert img.InData(row, col, 0) && img.InData(row, col, 1) && img.InData(row, col, 2);
      ConversionBounds(img.At(row, col, 2), img.At(row, col, 1), img.At(row, col, 0));
    } else {
      assert img.InData(row, col, 0);
    }
  }

  // ---------- the samples of an MCU ----------

  /** Pixel (a, b) of the MCU comes before pixel (i, j) in the loops. */
  predicate Before(a: nat, b: nat, i: nat, j: nat) { a < i || (a == i && b < j) }

  /** What pixel (a, b) of the MCU at (y, x) has contributed when the loops reach (i, j). */
  function Part(img: Image, p: Plane, y: nat, x: nat, i: nat, j: nat, a: nat, b: nat): int
    requires img.Valid()
  {
    if Before(a, b, i, j) && img.Has(y + a, x + b) then PixelValue(img, p, y + a, x + b) else 0
  }

  /** A chroma sample is the sum over a square of four pixels. */
  function Square(img: Image, p: Plane, y: nat, x: nat, i: nat, j: nat, a: nat, b: nat): int
    requires img.Valid()
  {
    Part(img, p, y, x, i, j, a, b) + Part(img, p, y, x, i, j, a, b + 1)
    + Part(img, p, y, x, i, j, a + 1, b) + Part(img, p, y, x, i, j, a + 1, b + 1)
  }

  /** Cell n of the sample buffer: for colour sixteen rows of sixteen luma samples, then eight rows of eight samples of
      each chroma plane side by side; for gray eight rows of eight. */
  function Cell(img: Image, y: nat, x: nat, i: nat, j: nat, n: nat): int
    requires img.Valid()
  {
    if !img.Color() then (if n < 64 then Part(img, PlaneY, y, x, i, j, n / 8, n % 8) else 0)
    else if n < 256 then Part(img, PlaneY, y, x, i, j, n / 16, n % 16)
    else
      var r, c := (n - 256) / 16, (n - 256) % 16;
      if c < 8 then Square(img, PlaneU, y, x, i, j, 2 * r, 2 * c) else Square(img, PlaneV, y, x, i, j, 2 * r, 2 * (c - 8))
  }

  /** The whole buffer. */
  function Mcu(img: Image, y: nat, x: nat): (v: seq<int>)
    requires img.Valid()
    ensures |v| == 384
  {
    seq(384, n requires 0 <= n < 384 => Cell(img, y, x, 16, 0, n))
  }

  /** Rows and columns of the MCU that are in the image. */
  function Limit(at: nat, size: nat, extent: nat): nat {
    if at >= extent then 0 else if at + size > extent then extent - at else size
  }

  /** Size of an MCU in pixels. */
  function Side(img: Image): nat { if img.Color() then 16 else 8 }

  lemma PartStep(img: Image, p: Plane, y: nat, x: nat, i: nat, j: nat, a: nat, b: nat)
    requires img.Valid() && img.Has(y + i, x + j)
    ensures Part(img, p, y, x, i, j + 1, a, b) ==
      Part(img, p, y, x, i, j, a, b) + if a == i && b == j then PixelValue(img, p, y + i, x + j) else 0
  {
    hide PixelValue;
  }

  lemma SquareStep(img: Image, p: Plane, y: nat, x: nat, i: nat, j: nat, r: nat, c: nat)
    requires img.Valid() && img.Has(y + i, x + j)
    ensures Square(img, p, y, x, i, j + 1, 2 * r, 2 * c) ==
      Square(img, p, y, x, i, j, 2 * r, 2 * c) + if r == i / 2 && c == j / 2 then PixelValue(img, p, y + i, x + j) else 0
  {
    hide Part, PixelValue;
    PartStep(img, p, y, x, i, j, 2 * r, 2 * c);
    PartStep(img, p, y, x, i, j, 2 * r, 2 * c + 1);
    PartStep(img, p, y, x, i, j, 2 * r + 1, 2 * c);
    PartStep(img, p, y, x, i, j, 2 * r + 1, 2 * c + 1);
  }

  /** One pixel changes one luma sample and one sample of each chroma plane. */
  lemma ColorStep(img: Image, y: nat, x: nat, i: nat, j: nat, n: nat)
    requires img.Valid() && img.Color() && img.Has(y + i, x + j) && i < 16 && j < 16 && n < 384
    ensures var u := 256 + 16 * (i / 2) + j / 2;
      Cell(img, y, x, i, j + 1, n) == Cell(img, y, x, i, j, n) +
        if n == 16 * i + j then PixelValue(img, PlaneY, y + i, x + j)
        else if n == u then PixelValue(img, PlaneU, y + i, x + j)
        else if n == u + 8 then PixelValue(img, PlaneV, y + i, x + j)
        else 0
  {
    hide Part, Square, PixelValue;
    if n < 256 {
      PartStep(img, PlaneY, y, x, i, j, n / 16, n % 16);
    } else {
      var r, c := (n - 256) / 16, (n - 256) % 16;
      if c < 8 { SquareStep(img, PlaneU, y, x, i, j, r, c); } else { SquareStep(img, PlaneV, y, x, i, j, r, c - 8); }
    }
  }

  lemma GrayStep(img: Image, y: nat, x: nat, i: nat, j: nat, n: nat)
    requires img.Valid() && !img.Color() && img.Has(y + i, x + j) && i < 8 && j < 8 && n < 384
    ensures Cell(img, y, x, i, j + 1, n) ==
      Cell(img, y, x, i, j, n) + if n == 8 * i + j then PixelValue(img, PlaneY, y + i, x + j) else 0
  {
    hide Part, PixelValue;
    if n < 64 { PartStep(img, PlaneY, y, x, i, j, n / 8, n % 8); }
  }

  lemma PartAtRowEnd(img: Image, p: Plane, y: nat, x: nat, i: nat, size: nat, a: nat, b: nat)
    requires img.Valid() && b < size
    ensures Part(img, p, y, x, i, Limit(x, size, img.width), a, b) == Part(img, p, y, x, i + 1, 0, a, b)
  {
    hide PixelValue;
  }

  lemma CellAtRowEnd(img: Image, y: nat, x: nat, i: nat, n: nat)
    requires img.Valid() && n < 384
    ensures Cell(img, y, x, i, Limit(x, Side(img), img.width), n) == Cell(img, y, x, i + 1, 0, n)
  {
    hide Part, Limit;
    if !img.Color() {
      if n < 64 { PartAtRowEnd(img, PlaneY, y, x, i, 8, n / 8, n % 8); }
    } else if n < 256 {
      PartAtRowEnd(img, PlaneY, y, x, i, 16, n / 16, n % 16);
    } else {
      var r, c := (n - 256) / 16, (n - 256) % 16;
      var p, b := if c < 8 then PlaneU else PlaneV, if c < 8 then 2 * c else 2 * (c - 8);
      PartAtRowEnd(img, p, y, x, i, 16, 2 * r, b);
      PartAtRowEnd(img, p, y, x, i, 16, 2 * r, b + 1);
      PartAtRowEnd(img, p, y, x, i, 16, 2 * r + 1, b);
      PartAtRowEnd(img, p, y, x, i, 16, 2 * r + 1, b + 1);
    }
  }

  lemma CellAtStart(img: Image, y: nat, x: nat, n: nat)
    requires img.Valid() && n < 384
    ensures Cell(img, y, x, 0, 0, n) == 0
  {
    hide PixelValue;
  }

  lemma PartAtEnd(img: Image, p: Plane, y: nat, x: nat, size: nat, a: nat, b: nat)
    requires img.Valid() && a < size <= 16
    ensures Part(img, p, y, x, Limit(y, size, img.height), 0, a, b) == Part(img, p, y, x, 16, 0, a, b)
  {
    hide PixelValue;
  }

  lemma CellAtEnd(img: Image, y: nat, x: nat, n: nat)
    requires img.Valid() && n < 384
    ensures Cell(img, y, x, Limit(y, Side(img), img.height), 0, n) == Cell(img, y, x, 16, 0, n)
  {
    hide Part, Limit;
    if !img.Color() {
      if n < 64 { PartAtEnd(img, PlaneY, y, x, 8, n / 8, n % 8); }
    } else if n < 256 {
      PartAtEnd(img, PlaneY, y, x, 16, n / 16, n % 16);
    } else {
      var r, c := (n - 256) / 16, (n - 256) % 16;
      var p, b := if c < 8 then PlaneU else PlaneV, if c < 8 then 2 * c else 2 * (c - 8);
      PartAtEnd(img, p, y, x, 16, 2 * r, b);
      PartAtEnd(img, p, y, x, 16, 2 * r, b + 1);
      PartAtEnd(img, p, y, x, 16, 2 * r + 1, b);
      PartAtEnd(img, p, y, x, 16, 2 * r + 1, b + 1);
    }
  }

  // ---------- the loops ----------

  ghost predicate Reached(block: seq<int>, img: Image, y: nat, x: nat, i: nat, j: nat)
    requires img.Valid()
  {
    |block| == 384 && forall n :: 0 <= n < 384 ==> block[n] == Cell(img, y, x, i, j, n)
  }

  /** The body of the colour loop. */
  method AddPixel(img: Image, y: nat, x: nat, i: nat, j: nat, block: array<int>)
    requires img.Valid() && img.Color() && img.Has(y + i, x + j) && i < 16 && j < 16
    requires Reached(block[..], img, y, x, i, j)
    modifies block
    ensures Reached(block[..], img, y, x, i, j + 1)
  {
    hide Cell, YOf, CbOf, CrOf;
    assert img.InData(y + i, x + j, 0) && img.InData(y + i, x + j, 1) && img.InData(y + i, x + j, 2);
    var r, g, b := img.At(y + i, x + j, 2), img.At(y + i, x + j, 1), img.At(y + i, x + j, 0);
    CellsThere(i, j);
    var u := 256 + 16 * (i / 2) + j / 2;
    NotYetSeen(img, y, x, i, j);
    ghost var was := block[..];
    block[16 * i + j] := YOf(r, g, b);
    block[u] := block[u] + CbOf(r, g, b);
    block[u + 8] := block[u + 8] + CrOf(r, g, b);
    forall n | 0 <= n < 384 ensures block[n] == Cell(img, y, x, i, j + 1, n) {
      ColorStep(img, y, x, i, j, n);
      assert was[n] == Cell(img, y, x, i, j, n);
    }
  }

  lemma CellsThere(i: nat, j: nat)
    requires i < 16 && j < 16
    ensures 16 * i + j < 256 && 256 + 16 * (i / 2) + j / 2 + 8 < 384
  {
  }

  lemma NotYetSeen(img: Image, y: nat, x: nat, i: nat, j: nat)
    requires img.Valid() && img.Color() && i < 16 && j < 16
    ensures Cell(img, y, x, i, j, 16 * i + j) == 0
  {
    hide PixelValue;
    assert (16 * i + j) / 16 == i && (16 * i + j) % 16 == j;
  }

  /** Conversion of the colour pixels of one MCU; the buffer has been cleared. */
  method FillColor(img: Image, y: nat, x: nat, block: array<int>)
    requires img.Valid() && img.Color() && y < img.height && x < img.width
    requires block.Length == 384 && forall n :: 0 <= n < 384 ==> block[n] == 0
    modifies block
    ensures block[..] == Mcu(img, y, x)
  {
    hide Cell, Image.Valid;
    var xLimit, yLimit := Limit(x, 16, img.width), Limit(y, 16, img.height);
    forall n | 0 <= n < 384 ensures block[n] == Cell(img, y, x, 0, 0, n) { CellAtStart(img, y, x, n); }
    var i := 0;
    while i < yLimit
      invariant 0 <= i <= yLimit && Reached(block[..], img, y, x, i, 0)
    {
      var j := 0;
      while j < xLimit
        invariant 0 <= j <= xLimit && Reached(block[..], img, y, x, i, j)
      {
        AddPixel(img, y, x, i, j, block);
        j := j + 1;
      }
      forall n | 0 <= n < 384 ensures block[n] == Cell(img, y, x, i + 1, 0, n) { CellAtRowEnd(img, y, x, i, n); }
      i := i + 1;
    }
    forall n | 0 <= n < 384 ensures block[n] == Cell(img, y, x, 16, 0, n) { CellAtEnd(img, y, x, n); }
  }

  /** The same for grayscale. */
  method FillGray(img: Image, y: nat, x: nat, block: array<int>)
    requires img.Valid() && !img.Color() && y < img.height && x < img.width
    requires block.Length == 384 && forall n :: 0 <= n < 384 ==> block[n] == 0
    modifies block
    ensures block[..] == Mcu(img, y, x)
  {
    hide Cell, Image.Valid;
    var xLimit, yLimit := Limit(x, 8, img.width), Limit(y, 8, img.height);
    forall n | 0 <= n < 384 ensures block[n] == Cell(img, y, x, 0, 0, n) { CellAtStart(img, y, x, n); }
    var i := 0;
    while i < yLimit
      invariant 0 <= i <= yLimit && Reached(block[..], img, y, x, i, 0)
    {
      var j := 0;
      while j < xLimit
        invariant 0 <= j <= xLimit && Reached(block[..], img, y, x, i, j)
      {
        SetGray(img, y, x, i, j, block);
        j := j + 1;
      }
      forall n | 0 <= n < 384 ensures block[n] == Cell(img, y, x, i + 1, 0, n) { CellAtRowEnd(img, y, x, i, n); }
      i := i + 1;
    }
    forall n | 0 <= n < 384 ensures block[n] == Cell(img, y, x, 16, 0, n) { CellAtEnd(img, y, x, n); }
  }

  method SetGray(img: Image, y: nat, x: nat, i: nat, j: nat, block: array<int>)
    requires img.Valid() && !img.Color() && img.Has(y + i, x + j) && i < 8 && j < 8
    requires Reached(block[..], img, y, x, i, j)
    modifies block
    ensures Reached(block[..], img, y, x, i, j + 1)
  {
    hide Cell;
    assert img.InData(y + i, x + j, 0);
    GrayNotYetSeen(img, y, x, i, j);
    ghost var was := block[..];
    block[8 * i + j] := img.At(y + i, x + j, 0) * 4 - 512;
    forall n | 0 <= n < 384 ensures block[n] == Cell(img, y, x, i, j + 1, n) {
      GrayStep(img, y, x, i, j, n);
      assert was[n] == Cell(img, y, x, i, j, n);
    }
  }

  lemma GrayNotYetSeen(img: Image, y: nat, x: nat, i: nat, j: nat)
    requires img.Valid() && !img.Color() && i < 8 && j < 8
    ensures 8 * i + j < 64 && Cell(img, y, x, i, j, 8 * i + j) == 0
  {
    hide PixelValue;
    assert (8 * i + j) / 8 == i && (8 * i + j) % 8 == j;
  }

  /** One MCU: cleared, then filled. */
  method FillMcu(img: Image, y: nat, x: nat, block: array<int>)
    requires img.Valid() && y < img.height && x < img.width && block.Length == 384
    modifies block
    ensures block[..] == Mcu(img, y, x)
  {
    hide Image.Valid;
    var n := 0;
    while n < 384
      invariant 0 <= n <= 384 && forall k :: 0 <= k < n ==> block[k] == 0
    {
      block[n] := 0;
      n := n + 1;
    }
    if img.Color() {
      FillColor(img, y, x, block);
    } else {
      FillGray(img, y, x, block);
    }
  }

  // ---------- blocks ----------

  /** Four luma blocks and two chroma blocks, or one luma block. */
  function LumaCount(img: Image): nat { if img.Color() then 4 else 1 }

  function BlockCount(img: Image): nat { if img.Color() then 6 else 1 }

  /** Where block i starts in the buffer, and how far apart its rows are. */
  function BlockBase(i: nat): nat { (i - i % 2) * 64 + i % 2 * 8 }

  function BlockStep(img: Image): nat { Side(img) }

  lemma BlockRows(img: Image, i: nat)
    requires i < BlockCount(img)
    ensures RowsIn(384, BlockBase(i), BlockStep(img))
  {
    forall r | 0 <= r < 8 ensures RowAt(BlockBase(i), BlockStep(img), r) + 8 <= 384 { RowStarts(BlockBase(i), BlockStep(img), r); }
  }

  lemma {:induction false} RowStarts(base: nat, step: nat, r: nat)
    requires r < 8 && (step == 8 || step == 16)
    ensures RowAt(base, step, r) == base + step * r
  {
    if r > 0 { RowStarts(base, step, r - 1); }
  }

  /** The samples of block i. */
  function BlockSamples(img: Image, y: nat, x: nat, i: nat): (v: seq<int>)
    requires img.Valid() && i < BlockCount(img)
    ensures |v| == 64
  {
    BlockRows(img, i);
    Samples(Mcu(img, y, x), BlockBase(i), BlockStep(img))
  }

  lemma PartBounds(img: Image, p: Plane, y: nat, x: nat, i: nat, j: nat, a: nat, b: nat)
    requires img.Valid()
    ensures p.PlaneY? ==> -512 <= Part(img, p, y, x, i, j, a, b) <= 508
    ensures !p.PlaneY? && img.Color() ==> -510 <= Part(img, p, y, x, i, j, a, b) <= 510
  {
    hide PixelValue, Image.Valid;
    if img.Has(y + a, x + b) { ValueBounds(img, p, y + a, x + b); }
  }

  lemma CellBounds(img: Image, y: nat, x: nat, n: nat)
    requires img.Valid() && n < 384
    ensures n < 256 ==> -512 <= Cell(img, y, x, 16, 0, n) <= 508
    ensures n >= 256 ==> -2040 <= Cell(img, y, x, 16, 0, n) <= 2040
  {
    hide Part, Image.Valid;
    if !img.Color() {
      if n < 64 { PartBounds(img, PlaneY, y, x, 16, 0, n / 8, n % 8); }
    } else if n < 256 {
      PartBounds(img, PlaneY, y, x, 16, 0, n / 16, n % 16);
    } else {
      var r, c := (n - 256) / 16, (n - 256) % 16;
      var p, b := if c < 8 then PlaneU else PlaneV, if c < 8 then 2 * c else 2 * (c - 8);
      PartBounds(img, p, y, x, 16, 0, 2 * r, b);
      PartBounds(img, p, y, x, 16, 0, 2 * r, b + 1);
      PartBounds(img, p, y, x, 16, 0, 2 * r + 1, b);
      PartBounds(img, p, y, x, 16, 0, 2 * r + 1, b + 1);
    }
  }

  /** Luma samples count once, chroma samples four times. */
  lemma BlockInRange(img: Image, y: nat, x: nat, i: nat)
    requires img.Valid() && i < BlockCount(img)
    ensures Samples8x8(BlockSamples(img, y, x, i), if i < LumaCount(img) then 1 else 4)
  {
    hide Cell, Image.Valid;
    BlockRows(img, i);
    var v, count := BlockSamples(img, y, x, i), if i < LumaCount(img) then 1 else 4;
    var lo, hi := if count == 1 then -512 else -2040, if count == 1 then 508 else 2040;
    forall n | 0 <= n < 64 ensures lo <= v[n] <= hi {
      RowStarts(BlockBase(i), BlockStep(img), n / 8);
      var k := RowAt(BlockBase(i), BlockStep(img), n / 8) + n % 8;
      BlockCells(img, i, n / 8, n % 8);
      CellBounds(img, y, x, k);
    }
    assert Spread(lo, hi, count) && Within(v, lo, hi);
  }

  lemma BlockCells(img: Image, i: nat, r: nat, c: nat)
    requires i < BlockCount(img) && r < 8 && c < 8
    ensures i < LumaCount(img) <==> BlockBase(i) + BlockStep(img) * r + c < 256
  {
  }
}
