/** WriteImage from the pixels to the EOI marker: sampling, transform, quantization and entropy coding of every MCU. */
module SimpleJpeg {
  import opened Prelude
  import opened Bits
  import opened BitStream
  import opened HuffmanTables
  import opened JpegBlock
  import opened JpegTables
  import opened JpegScan
  import opened JpegReading
  import opened StandardTables
  import opened Fdct
  import opened FdctBounds
  import opened JpegColor
  import opened JpegQuant

  /** The encode tables bsCreateEncodeHuffmanTable builds for one component class. */
  datatype Coder = Coder(dc: seq<int>, ac: seq<int>)

  ghost predicate CoderFor(c: Coder, t: Tables) {
    Complete(t) && EncodeTable(c.dc, t.dc) && EncodeTable(c.ac, t.ac)
  }

  /** Writing a string of bits moves it from what remains into the stream. */
  lemma Moved(before: Sink, after: Sink, bits: seq<bool>, rest: seq<bool>, all: seq<bool>)
    requires after == PutAll(before, bits) && all == bits + rest
    ensures PutAll(after, rest) == PutAll(before, all)
  {
    PutAllConcat(before, bits, rest);
  }

  /** PutHuff of a symbol the table is known to have. */
  method PutSymbol(s: WorstStreamEver, ghost h: Spec, val: int, table: seq<int>)
    requires ValidSpec(h) && EncodeTable(table, h) && val >= 0 && val in h.vals && s.Valid()
    modifies s, s.putbuf, s.memory
    ensures s.Valid() && s.Contents() == PutAll(old(s.Contents()), HuffBits(h, val))
  {
    PutHuff(s, h, val, table, IndexOf(h.vals, val));
  }

  /** A Huffman code followed by the additional bits of the value. */
  method PutCoded(s: WorstStreamEver, ghost h: Spec, run: nat, val: int, table: seq<int>)
    requires ValidSpec(h) && EncodeTable(table, h) && Symbol(run, Category(val)) in h.vals && Category(val) < 32 && s.Valid()
    modifies s, s.putbuf, s.memory
    ensures s.Valid() && s.Contents() == PutAll(old(s.Contents()), HuffBits(h, Symbol(run, Category(val))) + Magnitude(val))
  {
    hide EncodeTable, HuffBits, Category;
    var cat := Category(val);
    PutSymbol(s, h, Symbol(run, cat), table);
    s.Put(val - (if val < 0 then 1 else 0), cat);
    PutAllConcat(old(s.Contents()), HuffBits(h, Symbol(run, cat)), Magnitude(val));
  }

  lemma ZeroRunMoved(before: Sink, after: Sink, h: Spec, zz: seq<int>, j: nat, run: nat)
    requires AcComplete(h) && AcCodable(zz) && 1 <= j < 64 && zz[j] != 0 && run >= 16
    requires after == PutAll(before, HuffBits(h, 0xF0))
    ensures PutAll(after, AcBits(h, zz, j, run - 16)) == PutAll(before, AcBits(h, zz, j, run))
  {
    hide HuffBits, AcCodable, PutAll;
    Moved(before, after, HuffBits(h, 0xF0), AcBits(h, zz, j, run - 16), AcBits(h, zz, j, run));
  }

  lemma RunSymbols(h: Spec)
    requires AcComplete(h)
    ensures ValidSpec(h) && 0x00 in h.vals && 0xF0 in h.vals
  {
  }

  /** Sixteen zeros at a time. */
  method PutZeroRuns(s: WorstStreamEver, ghost h: Spec, ghost zz: seq<int>, ghost j: nat, run0: nat, table: seq<int>)
    returns (run: nat)
    requires AcComplete(h) && EncodeTable(table, h) && AcCodable(zz) && 1 <= j < 64 && zz[j] != 0 && s.Valid()
    modifies s, s.putbuf, s.memory
    ensures s.Valid() && run < 16
    ensures PutAll(s.Contents(), AcBits(h, zz, j, run)) == PutAll(old(s.Contents()), AcBits(h, zz, j, run0))
  {
    hide EncodeTable, AcCodable, AcComplete, AcBits, HuffBits, PutAll;
    RunSymbols(h);
    run := run0;
    while run >= 16
      invariant run >= 0 && s.Valid()
      invariant PutAll(s.Contents(), AcBits(h, zz, j, run)) == PutAll(old(s.Contents()), AcBits(h, zz, j, run0))
    {
      ghost var before := s.Contents();
      PutSymbol(s, h, 0xF0, table);
      ZeroRunMoved(before, s.Contents(), h, zz, j, run);
      run := run - 16;
    }
  }

  method PutCoef(s: WorstStreamEver, ghost h: Spec, run: nat, val: int, table: seq<int>)
    requires AcComplete(h) && EncodeTable(table, h) && val != 0 && run < 16 && Category(val) <= 10 && s.Valid()
    modifies s, s.putbuf, s.memory
    ensures s.Valid() && s.Contents() == PutAll(old(s.Contents()), CoefBits(h, val, run))
  {
    CategoryPositive(val);
    PutCoded(s, h, run, val, table);
  }

  /** One round of the loop over the AC coefficients. */
  method PutAt(s: WorstStreamEver, ghost h: Spec, ghost zz: seq<int>, j: nat, val: int, run0: nat, table: seq<int>)
    returns (run: nat)
    requires AcComplete(h) && EncodeTable(table, h) && AcCodable(zz) && 1 <= j < 64 && zz[j] == val && s.Valid()
    modifies s, s.putbuf, s.memory
    ensures s.Valid()
    ensures PutAll(s.Contents(), AcBits(h, zz, j + 1, run)) == PutAll(old(s.Contents()), AcBits(h, zz, j, run0))
  {
    hide EncodeTable, AcComplete, HuffBits, Category, CoefBits;
    run := run0;
    if val == 0 {
      run := run + 1;
    } else {
      run := PutZeroRuns(s, h, zz, j, run, table);
      ghost var before := s.Contents();
      PutCoef(s, h, run, val, table);
      Moved(before, s.Contents(), CoefBits(h, val, run), AcBits(h, zz, j + 1, 0), AcBits(h, zz, j, run));
      run := 0;
    }
  }

  method WriteAc(s: WorstStreamEver, ghost h: Spec, buffer: seq<int>, table: seq<int>)
    requires AcComplete(h) && EncodeTable(table, h) && |buffer| == 64 && AcCodable(Zigzagged(buffer)) && s.Valid()
    modifies s, s.putbuf, s.memory
    ensures s.Valid() && s.Contents() == PutAll(old(s.Contents()), AcBits(h, Zigzagged(buffer), 1, 0))
  {
    hide EncodeTable, HuffBits, AcCodable, PutAll;
    ghost var zz, before := Zigzagged(buffer), s.Contents();
    var run, j := 0, 1;
    while j < 64
      invariant 1 <= j <= 64 && run >= 0 && s.Valid()
      invariant PutAll(s.Contents(), AcBits(h, zz, j, run)) == PutAll(before, AcBits(h, zz, 1, 0))
    {
      run := PutAt(s, h, zz, j, buffer[Zigzag(j)], run, table);
      j := j + 1;
    }
    if run > 0 {
      PutSymbol(s, h, 0x00, table);
    } else {
      PutNothing(s.Contents());
    }
  }

  lemma PutNothing(s: Sink)
    ensures PutAll(s, []) == s
  {
  }

  /** The component of block i of an MCU: luma blocks first, then one block for each chroma component. */
  function CompOf(i: nat, lumaCount: nat): nat {
    (if i >= lumaCount then 1 else 0) + (if i > lumaCount then 1 else 0)
  }

  /** The post-scale tables for luma and for chroma blocks. */
  datatype Factors = Factors(luma: seq<int>, chroma: seq<int>)
  {
    predicate Valid() { |luma| == |chroma| == 64 }

    /** Small enough for the samples they are applied to. */
    predicate Small() { Postscale(luma, 1) && Postscale(chroma, 4) }

    function For(chromaBlock: bool): (t: seq<int>)
      requires Valid()
      ensures |t| == 64
    {
      if chromaBlock then chroma else luma
    }
  }

  /** Block i of the MCU at (y, x), quantized. */
  function BlockAt(img: Image, f: Factors, y: nat, x: nat, i: nat): (block: seq<int>)
    requires img.Valid() && f.Valid() && i < BlockCount(img)
    ensures |block| == 64
  {
    Quantized(BlockSamples(img, y, x, i), f.For(i >= LumaCount(img)))
  }

  /** The blocks from block i of the MCU at (y, x) on, in scan order. */
  function UnitsFrom(img: Image, f: Factors, y: nat, x: nat, i: nat): seq<Unit>
    requires img.Valid() && f.Valid() && i <= BlockCount(img)
    decreases if y < img.height then img.height - y else 0, if x < img.width then img.width - x else 0, BlockCount(img) - i
  {
    if y >= img.height then []
    else if x >= img.width then UnitsFrom(img, f, y + Side(img), 0, 0)
    else if i == BlockCount(img) then UnitsFrom(img, f, y, x + Side(img), 0)
    else [Unit(CompOf(i, LumaCount(img)), BlockAt(img, f, y, x, i))] + UnitsFrom(img, f, y, x, i + 1)
  }

  function ImageUnits(img: Image, f: Factors): seq<Unit>
    requires img.Valid() && f.Valid()
  {
    UnitsFrom(img, f, 0, 0, 0)
  }

  ghost predicate UnitsBounded(units: seq<Unit>) { forall k :: 0 <= k < |units| ==> UnitBounded(units[k]) }

  predicate UnitBounded(u: Unit) { u.comp < 3 && Bounded(u.block) }

  lemma BlockBounded(img: Image, f: Factors, y: nat, x: nat, i: nat)
    requires img.Valid() && f.Valid() && f.Small() && i < BlockCount(img)
    ensures Bounded(BlockAt(img, f, y, x, i))
  {
    hide Image.Valid, BlockSamples, Postscale;
    BlockInRange(img, y, x, i);
    QuantizedBounded(BlockSamples(img, y, x, i), f.For(i >= LumaCount(img)), if i < LumaCount(img) then 1 else 4);
  }

  lemma {:induction false} AllBounded(img: Image, f: Factors, y: nat, x: nat, i: nat)
    requires img.Valid() && f.Valid() && f.Small() && i <= BlockCount(img)
    ensures UnitsBounded(UnitsFrom(img, f, y, x, i))
    decreases if y < img.height then img.height - y else 0, if x < img.width then img.width - x else 0, BlockCount(img) - i
  {
    hide Image.Valid, BlockAt, Bounded, Postscale;
    if y < img.height {
      if x >= img.width {
        AllBounded(img, f, y + Side(img), 0, 0);
      } else if i == BlockCount(img) {
        AllBounded(img, f, y, x + Side(img), 0);
      } else {
        BlockBounded(img, f, y, x, i);
        AllBounded(img, f, y, x, i + 1);
      }
    }
  }

  /** The assertions on categories never fail, whatever the image. */
  lemma ImageCodable(img: Image, f: Factors)
    requires img.Valid() && f.Valid() && f.Small()
    ensures ScanCodable(ImageUnits(img, f), [0, 0, 0])
  {
    hide Image.Valid, Bounded, UnitsFrom, Postscale, ScanCodable;
    AllBounded(img, f, 0, 0, 0);
    forall k | 0 <= k < |ImageUnits(img, f)| ensures UnitBounded(ImageUnits(img, f)[k]) {}
    BoundedScanCodable(ImageUnits(img, f), [0, 0, 0]);
  }

  /** The stream's buffers are not the array of predictions. */
  ghost predicate Apart(s: WorstStreamEver, dcPred: array<int>) {
    dcPred as object != s && dcPred as object != s.putbuf && dcPred as object != s.memory
  }

  lemma SymbolOf(h: Spec, diff: int)
    requires DcComplete(h) && Category(diff) <= 11
    ensures ValidSpec(h) && Symbol(0, Category(diff)) == Category(diff) && Category(diff) in h.vals
  {
  }

  /** The body of the loop over the blocks of an MCU: the DC difference, then the AC coefficients. */
  method WriteBlock(s: WorstStreamEver, ghost t: Tables, buffer: seq<int>, j: nat, coder: Coder, dcPred: array<int>)
    requires CoderFor(coder, t) && s.Valid() && dcPred.Length == 3 && Apart(s, dcPred)
    requires UnitCodable(Unit(j, buffer), dcPred[..])
    modifies s, s.putbuf, s.memory, dcPred
    ensures s.Valid() && dcPred[..] == old(dcPred[..])[j := buffer[0]]
    ensures s.Contents() == PutAll(old(s.Contents()), UnitBits(t, Unit(j, buffer), old(dcPred[..])))
  {
    hide EncodeTable, HuffBits, AcCodable, PutAll, AcBits, Category, Magnitude, AcComplete;
    var val := buffer[0] - dcPred[j];
    dcPred[j] := buffer[0];
    SymbolOf(t.dc, val);
    PutCoded(s, t.dc, 0, val, coder.dc);
    WriteAc(s, t.ac, buffer, coder.ac);
    PutAllConcat(old(s.Contents()), DcBits(t.dc, val), AcBits(t.ac, Zigzagged(buffer), 1, 0));
  }

  /** One MCU: its samples, then its blocks one after the other. */
  method WriteMcu(s: WorstStreamEver, ghost luma: Tables, ghost chroma: Tables, lumaCoder: Coder, chromaCoder: Coder,
      img: Image, f: Factors, y: nat, x: nat, dcPred: array<int>)
    requires CoderFor(lumaCoder, luma) && CoderFor(chromaCoder, chroma) && s.Valid()
    requires img.Valid() && f.Valid() && y < img.height && x < img.width && dcPred.Length == 3 && Apart(s, dcPred)
    requires ScanCodable(UnitsFrom(img, f, y, x, 0), dcPred[..])
    modifies s, s.putbuf, s.memory, dcPred
    ensures s.Valid() && ScanCodable(UnitsFrom(img, f, y, x + Side(img), 0), dcPred[..])
    ensures PutAll(s.Contents(), ScanBits(UnitsFrom(img, f, y, x + Side(img), 0), luma, chroma, dcPred[..])) ==
      PutAll(old(s.Contents()), ScanBits(UnitsFrom(img, f, y, x, 0), luma, chroma, old(dcPred[..])))
  {
    hide EncodeTable, UnitBits, PutAll, DcComplete, AcComplete, Image.Valid, BlockAt, UnitsFrom, ScanBits, ScanCodable;
    ghost var goal := PutAll(s.Contents(), ScanBits(UnitsFrom(img, f, y, x, 0), luma, chroma, dcPred[..]));
    var block := new int[384];
    FillMcu(img, y, x, block);
    var i := 0;
    while i < BlockCount(img)
      invariant 0 <= i <= BlockCount(img) && s.Valid() && block[..] == Mcu(img, y, x)
      invariant ScanCodable(UnitsFrom(img, f, y, x, i), dcPred[..])
      invariant PutAll(s.Contents(), ScanBits(UnitsFrom(img, f, y, x, i), luma, chroma, dcPred[..])) == goal
    {
      var buffer := TransformBlock(img, f, y, x, i, block);
      UnitsHere(img, f, y, x, i);
      WriteUnit(s, luma, chroma, lumaCoder, chromaCoder, UnitsFrom(img, f, y, x, i), dcPred, LumaCount(img), i, buffer);
      i := i + 1;
    }
    UnitsHere(img, f, y, x, i);
  }

  lemma UnitsHere(img: Image, f: Factors, y: nat, x: nat, i: nat)
    requires img.Valid() && f.Valid() && y < img.height && x < img.width && i <= BlockCount(img)
    ensures var units := UnitsFrom(img, f, y, x, i);
      if i == BlockCount(img) then units == UnitsFrom(img, f, y, x + Side(img), 0)
      else
        && units != [] && units[0] == Unit(CompOf(i, LumaCount(img)), BlockAt(img, f, y, x, i))
        && units[1..] == UnitsFrom(img, f, y, x, i + 1)
  {
    hide BlockAt, Image.Valid;
  }

  /** aan_fdct8x8 on block i of the buffer. */
  method TransformBlock(img: Image, f: Factors, y: nat, x: nat, i: nat, block: array<int>) returns (coefs: seq<int>)
    requires img.Valid() && f.Valid() && i < BlockCount(img) && block.Length == 384 && block[..] == Mcu(img, y, x)
    ensures coefs == BlockAt(img, f, y, x, i)
  {
    hide Image.Valid, Quantized, RowsIn;
    BlockRows(img, i);
    var buffer := new int[64];
    Transform(block, BlockBase(i), buffer, BlockStep(img), f.For(i >= LumaCount(img)));
    coefs := buffer[..];
    assert buffer[..64] == buffer[..];
  }

  /** Block i of an MCU: the coder and the prediction are chosen by its component. */
  method WriteUnit(s: WorstStreamEver, ghost luma: Tables, ghost chroma: Tables, lumaCoder: Coder, chromaCoder: Coder,
      ghost units: seq<Unit>, dcPred: array<int>, lumaCount: nat, i: nat, buffer: seq<int>)
    requires CoderFor(lumaCoder, luma) && CoderFor(chromaCoder, chroma) && s.Valid()
    requires units != [] && units[0] == Unit(CompOf(i, lumaCount), buffer)
    requires dcPred.Length == 3 && Apart(s, dcPred) && ScanCodable(units, dcPred[..])
    modifies s, s.putbuf, s.memory, dcPred
    ensures s.Valid() && ScanCodable(units[1..], dcPred[..])
    ensures PutAll(s.Contents(), ScanBits(units[1..], luma, chroma, dcPred[..])) ==
      PutAll(old(s.Contents()), ScanBits(units, luma, chroma, old(dcPred[..])))
  {
    hide EncodeTable, UnitBits, PutAll, DcComplete, AcComplete;
    ghost var before, pred := s.Contents(), dcPred[..];
    var isChroma := i >= lumaCount;
    var j := (if isChroma then 1 else 0) + (if i > lumaCount then 1 else 0);
    ghost var t := TableOf(j, luma, chroma);
    WriteBlock(s, t, buffer, j, if isChroma then chromaCoder else lumaCoder, dcPred);
    Moved(before, s.Contents(), UnitBits(t, units[0], pred), ScanBits(units[1..], luma, chroma, dcPred[..]),
      ScanBits(units, luma, chroma, pred));
  }

  /** All MCUs, then the flush and the EOI marker. */
  method WriteScan(s: WorstStreamEver, ghost luma: Tables, ghost chroma: Tables, lumaCoder: Coder, chromaCoder: Coder,
      img: Image, f: Factors)
    requires CoderFor(lumaCoder, luma) && CoderFor(chromaCoder, chroma) && s.Valid()
    requires img.Valid() && f.Valid() && ScanCodable(ImageUnits(img, f), [0, 0, 0])
    modifies s, s.putbuf, s.memory
    ensures var bits := old(s.Contents().pending) + ScanBits(ImageUnits(img, f), luma, chroma, [0, 0, 0]);
      s.Valid() && s.Contents() == Sink(old(s.requested) + Segment(bits) + EOI, LeftOver(bits))
  {
    hide EncodeTable, UnitBits, PutAll, DcComplete, AcComplete, Segment, Image.Valid, BlockAt, LeftOver;
    var dcPred := new int[] [0, 0, 0];
    ghost var before, bits := s.Contents(), ScanBits(ImageUnits(img, f), luma, chroma, [0, 0, 0]);
    assert dcPred[..] == [0, 0, 0];
    var y := 0;
    while y < img.height
      invariant 0 <= y && s.Valid() && ScanCodable(UnitsFrom(img, f, y, 0, 0), dcPred[..])
      invariant PutAll(s.Contents(), ScanBits(UnitsFrom(img, f, y, 0, 0), luma, chroma, dcPred[..])) == PutAll(before, bits)
    {
      var x := 0;
      while x < img.width
        invariant 0 <= x && s.Valid() && ScanCodable(UnitsFrom(img, f, y, x, 0), dcPred[..])
        invariant PutAll(s.Contents(), ScanBits(UnitsFrom(img, f, y, x, 0), luma, chroma, dcPred[..])) == PutAll(before, bits)
      {
        WriteMcu(s, luma, chroma, lumaCoder, chromaCoder, img, f, y, x, dcPred);
        x := x + Side(img);
      }
      y := y + Side(img);
    }
    PutNothing(s.Contents());
    Finish(s, before, bits);
  }

  method Finish(s: WorstStreamEver, ghost before: Sink, ghost bits: seq<bool>)
    requires s.Valid() && |before.pending| < 32 && s.Contents() == PutAll(before, bits)
    modifies s, s.putbuf, s.memory
    ensures s.Valid()
    ensures s.Contents() == Sink(before.bytes + Segment(before.pending + bits) + EOI, LeftOver(before.pending + bits))
  {
    hide PutAll, Segment, LeftOver;
    FlushStoresSegment(before, bits);
    s.FlushLastBits();
    s.PutBytes(EOI);
  }

  /** The table fits the work buffer, and the span of its symbols leaves room for two header words in `size` slots. */
  predicate Fits(h: Spec, size: nat) {
    |h.vals| <= 162 && forall p, q :: 0 <= p < |h.vals| && 0 <= q < |h.vals| ==> h.vals[p] - h.vals[q] + 3 <= size
  }

  /** One encode table: source table into the work buffer, then the symbol table. */
  method BuildTable(h: Spec, size: nat) returns (table: seq<int>)
    requires ValidSpec(h) && Fits(h, size)
    ensures EncodeTable(table, h)
  {
    hide EncodeTable, SourceTable;
    ValidIsTable(h);
    var buffer, tab := new int[1024], new int[size];
    var end := CreateSourceHuffmanTable(h, buffer, 9);
    assert buffer[..end] <= buffer[..];
    var ok := CreateEncodeHuffmanTable(h, buffer, tab, 9);
    table := tab[..];
  }

  method BuildCoder(t: Tables) returns (coder: Coder)
    requires Complete(t) && Fits(t.dc, 16) && Fits(t.ac, 256)
    ensures CoderFor(coder, t)
  {
    hide EncodeTable, Fits;
    var dc := BuildTable(t.dc, 16);
    var ac := BuildTable(t.ac, 256);
    coder := Coder(dc, ac);
  }

  lemma StandardFits()
    ensures Fits(Luma().dc, 16) && Fits(Luma().ac, 256) && Fits(Chroma().dc, 16) && Fits(Chroma().ac, 256)
  {
    hide K5, K6;
  }

  /** The post-scale tables at the fixed quality. */
  function StandardFactors(): (f: Factors)
    ensures f.Valid()
  {
    Factors(seq(64, n requires 0 <= n < 64 => LumaFactor(n)), seq(64, n requires 0 <= n < 64 => ChromaFactor(n)))
  }

  function LumaFactor(n: nat): int
    requires n < 64
  {
    Factor(QVal(K1T[n]), 1, n)
  }

  function ChromaFactor(n: nat): int
    requires n < 64
  {
    Factor(QVal(K2T[n]), 4, n)
  }

  method BuildFactors() returns (f: Factors)
    ensures f == StandardFactors() && f.Small()
  {
    hide Factor, QVal, Postscale;
    var luma, dqt0 := QuantTable(K1T, 1);
    var chroma, dqt1 := QuantTable(K2T, 4);
    f := Factors(luma, chroma);
  }

  /** WriteImage from the pixels to the EOI marker, with its standard tables.  What it appends is one segment that holds
      the bits left over from an earlier image, if any, and the coded scan.  On a stream without left-over bits the T.81
      decoder reads back exactly the quantized blocks of the image, whatever the image; behind left-over bits it does so
      exactly if these and the scan begin with a code of the image. */
  method WriteImage(s: WorstStreamEver, img: Image)
    requires s.Valid() && img.Valid()
    modifies s, s.putbuf, s.memory
    ensures s.Valid() && old(s.requested) <= s.requested
    ensures |s.requested| <= s.memory.Length ==> s.memory[..s.memloc] == s.requested
    ensures Complete(Luma()) && Complete(Chroma()) && ScanCodable(ImageUnits(img, StandardFactors()), [0, 0, 0])
    ensures var bits := old(s.Contents().pending) + ScanBits(ImageUnits(img, StandardFactors()), Luma(), Chroma(), [0, 0, 0]);
      s.requested[|old(s.requested)|..] == Segment(bits) + EOI && s.Contents().pending == LeftOver(bits)
    ensures old(s.Contents().pending) == [] ==>
      Decodes(s.requested[|old(s.requested)|..], ImageUnits(img, StandardFactors()))
    ensures var units := ImageUnits(img, StandardFactors());
      var bits := old(s.Contents().pending) + ScanBits(units, Luma(), Chroma(), [0, 0, 0]);
      ReadBack(units, Unpack(Unstuff(s.requested[|old(s.requested)|..])), Luma(), Chroma()) <==>
        CodeInFront(units, Padded(bits), Luma(), Chroma())
  {
    hide CoderFor, Complete, Fits, ScanCodable, ScanBits, DecodeScan, Unpack, Unstuff, Segment, Padding, UnitsFrom, Luma, Chroma,
      Image.Valid, StandardFactors, LeftOver, ReadBack, CodeInFront, Plain, Padded;
    StandardComplete();
    StandardPlain();
    StandardFits();
    var f := BuildFactors();
    ImageCodable(img, f);
    var lumaCoder := BuildCoder(Luma());
    var chromaCoder := BuildCoder(Chroma());
    WriteScan(s, Luma(), Chroma(), lumaCoder, chromaCoder, img, f);
    ghost var units := ImageUnits(img, f);
    ScanRecovered(units, Luma(), Chroma());
    SecondImageIff(old(s.Contents().pending), units, Luma(), Chroma());
    ghost var bits := ScanBits(units, Luma(), Chroma(), [0, 0, 0]);
    assert [] + bits == bits;
    assert s.requested[|old(s.requested)|..] == Segment(old(s.Contents().pending) + bits) + EOI;
  }

  /** The T.81 decoder reads back the blocks, with the standard tables, and is left with at most 32 zero bits. */
  ghost predicate Decodes(stored: seq<byte>, units: seq<Unit>) {
    Complete(Luma()) && Complete(Chroma()) &&
    exists n :: 1 <= n <= 32
      && DecodeScan(Comps(units), Unpack(Unstuff(stored)), Luma(), Chroma(), [0, 0, 0]) == Some((Blocks(units), Zeros(n)))
  }

  /** A scan whose bits are still in the buffer, because they did not fill a word, is what a decoder finds in place of
      the next image. */
  lemma LeftOverShowsFirst(first: seq<Unit>, second: seq<Unit>)
    requires Complete(Luma()) && Complete(Chroma()) && ScanCodable(first, [0, 0, 0]) && ScanCodable(second, [0, 0, 0])
    ensures var pending := ScanBits(first, Luma(), Chroma(), [0, 0, 0]);
      var stored := Segment(pending + ScanBits(second, Luma(), Chroma(), [0, 0, 0])) + EOI;
      var r := DecodeScan(Comps(first), Unpack(Unstuff(stored)), Luma(), Chroma(), [0, 0, 0]);
      r.Some? && r.value.0 == Blocks(first)
  {
    hide Complete, ScanCodable, ScanBits, DecodeScan, Unpack, Unstuff, Segment, Padding, Luma, Chroma;
    var b1, b2 := ScanBits(first, Luma(), Chroma(), [0, 0, 0]), ScanBits(second, Luma(), Chroma(), [0, 0, 0]);
    var zeros := Zeros(Padding(|b1 + b2|));
    SegmentRecovered(b1 + b2, EOI);
    Assoc(b1, b2, zeros);
    DecodeScanBits(first, Luma(), Chroma(), [0, 0, 0], b2 + zeros);
  }

  /** So of two images of the same shape, the first too short to fill a word, the second is read back exactly if its
      blocks are those of the first. */
  lemma SecondOfTwoIff(first: seq<Unit>, second: seq<Unit>)
    requires Complete(Luma()) && Complete(Chroma()) && ScanCodable(first, [0, 0, 0]) && ScanCodable(second, [0, 0, 0])
    requires Comps(first) == Comps(second)
    ensures var pending := ScanBits(first, Luma(), Chroma(), [0, 0, 0]);
      var stored := Segment(pending + ScanBits(second, Luma(), Chroma(), [0, 0, 0])) + EOI;
      ReadBack(second, Unpack(Unstuff(stored)), Luma(), Chroma()) <==> Blocks(first) == Blocks(second)
  {
    hide Complete, ScanCodable, ScanBits, DecodeScan, Unpack, Unstuff, Segment, Luma, Chroma;
    LeftOverShowsFirst(first, second);
  }
}
