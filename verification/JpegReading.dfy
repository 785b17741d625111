/** The converse of decoding: whatever bits the T.81 decoder reads as given blocks are a code of those blocks, the code
    SimpleJPEG writes or one with extra zero runs in front of end-of-block codes.  Hence the exact condition under which
    an image behind left-over bits is read back. */
module JpegReading {
  import opened Prelude
  import opened Bits
  import opened Huffman
  import opened BitStream
  import opened HuffmanTables
  import opened JpegBlock
  import opened JpegTables
  import opened JpegScan
  import opened StandardTables

  // ---------- Huffman codes ----------

  lemma LowMore(code: nat, n: nat, bit: bool)
    ensures Low(2 * code + (if bit then 1 else 0), n + 1) == Low(code, n) + [bit]
  {
  }

  /** The position of a code of the greatest length. */
  lemma LastCode(counts: seq<nat>, code: nat)
    requires counts != [] && 2 * Used(Init(counts)) <= code < 2 * Used(Init(counts)) + counts[|counts| - 1]
    ensures var p := Total(Init(counts)) + (code - 2 * Used(Init(counts)));
      p < Total(counts) && LenOf(counts, p) == |counts| && CodeOf(counts, p) == code
  {
    hide Used, Low;
  }

  /** The position whose code the decoder has found. */
  lemma CodeFound(counts: seq<nat>, n: nat, code: nat)
    requires 1 <= n <= |counts| && 2 * Used(counts[..n - 1]) <= code < 2 * Used(counts[..n - 1]) + counts[n - 1]
    ensures var p := Total(counts[..n - 1]) + (code - 2 * Used(counts[..n - 1]));
      p < Total(counts) && Word(counts, p) == Low(code, n)
  {
    hide Used, Total, LenOf, CodeOf, Low;
    assert Init(counts[..n]) == counts[..n - 1];
    LastCode(counts[..n], code);
    PrefixPlace(counts, n, Total(counts[..n - 1]) + (code - 2 * Used(counts[..n - 1])));
  }

  lemma {:induction false} DecodeFromReads(counts: seq<nat>, bits: seq<bool>, n: nat, code: nat)
    requires n <= |counts| && (n > 0 ==> code >= 2 * Used(counts[..n - 1]))
    requires DecodeFrom(counts, bits, n, code).Some?
    ensures var (p, rest) := DecodeFrom(counts, bits, n, code).value; Low(code, n) + bits == Word(counts, p) + rest
    decreases |counts| - n
  {
    hide Word, Low;
    if n > 0 && code < 2 * Used(counts[..n - 1]) + counts[n - 1] {
      CodeFound(counts, n, code);
    } else {
      assert n > 0 ==> Init(counts[..n]) == counts[..n - 1];
      var next := 2 * code + (if bits[0] then 1 else 0);
      LowMore(code, n, bits[0]);
      DecodeFromReads(counts, bits[1..], n + 1, next);
      assert Low(next, n + 1) + bits[1..] == Low(code, n) + bits;
    }
  }

  lemma DecodeReads(counts: seq<nat>, bits: seq<bool>)
    requires Decode(counts, bits).Some?
    ensures var (p, rest) := Decode(counts, bits).value; p < Total(counts) && bits == Word(counts, p) + rest
  {
    hide Word;
    DecodeFromReads(counts, bits, 0, 0);
    assert Low(0, 0) + bits == bits;
  }

  lemma SymbolReads(h: Spec, bits: seq<bool>)
    requires ValidSpec(h) && DecodeSymbol(h, bits).Some?
    ensures var (v, rest) := DecodeSymbol(h, bits).value; v in h.vals && bits == HuffBits(h, v) + rest
  {
    hide Decode, Word, Kraft, Total;
    DecodeReads(h.counts, bits);
    var p := Decode(h.counts, bits).value.0;
    assert IndexOf(h.vals, h.vals[p]) == p;
  }

  // ---------- additional bits ----------

  lemma {:induction false} BitLengthIs(n: nat, t: nat)
    requires t > 0 && Pow2(t - 1) <= n < Pow2(t)
    ensures BitLength(n) == t
  {
    if t > 1 { BitLengthIs(n / 2, t - 1); }
  }

  lemma ReceiveReads(bits: seq<bool>, t: nat)
    requires Receive(bits, t).Some?
    ensures var (v, rest) := Receive(bits, t).value; Category(v) == t && bits == Magnitude(v) + rest
  {
    var b := bits[..t];
    var x := Value(b);
    ValueBound(b);
    LowOfValue(b);
    assert bits == b + bits[t..];
    if t == 0 {
      ExtendZero();
    } else if x >= Pow2(t - 1) {
      BitLengthIs(x, t);
    } else {
      BitLengthIs(Pow2(t) - 1 - x, t);
      LowPeriodic(x - Pow2(t), t);
    }
  }

  lemma DcReads(h: Spec, bits: seq<bool>)
    requires ValidSpec(h) && DecodeDc(h, bits).Some?
    ensures var (diff, rest) := DecodeDc(h, bits).value;
      Category(diff) in h.vals && bits == (HuffBits(h, Category(diff)) + Magnitude(diff)) + rest
  {
    hide HuffBits, DecodeSymbol, Receive, Magnitude, Category;
    SymbolReads(h, bits);
    var (t, more) := DecodeSymbol(h, bits).value;
    ReceiveReads(more, t);
    var (diff, rest) := Receive(more, t).value;
    Assoc(HuffBits(h, t), Magnitude(diff), rest);
  }

  // ---------- coefficients ----------

  /** An AC table with the 162 symbols of the coder and no others. */
  predicate Plain(h: Spec) { AcComplete(h) && |h.vals| == 162 }

  lemma TableValid(h: Spec)
    requires AcComplete(h) || DcComplete(h)
    ensures ValidSpec(h) && |h.vals| == Total(h.counts)
  {
  }

  lemma PlainSymbols(h: Spec, v: nat)
    requires Plain(h) && v in h.vals
    ensures v / 16 < 16 && (v % 16 == 0 ==> v == 0x00 || v == 0xF0)
  {
    hide RunSizes, Symbol, Total, Kraft;
    AcSymbolsListed(h);
    AcSymbolsCount();
    ElemsSize(h.vals);
    if v !in AcSymbols() { SubsetSize(AcSymbols() + {v}, Elems(h.vals)); }
    if v in RunSizes(160) { RunSizesHold(160, v); }
  }

  lemma {:induction false} SkipZeros(h: Spec, zz: seq<int>, j: nat, n: nat, run: nat, extra: nat)
    requires AcComplete(h) && AcCodable(zz) && 1 <= j && j + n <= 64 && ZerosBefore(zz, j + n, n)
    ensures AcBits(h, zz, j, run, extra) == AcBits(h, zz, j + n, run + n, extra)
    decreases n
  {
    hide HuffBits, CoefBits, AcComplete, Category;
    if n > 0 { SkipZeros(h, zz, j + 1, n - 1, run + 1, extra); }
  }

  lemma FirstNonzero(zz: seq<int>, j: nat) returns (l: nat)
    requires |zz| == 64 && j <= 64
    ensures j <= l <= 64 && ZerosBefore(zz, l, l - j) && (l < 64 ==> zz[l] != 0)
    decreases 64 - j
  {
    if j == 64 || zz[j] != 0 {
      l := j;
    } else {
      l := FirstNonzero(zz, j + 1);
    }
  }

  /** A run of sixteen zeros in front of a coefficient, or in front of further zeros at the end. */
  lemma ZeroRunCode(h: Spec, zz: seq<int>, k: nat, more: nat) returns (extra: nat)
    requires AcComplete(h) && AcCodable(zz) && 1 <= k && k + 16 <= 63 && ZerosBefore(zz, k + 16, 16)
    ensures AcBits(h, zz, k, 0, extra) == HuffBits(h, 0xF0) + AcBits(h, zz, k + 16, 0, more)
  {
    hide HuffBits, CoefBits, AcComplete, Category, AcBits;
    var l := FirstNonzero(zz, k + 16);
    extra := if l == 64 then more + 1 else more;
    assert ZerosBefore(zz, l, l - k);
    SkipZeros(h, zz, k, l - k, 0, extra);
    SkipZeros(h, zz, k + 16, l - (k + 16), 0, more);
    LongRun(h, zz, l, l - k, more);
  }

  lemma LongRun(h: Spec, zz: seq<int>, l: nat, run: nat, more: nat)
    requires AcComplete(h) && AcCodable(zz) && 1 <= l <= 64 && run >= 16
    requires if l == 64 then run > 16 else zz[l] != 0
    ensures AcBits(h, zz, l, run, if l == 64 then more + 1 else more) == HuffBits(h, 0xF0) + AcBits(h, zz, l, run - 16, more)
  {
    hide HuffBits, CoefBits, AcComplete, Category;
  }

  lemma ShortRun(h: Spec, zz: seq<int>, k: nat, r: nat, extra: nat)
    requires AcComplete(h) && AcCodable(zz) && 1 <= k && k + r < 64 && r < 16 && ZerosBefore(zz, k + r, r) && zz[k + r] != 0
    ensures AcBits(h, zz, k, 0, extra) == CoefBits(h, zz[k + r], r) + AcBits(h, zz, k + r + 1, 0, extra)
  {
    hide HuffBits, CoefBits, AcComplete, Category;
    SkipZeros(h, zz, k, r, 0, extra);
  }

  lemma OnlyZeros(h: Spec, zz: seq<int>, k: nat)
    requires AcComplete(h) && AcCodable(zz) && 1 <= k <= 63 && zz[k..] == ZeroRun(64 - k)
    ensures AcBits(h, zz, k, 0) == HuffBits(h, 0x00)
  {
    hide HuffBits, CoefBits, AcComplete, Category;
    forall i | k <= i < 64 ensures zz[i] == 0 { assert zz[i] == zz[k..][i - k]; }
    SkipZeros(h, zz, k, 64 - k, 0, 0);
  }

  /** Zeros and a coefficient at the front of what is left. */
  lemma FrontOf(zz: seq<int>, k: nat, r: nat, v: int, behind: seq<int>)
    requires k <= |zz| && zz[k..] == (ZeroRun(r) + [v]) + behind
    ensures k + r < |zz| && ZerosBefore(zz, k + r, r) && zz[k + r] == v && zz[k + r + 1..] == behind
  {
    assert |zz[k..]| == r + 1 + |behind|;
    forall i | k <= i < k + r ensures zz[i] == 0 { assert zz[i] == zz[k..][i - k]; }
    assert zz[k + r] == zz[k..][r];
    assert zz[k + r + 1..] == zz[k..][r + 1..];
  }

  lemma ZerosInFront(zz: seq<int>, k: nat, n: nat, behind: seq<int>)
    requires k <= |zz| && zz[k..] == ZeroRun(n) + behind
    ensures k + n <= |zz| && ZerosBefore(zz, k + n, n) && zz[k + n..] == behind
  {
    assert |zz[k..]| == n + |behind|;
    forall i | k <= i < k + n ensures zz[i] == 0 { assert zz[i] == zz[k..][i - k]; }
    assert zz[k + n..] == zz[k..][n..];
  }

  lemma CoefCode(h: Spec, zz: seq<int>, k: nat, r: nat, extra: nat, rest: seq<bool>)
    requires AcComplete(h) && AcCodable(zz) && 1 <= k && k + r < 64 && r < 16 && ZerosBefore(zz, k + r, r) && zz[k + r] != 0
    requires Symbol(r, Category(zz[k + r])) in h.vals
    ensures HuffBits(h, Symbol(r, Category(zz[k + r]))) + (Magnitude(zz[k + r]) + (AcBits(h, zz, k + r + 1, 0, extra) + rest))
      == AcBits(h, zz, k, 0, extra) + rest
  {
    hide HuffBits, AcBits, AcComplete, Category, Magnitude;
    TableValid(h);
    ShortRun(h, zz, k, r, extra);
    var v, later := zz[k + r], AcBits(h, zz, k + r + 1, 0, extra);
    Assoc(HuffBits(h, Symbol(r, Category(v))), Magnitude(v), later + rest);
    Assoc(CoefBits(h, v, r), later, rest);
  }

  lemma CategoryOfZero()
    ensures Category(0) == 0
  {
  }

  /** Behind a symbol with a size: the additional bits, then the code of the coefficients behind it. */
  lemma {:induction false} CoefReads(h: Spec, zz: seq<int>, bits: seq<bool>, k: nat, r: nat, s: nat) returns (extra: nat)
    requires Plain(h) && AcCodable(zz) && 1 <= k <= 63 && s > 0
    requires DecodeRun(h, r, s, bits, k).Some? && DecodeRun(h, r, s, bits, k).value.0 == zz[k..]
    ensures k + r < 64 && ZerosBefore(zz, k + r, r) && zz[k + r] != 0 && Category(zz[k + r]) == s
    ensures bits == Magnitude(zz[k + r]) + (AcBits(h, zz, k + r + 1, 0, extra) + DecodeRun(h, r, s, bits, k).value.1)
    decreases 64 - k, 0
  {
    hide AcComplete, Receive, Category, Magnitude, DecodeAc;
    TableValid(h);
    ReceiveReads(bits, s);
    CategoryOfZero();
    var (v, more) := Receive(bits, s).value;
    if k + r == 63 {
      extra := 0;
      FrontOf(zz, k, r, v, []);
      assert AcBits(h, zz, 64, 0, 0) + more == more;
    } else {
      FrontOf(zz, k, r, v, DecodeAc(h, more, k + r + 1).value.0);
      extra := AcReads(h, zz, more, k + r + 1);
    }
  }

  /** What is read as the coefficients from index k on is a code of them. */
  lemma {:induction false} AcReads(h: Spec, zz: seq<int>, bits: seq<bool>, k: nat) returns (extra: nat)
    requires Plain(h) && AcCodable(zz) && 1 <= k <= 63
    requires DecodeAc(h, bits, k).Some? && DecodeAc(h, bits, k).value.0 == zz[k..]
    ensures bits == AcBits(h, zz, k, 0, extra) + DecodeAc(h, bits, k).value.1
    decreases 64 - k, 1
  {
    hide HuffBits, DecodeSymbol, AcBits, CoefBits, Receive, Category, Magnitude, AcComplete;
    TableValid(h);
    SymbolReads(h, bits);
    var (rs, more) := DecodeSymbol(h, bits).value;
    PlainSymbols(h, rs);
    var r, s, rest := rs / 16, rs % 16, DecodeAc(h, bits, k).value.1;
    if s == 0 && r != 15 {
      extra := 0;
      OnlyZeros(h, zz, k);
    } else if s == 0 {
      ZerosInFront(zz, k, 16, DecodeAc(h, more, k + 16).value.0);
      var e := AcReads(h, zz, more, k + 16);
      extra := ZeroRunCode(h, zz, k, e);
      Assoc(HuffBits(h, 0xF0), AcBits(h, zz, k + 16, 0, e), rest);
    } else {
      extra := CoefReads(h, zz, more, k, r, s);
      CoefCode(h, zz, k, r, extra, rest);
    }
  }

  // ---------- blocks and scans ----------

  lemma ZigzagUnzigzag(zz: seq<int>)
    requires |zz| == 64
    ensures Zigzagged(Unzigzagged(zz)) == zz
  {
    var l := Zigzagged(Unzigzagged(zz));
    forall j | 0 <= j < 64 ensures l[j] == zz[j] { VisitedZigzag(j); }
  }

  predicate PlainTables(t: Tables) { Complete(t) && Plain(t.ac) }

  lemma UnitReads(t: Tables, u: Unit, pred: seq<int>, bits: seq<bool>) returns (extra: nat)
    requires PlainTables(t) && UnitCodable(u, pred)
    requires var r := DecodeBlock(t, bits, pred[u.comp]); r.Some? && r.value.0 == u.block
    ensures bits == UnitBits(t, u, pred, extra) + DecodeBlock(t, bits, pred[u.comp]).value.1
  {
    hide HuffBits, DecodeDc, DecodeAc, AcBits, Category, Magnitude, DcComplete, AcComplete, Zigzagged, Unzigzagged, AcCodable;
    TableValid(t.dc);
    TableValid(t.ac);
    DcReads(t.dc, bits);
    var (diff, more) := DecodeDc(t.dc, bits).value;
    var (ac, rest) := DecodeAc(t.ac, more, 1).value;
    var zz := [pred[u.comp] + diff] + ac;
    ZigzagUnzigzag(zz);
    ZigzaggedParts(u.block);
    assert Zigzagged(u.block)[1..] == ac;
    extra := AcReads(t.ac, Zigzagged(u.block), more, 1);
    Assoc(HuffBits(t.dc, Category(diff)) + Magnitude(diff), AcBits(t.ac, Zigzagged(u.block), 1, 0, extra), rest);
  }

  /** Whatever bits the decoder reads as the blocks of the scan begin with a code of the scan. */
  lemma {:induction false} ScanReads(units: seq<Unit>, luma: Tables, chroma: Tables, pred: seq<int>, bits: seq<bool>)
    returns (extras: seq<nat>)
    requires PlainTables(luma) && PlainTables(chroma) && |pred| == 3 && ScanCodable(units, pred)
    requires var r := DecodeScan(Comps(units), bits, luma, chroma, pred); r.Some? && r.value.0 == Blocks(units)
    ensures bits == ScanBits(units, luma, chroma, pred, extras) + DecodeScan(Comps(units), bits, luma, chroma, pred).value.1
  {
    hide UnitBits, DecodeBlock, DcComplete, AcComplete, Plain;
    if units == [] {
      extras := [];
      assert ScanBits(units, luma, chroma, pred, []) + bits == bits;
    } else {
      var u, t := units[0], TableOf(units[0].comp, luma, chroma);
      assert Comps(units)[1..] == Comps(units[1..]) && Blocks(units)[1..] == Blocks(units[1..]);
      assert Blocks(units)[0] == u.block;
      TableValid(t.dc);
      TableValid(t.ac);
      var (block, more) := DecodeBlock(t, bits, pred[u.comp]).value;
      var extra := UnitReads(t, u, pred, bits);
      var next := pred[u.comp := u.block[0]];
      var others := ScanReads(units[1..], luma, chroma, next, more);
      extras := [extra] + others;
      assert extras[1..] == others;
      Assoc(UnitBits(t, u, pred, extra), ScanBits(units[1..], luma, chroma, next, others),
        DecodeScan(Comps(units), bits, luma, chroma, pred).value.1);
    }
  }

  // ---------- stored images ----------

  /** The decoder reads the blocks of the scan, whatever it is left with. */
  ghost predicate ReadBack(units: seq<Unit>, bits: seq<bool>, luma: Tables, chroma: Tables)
    requires Complete(luma) && Complete(chroma)
  {
    exists rest :: DecodeScan(Comps(units), bits, luma, chroma, [0, 0, 0]) == Some((Blocks(units), rest))
  }

  /** The bits begin with the code of the scan, possibly with extra zero runs. */
  ghost predicate CodeInFront(units: seq<Unit>, bits: seq<bool>, luma: Tables, chroma: Tables)
    requires Complete(luma) && Complete(chroma) && ScanCodable(units, [0, 0, 0])
  {
    exists extras :: ScanBits(units, luma, chroma, [0, 0, 0], extras) <= bits
  }

  lemma ReadBackIff(units: seq<Unit>, bits: seq<bool>, luma: Tables, chroma: Tables)
    requires PlainTables(luma) && PlainTables(chroma) && ScanCodable(units, [0, 0, 0])
    ensures ReadBack(units, bits, luma, chroma) <==> CodeInFront(units, bits, luma, chroma)
  {
    hide ScanBits, DecodeScan, Complete, Plain, ScanCodable;
    if ReadBack(units, bits, luma, chroma) {
      var extras := ScanReads(units, luma, chroma, [0, 0, 0], bits);
      assert ScanBits(units, luma, chroma, [0, 0, 0], extras) <= bits;
    }
    if CodeInFront(units, bits, luma, chroma) {
      var extras :| ScanBits(units, luma, chroma, [0, 0, 0], extras) <= bits;
      var w := ScanBits(units, luma, chroma, [0, 0, 0], extras);
      assert bits == w + bits[|w|..];
      DecodeScanBits(units, luma, chroma, [0, 0, 0], bits[|w|..], extras);
    }
  }

  /** An image behind left-over bits is read back exactly if these bits, the code of the image and the padding, taken
      together, begin with a code of the image once more. */
  lemma SecondImageIff(pending: seq<bool>, units: seq<Unit>, luma: Tables, chroma: Tables)
    requires PlainTables(luma) && PlainTables(chroma) && ScanCodable(units, [0, 0, 0])
    ensures var bits := pending + ScanBits(units, luma, chroma, [0, 0, 0]);
      ReadBack(units, Unpack(Unstuff(Segment(bits) + EOI)), luma, chroma) <==> CodeInFront(units, Padded(bits), luma, chroma)
  {
    hide ScanBits, ReadBack, CodeInFront, Complete, Plain, ScanCodable, Segment, Unstuff, Unpack, Padding;
    var bits := pending + ScanBits(units, luma, chroma, [0, 0, 0]);
    SegmentRecovered(bits, EOI);
    ReadBackIff(units, Padded(bits), luma, chroma);
  }

  lemma StandardPlain()
    ensures PlainTables(Luma()) && PlainTables(Chroma())
  {
    hide Complete, AcComplete;
    StandardComplete();
    AcOf(Luma());
    AcOf(Chroma());
  }

  lemma AcOf(t: Tables)
    requires Complete(t)
    ensures AcComplete(t.ac)
  {
  }
}
