/** Entropy coding of one block as WriteImage does it, and the decoding procedures of T.81 section F.2.2. */
module JpegBlock {
  import opened Prelude
  import opened Bits
  import opened Huffman
  import opened HuffmanTables

  // ---------- magnitude categories ----------

  function BitLength(n: nat): nat {
    if n == 0 then 0 else 1 + BitLength(n / 2)
  }

  function Abs(v: int): nat { if v < 0 then -v else v }

  /** The category SSSS of a coefficient: the bit length of its magnitude. */
  function Category(v: int): nat { BitLength(Abs(v)) }

  /** The additional bits: v itself, or v - 1 when negative, cut to the category. */
  function Magnitude(v: int): (b: seq<bool>)
    ensures |b| == Category(v)
  {
    Low(v - (if v < 0 then 1 else 0), Category(v))
  }

  /** EXTEND of T.81 Figure F.12. */
  function Extend(v: nat, t: nat): int {
    if t == 0 then 0 else if v < Pow2(t - 1) then v - Pow2(t) + 1 else v
  }

  lemma {:induction false} BitLengthBounds(n: nat)
    requires n > 0
    ensures BitLength(n) >= 1 && Pow2(BitLength(n) - 1) <= n < Pow2(BitLength(n))
  {
    if n > 1 { BitLengthBounds(n / 2); } else { assert BitLength(0) == 0 && Pow2(0) == 1; }
  }

  lemma ExtendPositive(v: nat, c: nat)
    requires c > 0 && Pow2(c - 1) <= v < Pow2(c)
    ensures Extend(Value(Low(v, c)), c) == v
  {
    ValueOfLow(v, c);
  }

  lemma ExtendNegative(v: int, c: nat)
    requires c > 0 && Pow2(c - 1) <= -v < Pow2(c)
    ensures Extend(Value(Low(v - 1, c)), c) == v
  {
    hide Low, Value;
    LowPeriodic(v - 1, c);
    ValueOfLow(v - 1 + Pow2(c), c);
  }

  /** EXTEND undoes the cut. */
  lemma ExtendMagnitude(v: int)
    ensures Extend(Value(Magnitude(v)), Category(v)) == v
  {
    hide Extend, Value, Low, BitLength;
    if v > 0 {
      BitLengthBounds(v);
      ExtendPositive(v, Category(v));
    } else if v < 0 {
      BitLengthBounds(-v);
      ExtendNegative(v, Category(v));
    } else {
      ExtendZero();
    }
  }

  lemma ExtendZero()
    ensures Extend(Value(Magnitude(0)), Category(0)) == 0
  {
  }

  // ---------- symbols ----------

  function IndexOf(vals: seq<nat>, v: nat): (p: nat)
    requires v in vals
    ensures p < |vals| && vals[p] == v
  {
    if vals[0] == v then 0 else 1 + IndexOf(vals[1..], v)
  }

  function HuffBits(h: Spec, v: nat): seq<bool>
    requires |h.vals| == Total(h.counts) && v in h.vals
  {
    Word(h.counts, IndexOf(h.vals, v))
  }

  function DecodeSymbol(h: Spec, bits: seq<bool>): Option<(nat, seq<bool>)>
    requires |h.vals| == Total(h.counts)
  {
    match Decode(h.counts, bits)
    case None => None
    case Some((p, rest)) => Some((h.vals[p], rest))
  }

  lemma DecodeHuffBits(h: Spec, v: nat, rest: seq<bool>)
    requires ValidSpec(h) && v in h.vals
    ensures DecodeSymbol(h, HuffBits(h, v) + rest) == Some((v, rest))
  {
    DecodeWord(h.counts, IndexOf(h.vals, v), rest);
  }

  /** RECEIVE and EXTEND: the signed value of the next t bits. */
  function Receive(bits: seq<bool>, t: nat): Option<(int, seq<bool>)> {
    if |bits| < t then None else Some((Extend(Value(bits[..t]), t), bits[t..]))
  }

  lemma ReceiveMagnitude(v: int, rest: seq<bool>)
    ensures Receive(Magnitude(v) + rest, Category(v)) == Some((v, rest))
  {
    ExtendMagnitude(v);
    var all := Magnitude(v) + rest;
    assert all[..Category(v)] == Magnitude(v) && all[Category(v)..] == rest;
  }

  // ---------- DC ----------

  /** The tables have a code for every symbol the coder can ask for. */
  predicate DcComplete(h: Spec) {
    ValidSpec(h) && forall c :: 0 <= c <= 11 ==> c in h.vals
  }

  predicate AcComplete(h: Spec) {
    ValidSpec(h) && 0 in h.vals && 0xF0 in h.vals && forall r, s :: 0 <= r < 16 && 1 <= s <= 10 ==> Symbol(r, s) in h.vals
  }

  function Symbol(run: nat, cat: nat): nat { cat + run * 16 }

  function DcBits(h: Spec, diff: int): seq<bool>
    requires DcComplete(h) && Category(diff) <= 11
  {
    HuffBits(h, Category(diff)) + Magnitude(diff)
  }

  /** T.81 section F.2.2.1. */
  function DecodeDc(h: Spec, bits: seq<bool>): Option<(int, seq<bool>)>
    requires |h.vals| == Total(h.counts)
  {
    match DecodeSymbol(h, bits)
    case None => None
    case Some((t, rest)) => Receive(rest, t)
  }

  lemma DecodeDcBits(h: Spec, diff: int, rest: seq<bool>)
    requires DcComplete(h) && Category(diff) <= 11
    ensures DecodeDc(h, DcBits(h, diff) + rest) == Some((diff, rest))
  {
    hide HuffBits, DecodeSymbol, Receive, Magnitude;
    Assoc(HuffBits(h, Category(diff)), Magnitude(diff), rest);
    DecodeHuffBits(h, Category(diff), Magnitude(diff) + rest);
    ReceiveMagnitude(diff, rest);
  }

  // ---------- AC ----------

  function ZeroRun(n: nat): (z: seq<int>)
    ensures |z| == n
  {
    seq(n, _ => 0)
  }

  predicate AcCodable(zz: seq<int>) {
    |zz| == 64 && forall k :: 1 <= k < 64 ==> Category(zz[k]) <= 10
  }

  /** What is still to be written when index j of the zig-zag sequence is reached with `run` zeros pending.  A coder may
      write some of the zeros at the end as runs of sixteen; SimpleJPEG has no such extra runs. */
  function AcBits(h: Spec, zz: seq<int>, j: nat, run: nat, extra: nat := 0): seq<bool>
    requires AcComplete(h) && AcCodable(zz) && 1 <= j <= 64
    decreases 64 - j, run
  {
    if j == 64 then
      if run == 0 then []
      else if extra > 0 && run > 16 then HuffBits(h, 0xF0) + AcBits(h, zz, 64, run - 16, extra - 1)
      else HuffBits(h, 0x00)
    else if zz[j] == 0 then AcBits(h, zz, j + 1, run + 1, extra)
    else if run >= 16 then HuffBits(h, 0xF0) + AcBits(h, zz, j, run - 16, extra)
    else CoefBits(h, zz[j], run) + AcBits(h, zz, j + 1, 0, extra)
  }

  function CoefBits(h: Spec, v: int, run: nat): seq<bool>
    requires AcComplete(h) && v != 0 && Category(v) <= 10 && run < 16
  {
    CategoryPositive(v);
    HuffBits(h, Symbol(run, Category(v))) + Magnitude(v)
  }

  lemma CategoryPositive(v: int)
    requires v != 0
    ensures Category(v) >= 1
  {
  }

  /** T.81 Figure F.13: the coefficients from index k to 63, and the bits left over. */
  function DecodeAc(h: Spec, bits: seq<bool>, k: nat): Option<(seq<int>, seq<bool>)>
    requires |h.vals| == Total(h.counts) && 1 <= k <= 63
    decreases 64 - k, 1
  {
    match DecodeSymbol(h, bits)
    case None => None
    case Some((rs, rest)) => DecodeRun(h, rs / 16, rs % 16, rest, k)
  }

  /** The part of the figure behind DECODE: run length r and size s are known. */
  function DecodeRun(h: Spec, r: nat, s: nat, bits: seq<bool>, k: nat): Option<(seq<int>, seq<bool>)>
    requires |h.vals| == Total(h.counts) && 1 <= k <= 63
    decreases 64 - k, 0
  {
    if s == 0 then
      if r != 15 then Some((ZeroRun(64 - k), bits))
      else if k + 16 <= 63 then Prepend(ZeroRun(16), DecodeAc(h, bits, k + 16))
      else None
    else if k + r > 63 then None
    else match Receive(bits, s)
      case None => None
      case Some((v, rest)) =>
        if k + r == 63 then Some((ZeroRun(r) + [v], rest))
        else Prepend(ZeroRun(r) + [v], DecodeAc(h, rest, k + r + 1))
  }

  function Prepend(front: seq<int>, r: Option<(seq<int>, seq<bool>)>): Option<(seq<int>, seq<bool>)> {
    match r
    case None => None
    case Some((s, rest)) => Some((front + s, rest))
  }

  lemma DecodeEob(h: Spec, k: nat, rest: seq<bool>)
    requires AcComplete(h) && 1 <= k <= 63
    ensures DecodeAc(h, HuffBits(h, 0x00) + rest, k) == Some((ZeroRun(64 - k), rest))
  {
    hide HuffBits, DecodeSymbol;
    DecodeHuffBits(h, 0x00, rest);
  }

  lemma DecodeZrl(h: Spec, k: nat, rest: seq<bool>)
    requires AcComplete(h) && 1 <= k <= 47
    ensures DecodeAc(h, HuffBits(h, 0xF0) + rest, k) == Prepend(ZeroRun(16), DecodeAc(h, rest, k + 16))
  {
    hide HuffBits, DecodeSymbol;
    DecodeHuffBits(h, 0xF0, rest);
  }

  lemma SplitSymbol(run: nat, cat: nat)
    requires cat < 16
    ensures Symbol(run, cat) / 16 == run && Symbol(run, cat) % 16 == cat
  {
  }

  lemma DecodeCoef(h: Spec, v: int, run: nat, k: nat, rest: seq<bool>)
    requires AcComplete(h) && v != 0 && Category(v) <= 10 && run < 16 && 1 <= k && k + run <= 63
    ensures DecodeAc(h, CoefBits(h, v, run) + rest, k) ==
      if k + run == 63 then Some((ZeroRun(run) + [v], rest))
      else Prepend(ZeroRun(run) + [v], DecodeAc(h, rest, k + run + 1))
  {
    hide HuffBits, DecodeSymbol, Symbol, Receive, Category, Magnitude, Prepend;
    var c := Category(v);
    CategoryPositive(v);
    SplitSymbol(run, c);
    Assoc(HuffBits(h, Symbol(run, c)), Magnitude(v), rest);
    DecodeHuffBits(h, Symbol(run, c), Magnitude(v) + rest);
    ReceiveMagnitude(v, rest);
  }

  /** The last `run` coefficients before index j are zero. */
  predicate ZerosBefore(zz: seq<int>, j: nat, run: nat) {
    run <= j <= |zz| && forall i :: j - run <= i < j ==> zz[i] == 0
  }

  lemma SliceZeros(zz: seq<int>, k: nat, n: nat)
    requires ZerosBefore(zz, k + n, n)
    ensures zz[k..] == ZeroRun(n) + zz[k + n..]
  {
  }

  lemma SliceCoef(zz: seq<int>, k: nat, n: nat)
    requires k + n < |zz| && ZerosBefore(zz, k + n, n)
    ensures zz[k..] == (ZeroRun(n) + [zz[k + n]]) + zz[k + n + 1..]
  {
  }

  lemma DecodeAcCoef(h: Spec, zz: seq<int>, j: nat, run: nat, rest: seq<bool>, extra: nat)
    requires AcComplete(h) && AcCodable(zz) && 1 <= j - run && j < 64 && ZerosBefore(zz, j, run) && zz[j] != 0 && run < 16
    requires j < 63 ==> DecodeAc(h, AcBits(h, zz, j + 1, 0, extra) + rest, j + 1) == Some((zz[j + 1..], rest))
    ensures DecodeAc(h, AcBits(h, zz, j, run, extra) + rest, j - run) == Some((zz[j - run..], rest))
  {
    hide HuffBits, DecodeAc, CoefBits, Category, Magnitude;
    var k, next := j - run, AcBits(h, zz, j + 1, 0, extra);
    Assoc(CoefBits(h, zz[j], run), next, rest);
    DecodeCoef(h, zz[j], run, k, next + rest);
    SliceCoef(zz, k, run);
    if j == 63 {
      assert next + rest == rest;
      assert (ZeroRun(run) + [zz[j]]) + zz[64..] == ZeroRun(run) + [zz[j]];
    }
  }

  /** The decoder recovers the coefficients from the first pending zero on and consumes exactly the bits written. */
  lemma {:induction false} DecodeAcBits(h: Spec, zz: seq<int>, j: nat, run: nat, rest: seq<bool>, extra: nat := 0)
    requires AcComplete(h) && AcCodable(zz) && 1 <= j <= 64 && 1 <= j - run <= 63 && ZerosBefore(zz, j, run)
    ensures DecodeAc(h, AcBits(h, zz, j, run, extra) + rest, j - run) == Some((zz[j - run..], rest))
    decreases 64 - j, run
  {
    hide HuffBits, DecodeAc, CoefBits, Category;
    var k := j - run;
    if j == 64 && !(extra > 0 && run > 16) {
      DecodeEob(h, k, rest);
      SliceZeros(zz, k, run);
      assert ZeroRun(run) + zz[64..] == ZeroRun(run);
    } else if j < 64 && zz[j] == 0 {
      DecodeAcBits(h, zz, j + 1, run + 1, rest, extra);
    } else if j == 64 || run >= 16 {
      var more := if j == 64 then extra - 1 else extra;
      Assoc(HuffBits(h, 0xF0), AcBits(h, zz, j, run - 16, more), rest);
      DecodeZrl(h, k, AcBits(h, zz, j, run - 16, more) + rest);
      DecodeAcBits(h, zz, j, run - 16, rest, more);
      SliceZeros(zz, k, 16);
    } else {
      if j < 63 { DecodeAcBits(h, zz, j + 1, 0, rest, extra); }
      DecodeAcCoef(h, zz, j, run, rest, extra);
    }
  }
}
