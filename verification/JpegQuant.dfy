/** The quantization tables of WriteImage at its fixed quality, and the post-scale factors made from them. */
module JpegQuant {
  import opened Fdct
  import opened FdctBounds
  import opened JpegTables

  /** jpegTableK1_T and jpegTableK2_T. */
  const K1T: seq<nat> :=
    [16, 12, 14, 14, 18, 24, 49, 72]
    + [11, 12, 13, 17, 22, 35, 64, 92]
    + [10, 14, 16, 22, 37, 55, 78, 95]
    + [16, 19, 24, 29, 56, 64, 87, 98]
    + [24, 26, 40, 51, 68, 81, 103, 112]
    + [40, 58, 57, 87, 109, 104, 121, 100]
    + [51, 60, 69, 80, 103, 113, 120, 103]
    + [61, 55, 56, 62, 77, 92, 101, 99]

  const K2T: seq<nat> :=
    [17, 18, 24, 47, 99, 99, 99, 99]
    + [18, 21, 26, 66, 99, 99, 99, 99]
    + [24, 26, 56, 99, 99, 99, 99, 99]
    + [47, 66, 99, 99, 99, 99, 99, 99]
    + [99, 99, 99, 99, 99, 99, 99, 99]
    + [99, 99, 99, 99, 99, 99, 99, 99]
    + [99, 99, 99, 99, 99, 99, 99, 99]
    + [99, 99, 99, 99, 99, 99, 99, 99]

  const QUALITY: real := 12.0

  /** Round of simplejpeg.cpp: truncates and goes up only past one half. */
  function Round(num: real): int
    requires num >= 0.0
  {
    if num - num.Floor as real > 0.5 then num.Floor + 1 else num.Floor
  }

  /** A quantizer at the fixed quality. */
  function QVal(entry: nat): (q: nat)
    ensures 1 <= q <= 255
  {
    var q := Round(entry as real * (1.0 / QUALITY));
    if q < 1 then 1 else if q > 255 then 255 else q
  }

  /** The product of quantizer, chroma scale and prescale entry. */
  function Divisor(q: nat, chromaScale: nat, n: nat): (d: nat)
    requires q > 0 && chromaScale > 0 && n < 64
    ensures d > 0
  {
    PrescalePositive(n);
    Positive(q, chromaScale, Prescale(n));
    q * chromaScale * Prescale(n)
  }

  function Factor(q: nat, chromaScale: nat, n: nat): int
    requires q > 0 && chromaScale > 0 && n < 64
  {
    Round(Whole(Divisor(q, chromaScale, n)))
  }

  /** The division is one of integers. */
  function Whole(d: nat): (x: real)
    requires d > 0
    ensures x >= 0.0
  {
    (0x80_0000 / d) as real
  }

  lemma PrescalePositive(n: nat)
    requires n < 64
    ensures Prescale(n) > 0
  {
    hide PrescaleRow, Prescale1;
    PrescaleIsProduct(n / 8, n % 8);
  }

  lemma Positive(q: nat, c: nat, p: nat)
    requires q > 0 && c > 0 && p > 0
    ensures q * c * p > 0
  {
  }

  lemma RoundWhole(k: nat)
    ensures Round(k as real) == k
  {
  }

  lemma FactorBound(q: nat, count: nat, n: nat)
    requires q > 0 && count > 0 && n < 64
    ensures Factor(q, count, n) >= 0 && Factor(q, count, n) * (count * Prescale(n)) <= 0x80_0000
  {
    hide Prescale, Round;
    var p, d := Prescale(n), Divisor(q, count, n);
    var f := 0x80_0000 / d;
    RoundWhole(f);
    Quotient(d, f);
    assert f * d == (f * (count * p)) * q;
    Times(1, q, f * (count * p));
  }

  lemma Quotient(d: nat, f: nat)
    requires d > 0 && f == 0x80_0000 / d
    ensures f * d <= 0x80_0000
  {
  }

  /** The loop over the zig-zag sequence: it visits every index, so the whole table of factors is set. */
  method QuantTable(qtable: seq<nat>, chromaScale: nat) returns (scale: seq<int>, dqt: seq<nat>)
    requires |qtable| == 64 && chromaScale > 0
    ensures |dqt| == 64 && forall j :: 0 <= j < 64 ==> dqt[j] == QVal(qtable[Zigzag(j)])
    ensures |scale| == 64 && forall n :: 0 <= n < 64 ==> scale[n] == Factor(QVal(qtable[n]), chromaScale, n)
    ensures Postscale(scale, chromaScale)
  {
    hide QVal, Factor, Zigzag, Visited, Prescale;
    var table := new int[64];
    dqt := [];
    var j := 0;
    while j < 64
      invariant 0 <= j <= 64 && |dqt| == j
      invariant forall i :: 0 <= i < j ==> dqt[i] == QVal(qtable[Zigzag(i)])
      invariant forall i :: 0 <= i < j ==> table[Zigzag(i)] == Factor(QVal(qtable[Zigzag(i)]), chromaScale, Zigzag(i))
    {
      var idx := Zigzag(j);
      var qval := QVal(qtable[idx]);
      table[idx] := Factor(qval, chromaScale, idx);
      dqt := dqt + [qval];
      j := j + 1;
    }
    scale := table[..];
    forall n | 0 <= n < 64 ensures scale[n] == Factor(QVal(qtable[n]), chromaScale, n) {
      ZigzagVisits(n);
      assert 0 <= Visited(n) < 64;
    }
    forall n | 0 <= n < 64 ensures scale[n] >= 0 && scale[n] * (chromaScale * Prescale(n)) <= 0x80_0000 {
      FactorBound(QVal(qtable[n]), chromaScale, n);
    }
  }

  /** The DC quantizers of both tables are 1, so DC coefficients are the rounded means, eight times over. */
  lemma DcFactors()
    ensures QVal(K1T[0]) == 1 && QVal(K2T[0]) == 1
    ensures Factor(1, 1, 0) == 512 && Factor(1, 4, 0) == 128
  {
    Prescale0();
    assert Prescale(0) == 16384 && K1T[0] == 16 && K2T[0] == 17;
    RoundWhole(512);
    RoundWhole(128);
    OneAndAHalfAtMost(16);
    OneAndAHalfAtMost(17);
  }

  lemma OneAndAHalfAtMost(entry: nat)
    requires 12 <= entry <= 18
    ensures QVal(entry) == 1
  {
    var x := entry as real * (1.0 / QUALITY);
    assert 1.0 <= x <= 1.5;
    assert x.Floor == 1;
  }

  /** At these factors the DC coefficient is the rounded sum of the samples over 32, and over 128 for chroma. */
  lemma DcIsMean(v: seq<int>, scale: seq<int>)
    requires |v| == |scale| == 64
    ensures scale[0] == 512 ==> Quantized(v, scale)[0] == (Sum(v) + 16) / 32
    ensures scale[0] == 128 ==> Quantized(v, scale)[0] == (Sum(v) + 64) / 128
  {
    hide Quantized, Sum;
    DcIsSum(v, scale);
  }
}
