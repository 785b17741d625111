/** How large the results of the transform can be: the whole of the coefficients stays in eleven bits, the AC
    coefficients in ten, for luma samples and for sums of chroma samples alike. */
module FdctBounds {
  import opened Fdct
  import opened JpegBlock
  import opened Bits
  import opened JpegScan
  import opened JpegTables

  /** The first row of idct_prescale: 16384 times the scale of each output of the one-dimensional transform. */
  function Prescale1(k: nat): nat
    requires k < 8
  {
    match k
    case 0 => 16384 case 1 => 22725 case 2 => 21407 case 3 => 19266 case 4 => 16384 case 5 => 12873 case 6 => 8867 case 7 => 4520
  }

  lemma DescaleRounds(x: int)
    ensures 16384 * Descale(x) - 8192 <= x < 16384 * Descale(x) + 8192
  {
  }

  predicate Within(v: seq<int>, lo: int, hi: int) { forall n :: 0 <= n < |v| ==> lo <= v[n] <= hi }

  lemma EvenBounds(v: seq<int>, lo: int, hi: int)
    requires |v| == 8 && Within(v, lo, hi) && hi - lo >= 64
    ensures var t, w := Dct8(v), hi - lo;
      && 8 * lo <= t[0] <= 8 * hi
      && -(4 * 16384 * w) <= 16384 * t[4] <= 4 * 16384 * w
      && -(4 * 21407 * w) <= 16384 * t[2] <= 4 * 21407 * w
      && -(4 * 8867 * w) <= 16384 * t[6] <= 4 * 8867 * w
  {
    hide Descale;
    var p := PassOf(v);
    DescaleRounds((p.e - p.b) * C0_707);
  }

  /** Four differences, each between -w and w, weighted and off by less than two roundings. */
  lemma Weighted(d: seq<int>, w: int, c: seq<nat>, t: int, e: int, bound: int)
    requires |d| == |c| == 4 && Within(d, -w, w) && -16384 <= e <= 16384
    requires 16384 * t == c[0] * d[0] + c[1] * d[1] + c[2] * d[2] + c[3] * d[3] + e
    requires (c[0] + c[1] + c[2] + c[3]) * w + 16384 <= bound
    ensures -bound <= 16384 * t <= bound
  {
    Product(c[0], d[0], w);
    Product(c[1], d[1], w);
    Product(c[2], d[2], w);
    Product(c[3], d[3], w);
  }

  lemma Product(c: nat, d: int, w: int)
    requires -w <= d <= w
    ensures -(c * w) <= c * d <= c * w
  {
  }

  lemma Odd1And7(v: seq<int>, p: Pass, w: int)
    requires |v| == 8 && p == PassOf(v) && w >= 64
    requires Within([p.d07, p.d16, p.d25, p.d34], -w, w)
    ensures -(4 * 22725 * w) <= 16384 * Dct8(v)[1] <= 4 * 22725 * w
    ensures -(4 * 4520 * w) <= 16384 * Dct8(v)[7] <= 4 * 4520 * w
  {
    hide Descale, Within;
    DescaleRounds((p.d25 + p.d16) * C0_707);
    DescaleRounds((p.d16 + p.d07) * C1_306 + p.M());
    var t, d := Dct8(v), [p.d07, p.d16, p.d25, p.d34];
    var e1 := 16384 * t[1] - (31521 * p.d07 + 26722 * p.d16 + 17855 * p.d25 + 6270 * p.d34);
    Weighted(d, w, [31521, 26722, 17855, 6270], t[1], e1, 4 * 22725 * w);
    Negated(d, w);
    var d7 := [p.d07, -p.d16, p.d25, -p.d34];
    var e7 := 16384 * t[7] - (1247 * p.d07 - 3552 * p.d16 + 5315 * p.d25 - 6270 * p.d34);
    Weighted(d7, w, [1247, 3552, 5315, 6270], t[7], e7, 4 * 4520 * w);
  }

  lemma Odd3And5(v: seq<int>, p: Pass, w: int)
    requires |v| == 8 && p == PassOf(v) && w >= 64
    requires Within([p.d07, p.d16, p.d25, p.d34], -w, w)
    ensures -(4 * 19266 * w) <= 16384 * Dct8(v)[3] <= 4 * 19266 * w
    ensures -(4 * 12873 * w) <= 16384 * Dct8(v)[5] <= 4 * 12873 * w
  {
    hide Descale, Within;
    DescaleRounds((p.d25 + p.d16) * C0_707);
    DescaleRounds((p.d34 + p.d25) * C0_541 + p.M());
    var t, d := Dct8(v), [p.d07, p.d16, p.d25, p.d34];
    Negated(d, w);
    var d3 := [p.d07, -p.d16, -p.d25, -p.d34];
    var e3 := 16384 * t[3] - (22654 * p.d07 - 5315 * p.d16 - 26722 * p.d25 - 15137 * p.d34);
    Weighted(d3, w, [22654, 5315, 26722, 15137], t[3], e3, 4 * 19266 * w);
    var d5 := [p.d07, -p.d16, p.d25, p.d34];
    var e5 := 16384 * t[5] - (10114 * p.d07 - 17855 * p.d16 + 3552 * p.d25 + 15137 * p.d34);
    Weighted(d5, w, [10114, 17855, 3552, 15137], t[5], e5, 4 * 12873 * w);
  }

  /** The bounds hold for either sign of each difference. */
  lemma Negated(d: seq<int>, w: int)
    requires |d| == 4 && Within(d, -w, w)
    ensures Within([d[0], -d[1], d[2], -d[3]], -w, w) && Within([d[0], -d[1], -d[2], -d[3]], -w, w)
    ensures Within([d[0], -d[1], d[2], d[3]], -w, w)
  {
  }

  lemma Differences(v: seq<int>, lo: int, hi: int)
    requires |v| == 8 && Within(v, lo, hi)
    ensures var p := PassOf(v); Within([p.d07, p.d16, p.d25, p.d34], -(hi - lo), hi - lo)
  {
  }

  /** One pass: the constant term is a plain sum, and each other output is at most four times its scale times the spread
      of the samples. */
  lemma PassBounds(v: seq<int>, lo: int, hi: int, k: nat)
    requires |v| == 8 && Within(v, lo, hi) && hi - lo >= 64 && k < 8
    ensures 8 * lo <= Dct8(v)[0] <= 8 * hi
    ensures k > 0 ==> -(4 * Prescale1(k) * (hi - lo)) <= 16384 * Dct8(v)[k] <= 4 * Prescale1(k) * (hi - lo)
  {
    EvenBounds(v, lo, hi);
    Differences(v, lo, hi);
    Odd1And7(v, PassOf(v), hi - lo);
    Odd3And5(v, PassOf(v), hi - lo);
    hide Dct8, PassOf;
  }

  // ---------- both passes ----------

  /** The bound on the outputs in column c of the first pass. */
  function Reach(c: nat, w: nat): (b: int)
    requires c < 8
    ensures b >= 0
  {
    4 * Prescale1(c) * w / 16384
  }

  lemma ReachBounds(c: nat, w: nat, x: int)
    requires c < 8 && w >= 64
    ensures 32 <= Reach(c, w) && 16384 * Reach(c, w) <= 4 * Prescale1(c) * w
    ensures -(4 * Prescale1(c) * w) <= 16384 * x <= 4 * Prescale1(c) * w ==> -Reach(c, w) <= x <= Reach(c, w)
  {
  }

  /** What the first pass leaves in column c of its result. */
  predicate InReach(x: int, lo: int, hi: int, c: nat)
    requires c < 8 && lo <= hi
  {
    if c == 0 then 8 * lo <= x <= 8 * hi else -Reach(c, hi - lo) <= x <= Reach(c, hi - lo)
  }

  predicate ColumnInReach(col: seq<int>, lo: int, hi: int, c: nat)
    requires c < 8 && lo <= hi
  {
    forall r :: 0 <= r < |col| ==> InReach(col[r], lo, hi, c)
  }

  lemma FirstPass(v: seq<int>, lo: int, hi: int, c: nat)
    requires |v| == 64 && Within(v, lo, hi) && hi - lo >= 64 && c < 8
    ensures ColumnInReach(ColumnOf(RowPass(v), c), lo, hi, c)
  {
    hide Dct8, Prescale1, Reach;
    var work, col := RowPass(v), ColumnOf(RowPass(v), c);
    forall r | 0 <= r < 8 ensures InReach(col[r], lo, hi, c) {
      ColumnAt(work, c, r);
      Place(c, r);
      PassBounds(v[8 * r..8 * r + 8], lo, hi, c);
      ReachBounds(c, hi - lo, col[r]);
    }
  }

  lemma ColumnAt(work: seq<int>, c: nat, r: nat)
    requires |work| == 64 && c < 8 && r < 8
    ensures ColumnOf(work, c)[r] == work[8 * r + c]
  {
  }

  lemma Place(c: nat, r: nat)
    requires c < 8 && r < 8
    ensures (8 * r + c) / 8 == r && (8 * r + c) % 8 == c
  {
  }

  lemma ReachWithin(col: seq<int>, lo: int, hi: int, c: nat)
    requires c < 8 && lo <= hi && ColumnInReach(col, lo, hi, c)
    ensures if c == 0 then Within(col, 8 * lo, 8 * hi) else Within(col, -Reach(c, hi - lo), Reach(c, hi - lo))
  {
    hide Reach;
    forall r | 0 <= r < |col| ensures InReach(col[r], lo, hi, c) {}
  }

  /** 2^14 squared times an unscaled output. */
  predicate Below(out: int, c: nat, k: nat, w: nat)
    requires c < 8 && k < 8
  {
    -(32 * (Prescale1(c) * Prescale1(k)) * w) <= 0x1000_0000 * out <= 32 * (Prescale1(c) * Prescale1(k)) * w
  }

  lemma BothPasses(v: seq<int>, lo: int, hi: int, c: nat, k: nat)
    requires |v| == 64 && Within(v, lo, hi) && hi - lo >= 64 && c < 8 && k < 8
    ensures var out := Dct8(ColumnOf(RowPass(v), c))[k];
      if c == 0 && k == 0 then 64 * lo <= out <= 64 * hi else Below(out, c, k, hi - lo)
  {
    hide Dct8, Prescale1, Reach, RowPass, ColumnOf;
    var w, col := hi - lo, ColumnOf(RowPass(v), c);
    var out := Dct8(col)[k];
    FirstPass(v, lo, hi, c);
    ReachWithin(col, lo, hi, c);
    Scale0();
    if c == 0 {
      PassBounds(col, 8 * lo, 8 * hi, k);
      FirstColumn(Prescale1(k), w, out);
    } else {
      ReachBounds(c, w, 0);
      PassBounds(col, -Reach(c, w), Reach(c, w), k);
      OtherColumn(Prescale1(c), Prescale1(k), Reach(c, w), w, out);
      FirstRow(Prescale1(c), Reach(c, w), w, out);
    }
  }

  lemma Scale0()
    ensures Prescale1(0) == 16384
  {
  }

  lemma FirstColumn(pk: nat, w: nat, out: int)
    ensures -(4 * pk * (8 * w)) <= 16384 * out <= 4 * pk * (8 * w) ==>
      -(32 * (16384 * pk) * w) <= 0x1000_0000 * out <= 32 * (16384 * pk) * w
  {
    assert 4 * pk * (8 * w) == 32 * (pk * w) && 32 * (16384 * pk) * w == 32 * 16384 * (pk * w);
  }

  lemma FirstRow(pc: nat, b: int, w: nat, out: int)
    requires 16384 * b <= 4 * pc * w
    ensures -(8 * b) <= out <= 8 * b ==> -(32 * (pc * 16384) * w) <= 0x1000_0000 * out <= 32 * (pc * 16384) * w
  {
    assert 4 * pc * w == 4 * (pc * w) && 32 * (pc * 16384) * w == 32 * 16384 * (pc * w);
  }

  lemma OtherColumn(pc: nat, pk: nat, b: int, w: nat, out: int)
    requires 16384 * b <= 4 * pc * w
    ensures -(4 * pk * (2 * b)) <= 16384 * out <= 4 * pk * (2 * b) ==>
      -(32 * (pc * pk) * w) <= 0x1000_0000 * out <= 32 * (pc * pk) * w
  {
    assert pk * (16384 * b) <= pk * (4 * pc * w);
    assert pk * (4 * pc * w) == 4 * ((pc * pk) * w) && pk * (16384 * b) == 16384 * (pk * b);
    assert 4 * pk * (2 * b) == 8 * (pk * b) && 32 * (pc * pk) * w == 32 * ((pc * pk) * w);
  }

  // ---------- quantization ----------

  /** idct_prescale. */
  function PrescaleRow(r: nat): (row: seq<nat>)
    requires r < 8
    ensures |row| == 8
  {
    match r
    case 0 => [16384, 22725, 21407, 19266, 16384, 12873, 8867, 4520]
    case 1 => [22725, 31521, 29692, 26722, 22725, 17855, 12299, 6270]
    case 2 => [21407, 29692, 27969, 25172, 21407, 16819, 11585, 5906]
    case 3 => [19266, 26722, 25172, 22654, 19266, 15137, 10426, 5315]
    case 4 => [16384, 22725, 21407, 19266, 16384, 12873, 8867, 4520]
    case 5 => [12873, 17855, 16819, 15137, 12873, 10114, 6967, 3552]
    case 6 => [8867, 12299, 11585, 10426, 8867, 6967, 4799, 2446]
    case 7 => [4520, 6270, 5906, 5315, 4520, 3552, 2446, 1247]
  }

  function Prescale(n: nat): nat
    requires n < 64
  {
    PrescaleRow(n / 8)[n % 8]
  }

  /** The table is the product of the scales, to one part in a thousand. */
  lemma PrescaleIsProduct(c: nat, k: nat)
    requires c < 8 && k < 8
    ensures 1000 * (Prescale1(c) * Prescale1(k)) <= 1001 * 16384 * PrescaleRow(c)[k] && PrescaleRow(c)[k] > 0
  {
    match c
    case 0 => PrescaleRow0(k);
    case 1 => PrescaleRow1(k);
    case 2 => PrescaleRow2(k);
    case 3 => PrescaleRow3(k);
    case 4 => PrescaleRow4(k);
    case 5 => PrescaleRow5(k);
    case 6 => PrescaleRow6(k);
    case 7 => PrescaleRow7(k);
  }

  lemma PrescaleRow0(k: nat)
    requires k < 8
    ensures 1000 * (Prescale1(0) * Prescale1(k)) <= 1001 * 16384 * PrescaleRow(0)[k] && PrescaleRow(0)[k] > 0
  {
  }

  lemma PrescaleRow1(k: nat)
    requires k < 8
    ensures 1000 * (Prescale1(1) * Prescale1(k)) <= 1001 * 16384 * PrescaleRow(1)[k] && PrescaleRow(1)[k] > 0
  {
  }

  lemma PrescaleRow2(k: nat)
    requires k < 8
    ensures 1000 * (Prescale1(2) * Prescale1(k)) <= 1001 * 16384 * PrescaleRow(2)[k] && PrescaleRow(2)[k] > 0
  {
  }

  lemma PrescaleRow3(k: nat)
    requires k < 8
    ensures 1000 * (Prescale1(3) * Prescale1(k)) <= 1001 * 16384 * PrescaleRow(3)[k] && PrescaleRow(3)[k] > 0
  {
  }

  lemma PrescaleRow4(k: nat)
    requires k < 8
    ensures 1000 * (Prescale1(4) * Prescale1(k)) <= 1001 * 16384 * PrescaleRow(4)[k] && PrescaleRow(4)[k] > 0
  {
  }

  lemma PrescaleRow5(k: nat)
    requires k < 8
    ensures 1000 * (Prescale1(5) * Prescale1(k)) <= 1001 * 16384 * PrescaleRow(5)[k] && PrescaleRow(5)[k] > 0
  {
  }

  lemma PrescaleRow6(k: nat)
    requires k < 8
    ensures 1000 * (Prescale1(6) * Prescale1(k)) <= 1001 * 16384 * PrescaleRow(6)[k] && PrescaleRow(6)[k] > 0
  {
  }

  lemma PrescaleRow7(k: nat)
    requires k < 8
    ensures 1000 * (Prescale1(7) * Prescale1(k)) <= 1001 * 16384 * PrescaleRow(7)[k] && PrescaleRow(7)[k] > 0
  {
  }

  /** A post-scale table for sums of `count` samples: a whole multiple of the quantizer keeps each entry this small. */
  predicate Postscale(t: seq<int>, count: nat) {
    |t| == 64 && forall n :: 0 <= n < 64 ==> t[n] >= 0 && t[n] * (count * Prescale(n)) <= 0x80_0000
  }

  lemma ScaledBound(out: int, ps: nat, c: nat, k: nat, count: nat, pre: nat)
    requires c < 8 && k < 8 && Below(out, c, k, 1020 * count)
    requires 1000 * (Prescale1(c) * Prescale1(k)) <= 1001 * 16384 * pre && ps * (count * pre) <= 0x80_0000
    ensures -1023 <= Descale(out * ps) <= 1023
  {
    hide Descale, Prescale1;
    var q := Prescale1(c) * Prescale1(k);
    var m := if out < 0 then -out else out;
    Magnitudes(q, 1020 * count, m, ps);
    Chain(q, count, pre, ps);
    assert 0x1000_0000 * (m * ps) <= 32 * 1020 * (q * (count * ps));
    assert 1000 * (q * (count * ps)) <= 1001 * 16384 * 0x80_0000;
    assert 1000 * (m * ps) <= 1001 * 16384 * 1020;
    assert out * ps == m * ps || out * ps == -(m * ps);
    DescaleRounds(out * ps);
  }

  lemma Magnitudes(q: nat, w: nat, m: nat, ps: nat)
    requires 0x1000_0000 * m <= 32 * q * w
    ensures 0x1000_0000 * (m * ps) <= 32 * (q * (w * ps))
  {
    assert (0x1000_0000 * m) * ps <= (32 * q * w) * ps;
    assert (32 * q * w) * ps == 32 * (q * (w * ps));
  }

  lemma Chain(q: nat, count: nat, pre: nat, ps: nat)
    requires 1000 * q <= 1001 * 16384 * pre && ps * (count * pre) <= 0x80_0000
    ensures 1000 * (q * (count * ps)) <= 1001 * 16384 * 0x80_0000
    ensures q * ((1020 * count) * ps) == 1020 * (q * (count * ps))
  {
    assert (1000 * q) * (count * ps) <= (1001 * 16384 * pre) * (count * ps);
    assert (1001 * 16384 * pre) * (count * ps) == 1001 * 16384 * (ps * (count * pre));
  }

  // ---------- coefficients ----------

  /** Sums of up to `count` samples: luma samples with count 1, chroma samples of four pixels with count 4. */
  ghost predicate Samples8x8(v: seq<int>, count: nat) {
    |v| == 64 && count > 0 && exists lo, hi :: Spread(lo, hi, count) && Within(v, lo, hi)
  }

  predicate Spread(lo: int, hi: int, count: nat) { hi - lo == 1020 * count && -512 * count <= lo && hi <= 510 * count }

  lemma DcBounds(out: int, lo: int, hi: int, count: nat, ps: nat)
    requires Spread(lo, hi, count) && 64 * lo <= out <= 64 * hi && ps * (count * 16384) <= 0x80_0000
    ensures -1024 <= Descale(out * ps) <= 1020
  {
    hide Descale;
    var q := count * ps;
    Times(-32768 * count, out, ps);
    Times(out, 32640 * count, ps);
    assert (-32768 * count) * ps == -32768 * q && (32640 * count) * ps == 32640 * q && ps * (count * 16384) == 16384 * q;
    DescaleRounds(out * ps);
  }

  lemma Times(a: int, b: int, c: nat)
    requires a <= b
    ensures a * c <= b * c
  {
  }

  /** The DC coefficient fits eleven bits with its sign, the AC coefficients ten and a sign. */
  predicate Bounded(block: seq<int>) {
    |block| == 64 && -1024 <= block[0] <= 1020 && forall n :: 1 <= n < 64 ==> -1023 <= block[n] <= 1023
  }

  lemma CoefficientBound(v: seq<int>, lo: int, hi: int, scale: seq<int>, count: nat, n: nat)
    requires |v| == 64 && Within(v, lo, hi) && Spread(lo, hi, count) && count > 0 && Postscale(scale, count) && n < 64
    ensures var x := Quantized(v, scale)[n]; if n == 0 then -1024 <= x <= 1020 else -1023 <= x <= 1023
  {
    hide Dct8, RowPass, ColumnOf, Descale, Prescale1, PrescaleRow, Below;
    var c, k := n / 8, n % 8;
    var out := Dct8(ColumnOf(RowPass(v), c))[k];
    BothPasses(v, lo, hi, c, k);
    assert scale[n] >= 0 && scale[n] * (count * PrescaleRow(c)[k]) <= 0x80_0000;
    if n == 0 {
      Prescale0();
      DcBounds(out, lo, hi, count, scale[0]);
    } else {
      PrescaleIsProduct(c, k);
      ScaledBound(out, scale[n], c, k, count, PrescaleRow(c)[k]);
    }
  }

  lemma Prescale0()
    ensures PrescaleRow(0)[0] == 16384
  {
  }

  /** Whatever the samples, the coefficients are small enough for every assertion of the coder. */
  lemma QuantizedBounded(v: seq<int>, scale: seq<int>, count: nat)
    requires Samples8x8(v, count) && Postscale(scale, count)
    ensures Bounded(Quantized(v, scale))
  {
    assert |v| == |scale| == 64;
    hide Quantized, Postscale;
    var lo, hi :| Spread(lo, hi, count) && Within(v, lo, hi);
    forall n | 0 <= n < 64
      ensures var x := Quantized(v, scale)[n]; if n == 0 then -1024 <= x <= 1020 else -1023 <= x <= 1023
    {
      CoefficientBound(v, lo, hi, scale, count, n);
    }
  }

  // ---------- no overflow ----------

  predicate Int32(x: int) { -0x8000_0000 <= x < 0x8000_0000 }

  predicate EvenFits(p: Pass) {
    && Int32(p.a + p.c) && Int32(p.a - p.c) && Int32((p.e - p.b) * C0_707 + 8192)
  }

  predicate OddFits(p: Pass) {
    && Int32((p.d25 + p.d16) * C0_707 + 8192) && Int32(p.M())
    && Int32((p.d34 + p.d25) * C0_541) && Int32((p.d34 + p.d25) * C0_541 + p.M() + 8192)
    && Int32((p.d16 + p.d07) * C1_306) && Int32((p.d16 + p.d07) * C1_306 + p.M() + 8192)
  }

  /** Every product and sum of one pass over these samples, roundings included. */
  predicate PassFits(v: seq<int>)
    requires |v| == 8
  {
    EvenFits(PassOf(v)) && OddFits(PassOf(v)) && forall k :: 0 <= k < 8 ==> Int32(Dct8(v)[k])
  }

  /** Samples up to here are safe; the first pass leaves no larger ones. */
  const SAFE: int := 22700

  lemma EvenFit(v: seq<int>)
    requires |v| == 8 && Within(v, -SAFE, SAFE)
    ensures EvenFits(PassOf(v))
  {
  }

  lemma OddFit(p: Pass)
    requires Within([p.d07, p.d16, p.d25, p.d34], -2 * SAFE, 2 * SAFE)
    ensures OddFits(p)
  {
    var d := [p.d07, p.d16, p.d25, p.d34];
    assert -2 * SAFE <= d[0] <= 2 * SAFE && -2 * SAFE <= d[1] <= 2 * SAFE;
    assert -2 * SAFE <= d[2] <= 2 * SAFE && -2 * SAFE <= d[3] <= 2 * SAFE;
  }

  lemma SmallPassFits(v: seq<int>)
    requires |v| == 8 && Within(v, -SAFE, SAFE)
    ensures PassFits(v)
  {
    hide Dct8, PassOf, EvenFits, OddFits, Within, Prescale1;
    EvenFit(v);
    Differences(v, -SAFE, SAFE);
    OddFit(PassOf(v));
    forall k | 0 <= k < 8 ensures Int32(Dct8(v)[k]) {
      PassBounds(v, -SAFE, SAFE, k);
      ScaleBound(k);
    }
  }

  lemma ScaleBound(k: nat)
    requires k < 8
    ensures Prescale1(k) <= 22725
  {
  }

  lemma WiderRange(v: seq<int>, lo: int, hi: int)
    requires Within(v, lo, hi) && -SAFE <= lo && hi <= SAFE
    ensures Within(v, -SAFE, SAFE)
  {
  }

  lemma ReachSmall(c: nat, w: nat)
    requires c < 8 && w <= 4080
    ensures Reach(c, w) <= SAFE
  {
  }

  lemma ColumnFits(v: seq<int>, lo: int, hi: int, c: nat)
    requires |v| == 64 && Within(v, lo, hi) && 64 <= hi - lo <= 4080 && -2048 <= lo && hi <= 2048 && c < 8
    ensures PassFits(ColumnOf(RowPass(v), c))
  {
    hide PassFits, RowPass, ColumnOf, Reach, Within;
    var col := ColumnOf(RowPass(v), c);
    FirstPass(v, lo, hi, c);
    ReachWithin(col, lo, hi, c);
    ReachSmall(c, hi - lo);
    if c == 0 { WiderRange(col, 8 * lo, 8 * hi); } else { WiderRange(col, -Reach(c, hi - lo), Reach(c, hi - lo)); }
    SmallPassFits(col);
  }

  lemma RowFits(v: seq<int>, lo: int, hi: int, r: nat)
    requires |v| == 64 && Within(v, lo, hi) && -SAFE <= lo && hi <= SAFE && r < 8
    ensures PassFits(v[8 * r..8 * r + 8])
  {
    hide PassFits;
    var row := v[8 * r..8 * r + 8];
    assert Within(row, lo, hi);
    WiderRange(row, lo, hi);
    SmallPassFits(row);
  }

  lemma ScalingFits(v: seq<int>, lo: int, hi: int, scale: seq<int>, count: nat, n: nat)
    requires |v| == 64 && Within(v, lo, hi) && Spread(lo, hi, count) && count > 0 && Postscale(scale, count) && n < 64
    ensures Int32(Dct8(ColumnOf(RowPass(v), n / 8))[n % 8] * scale[n] + 8192)
  {
    hide RowPass, ColumnOf, Dct8, Descale, Within;
    CoefficientBound(v, lo, hi, scale, count, n);
    DescaleRounds(Dct8(ColumnOf(RowPass(v), n / 8))[n % 8] * scale[n]);
  }

  /** With samples of luma or chroma no operation of the transform leaves 32 bits: not in the rows, not in the columns,
      and not in the final scaling. */
  lemma TransformFits(v: seq<int>, scale: seq<int>, count: nat, r: nat, n: nat)
    requires Samples8x8(v, count) && count <= 4 && Postscale(scale, count) && r < 8 && n < 64
    ensures PassFits(v[8 * r..8 * r + 8]) && PassFits(ColumnOf(RowPass(v), r))
    ensures Int32(Dct8(ColumnOf(RowPass(v), n / 8))[n % 8] * scale[n] + 8192)
  {
    var lo, hi :| Spread(lo, hi, count) && Within(v, lo, hi);
    hide PassFits, RowPass, ColumnOf, Dct8, Postscale, Within;
    RowFits(v, lo, hi, r);
    ColumnFits(v, lo, hi, r);
    ScalingFits(v, lo, hi, scale, count, n);
  }

  // ---------- the DC coefficient ----------

  function Sum(v: seq<int>): int { if v == [] then 0 else Sum(v[..|v| - 1]) + v[|v| - 1] }

  lemma {:induction false} SumConcat(a: seq<int>, b: seq<int>)
    ensures Sum(a + b) == Sum(a) + Sum(b)
  {
    if b == [] {
      assert a + b == a;
    } else {
      assert (a + b)[..|a + b| - 1] == a + b[..|b| - 1];
      SumConcat(a, b[..|b| - 1]);
    }
  }

  lemma SumStep(v: seq<int>, k: nat)
    requires k < |v|
    ensures Sum(v[..k + 1]) == Sum(v[..k]) + v[k]
  {
    assert v[..k + 1][..k] == v[..k];
  }

  lemma FirstOutput(v: seq<int>)
    requires |v| == 8
    ensures Dct8(v)[0] == v[0] + v[1] + v[2] + v[3] + v[4] + v[5] + v[6] + v[7]
  {
    hide Descale;
  }

  lemma Sum8(v: seq<int>)
    requires |v| == 8
    ensures Sum(v) == Dct8(v)[0]
  {
    hide Sum, Dct8;
    FirstOutput(v);
    SumNone();
    SumStep(v, 0); SumStep(v, 1); SumStep(v, 2); SumStep(v, 3);
    SumStep(v, 4); SumStep(v, 5); SumStep(v, 6); SumStep(v, 7);
    assert v[..0] == [] && v[..8] == v;
  }

  lemma {:induction false} SumRows(v: seq<int>, work: seq<int>, r: nat)
    requires |v| == 64 && work == RowPass(v) && r <= 8
    ensures Sum(v[..8 * r]) == Sum(ColumnOf(work, 0)[..r])
  {
    hide Dct8, Sum;
    if r > 0 {
      var col := ColumnOf(work, 0);
      SumRows(v, work, r - 1);
      SumConcat(v[..8 * (r - 1)], v[8 * (r - 1)..8 * r]);
      assert v[..8 * r] == v[..8 * (r - 1)] + v[8 * (r - 1)..8 * r];
      Sum8(v[8 * (r - 1)..8 * r]);
      ColumnAt(work, 0, r - 1);
      Place(0, r - 1);
      SumConcat(col[..r - 1], [col[r - 1]]);
      assert col[..r] == col[..r - 1] + [col[r - 1]];
      SumOne(col[r - 1]);
    } else {
      SumNone();
    }
  }

  lemma SumOne(x: int)
    ensures Sum([x]) == x
  {
  }

  lemma SumNone()
    ensures Sum([]) == 0
  {
  }

  /** The DC coefficient is the sum of the 64 samples, scaled and rounded. */
  lemma DcIsSum(v: seq<int>, scale: seq<int>)
    requires |v| == |scale| == 64
    ensures Quantized(v, scale)[0] == Descale(Sum(v) * scale[0])
  {
    hide Dct8, Sum, Descale, RowPass;
    var col := ColumnOf(RowPass(v), 0);
    SumRows(v, RowPass(v), 8);
    assert v[..64] == v && col[..8] == col;
    Sum8(col);
  }

  // ---------- the assertions of the coder ----------

  lemma CategoryWithin(v: int, n: nat)
    requires -(Pow2(n) as int) < v < Pow2(n)
    ensures Category(v) <= n
  {
    if Category(v) > n {
      BitLengthBounds(Abs(v));
      Pow2Monotonic(n, Category(v) - 1);
    }
  }

  lemma BoundedCodable(block: seq<int>)
    requires Bounded(block)
    ensures AcCodable(Zigzagged(block))
  {
    hide Category, Zigzag, Visited;
    var zz := Zigzagged(block);
    Pow2Of10();
    forall k | 1 <= k < 64 ensures Category(zz[k]) <= 10 {
      VisitedZigzag(k);
      VisitedFirst();
      CategoryWithin(zz[k], 10);
    }
  }

  lemma Pow2Of10()
    ensures Pow2(10) == 1024 && Pow2(11) == 2048
  {
    assert Pow2(4) == 16 && Pow2(6) == 64 && Pow2(8) == 256;
  }

  lemma VisitedFirst()
    ensures Visited(0) == 0
  {
  }

  predicate DcInRange(pred: seq<int>) { |pred| == 3 && forall c :: 0 <= c < 3 ==> -1024 <= pred[c] <= 1020 }

  /** Neither assertion of the coder can fail: not on DC differences, for the first block of a component or any later
      one, and not on AC coefficients. */
  lemma {:induction false} BoundedScanCodable(units: seq<Unit>, pred: seq<int>)
    requires forall k :: 0 <= k < |units| ==> units[k].comp < 3 && Bounded(units[k].block)
    requires DcInRange(pred)
    ensures ScanCodable(units, pred)
  {
    hide Category, AcCodable;
    if units != [] {
      var u := units[0];
      assert u.comp < 3 && Bounded(u.block);
      BoundedCodable(u.block);
      Pow2Of10();
      CategoryWithin(u.block[0] - pred[u.comp], 11);
      BoundedScanCodable(units[1..], pred[u.comp := u.block[0]]);
    }
  }
}
