/** The forward transform aan_fdct8x8, followed step by step: one function for eight samples, applied to the rows and
    then to the columns of a block. */
module Fdct {

  // fix(x, fixb) of 0.707106781, 0.541196100, 0.382683432 and 1.306562965
  const C0_707: int := 11585
  const C0_541: int := 8867
  const C0_382: int := 6270
  const C1_306: int := 21407

  /** The macro descale with a shift of 14: rounds to nearest, halves up, for either sign. */
  function Descale(x: int): int { (x + 8192) / 16384 }

  /** The sums and differences of opposite samples, and the rounded products they enter. */
  datatype Pass = Pass(a: int, b: int, c: int, e: int, d07: int, d16: int, d25: int, d34: int)
  {
    function F(): int { Descale((e - b) * C0_707) }
    function I(): int { Descale((d25 + d16) * C0_707) }
    function M(): int { ((d34 + d25) - (d16 + d07)) * C0_382 }
    function N(): int { Descale((d34 + d25) * C0_541 + M()) }
    function O(): int { Descale((d16 + d07) * C1_306 + M()) }
  }

  function PassOf(v: seq<int>): Pass
    requires |v| == 8
  {
    Pass((v[0] + v[7]) + (v[3] + v[4]), (v[0] + v[7]) - (v[3] + v[4]), (v[2] + v[5]) + (v[1] + v[6]), (v[2] + v[5]) - (v[1] + v[6]),
      v[0] - v[7], v[1] - v[6], v[2] - v[5], v[3] - v[4])
  }

  /** The one-dimensional transform of eight samples. */
  function Dct8(v: seq<int>): (r: seq<int>)
    requires |v| == 8
    ensures |r| == 8
  {
    var p := PassOf(v);
    [p.a + p.c, (p.I() + p.d07) + p.O(), p.b - p.F(), (p.d07 - p.I()) - p.N(),
     p.a - p.c, p.N() + (p.d07 - p.I()), p.b + p.F(), (p.I() + p.d07) - p.O()]
  }

  /** Pass 1 on the row at src[b..b + 8], into work[w..w + 8]. */
  method Row(src: array<int>, b: nat, work: array<int>, w: nat)
    requires src != work && b + 8 <= src.Length && w + 8 <= work.Length
    modifies work
    ensures work[w..w + 8] == Dct8(src[b..b + 8])
    ensures forall k :: 0 <= k < work.Length && !(w <= k < w + 8) ==> work[k] == old(work[k])
  {
    hide Descale;
    RowEven(src, b, work, w);
    RowOdd(work, w, PassOf(src[b..b + 8]));
  }

  /** The even outputs, and the differences of opposite samples in the other places. */
  method RowEven(src: array<int>, b: nat, work: array<int>, w: nat)
    requires src != work && b + 8 <= src.Length && w + 8 <= work.Length
    modifies work
    ensures var p := PassOf(src[b..b + 8]);
      && work[w] == p.a + p.c && work[w + 4] == p.a - p.c && work[w + 2] == p.b - p.F() && work[w + 6] == p.b + p.F()
      && work[w + 1] == p.d34 && work[w + 3] == p.d25 && work[w + 5] == p.d16 && work[w + 7] == p.d07
    ensures forall k :: 0 <= k < work.Length && !(w <= k < w + 8) ==> work[k] == old(work[k])
  {
    hide Descale;
    var x0, x1 := src[b], src[b + 7];
    var x2, x3 := src[b + 3], src[b + 4];

    var x4 := x0 + x1; x0 := x0 - x1;
    x1 := x2 + x3; x2 := x2 - x3;

    work[w + 7] := x0; work[w + 1] := x2;
    x2 := x4 + x1; x4 := x4 - x1;

    x0 := src[b + 1]; x3 := src[b + 6];
    x1 := x0 + x3; x0 := x0 - x3;
    work[w + 5] := x0;

    x0 := src[b + 2]; x3 := src[b + 5];
    work[w + 3] := x0 - x3; x0 := x0 + x3;

    x3 := x0 + x1; x0 := x0 - x1;
    x1 := x2 + x3; x2 := x2 - x3;

    work[w] := x1; work[w + 4] := x2;

    x0 := Descale((x0 - x4) * C0_707);
    x1 := x4 + x0; x4 := x4 - x0;
    work[w + 2] := x4; work[w + 6] := x1;
  }

  /** The odd outputs, from the differences. */
  method RowOdd(work: array<int>, w: nat, ghost p: Pass)
    requires w + 8 <= work.Length
    requires work[w + 1] == p.d34 && work[w + 3] == p.d25 && work[w + 5] == p.d16 && work[w + 7] == p.d07
    modifies work
    ensures work[w + 1] == (p.I() + p.d07) + p.O() && work[w + 3] == (p.d07 - p.I()) - p.N()
    ensures work[w + 5] == p.N() + (p.d07 - p.I()) && work[w + 7] == (p.I() + p.d07) - p.O()
    ensures forall k :: 0 <= k < work.Length && k != w + 1 && k != w + 3 && k != w + 5 && k != w + 7 ==> work[k] == old(work[k])
  {
    hide Descale;
    var x0, x1 := work[w + 1], work[w + 3];
    var x2, x3 := work[w + 5], work[w + 7];

    x0 := x0 + x1; x1 := x1 + x2; x2 := x2 + x3;
    x1 := Descale(x1 * C0_707);

    var x4 := x1 + x3; x3 := x3 - x1;
    x1 := (x0 - x2) * C0_382;
    x0 := Descale(x0 * C0_541 + x1);
    x2 := Descale(x2 * C1_306 + x1);

    x1 := x0 + x3; x3 := x3 - x0;
    x0 := x4 + x2; x4 := x4 - x2;

    work[w + 5] := x1; work[w + 1] := x0;
    work[w + 7] := x4; work[w + 3] := x3;
  }

  function ColumnOf(work: seq<int>, c: nat): (v: seq<int>)
    requires |work| == 64 && c < 8
    ensures |v| == 8
  {
    [work[c], work[8 + c], work[16 + c], work[24 + c], work[32 + c], work[40 + c], work[48 + c], work[56 + c]]
  }

  /** A column of the result: scaled and rounded. */
  function Scaled(t: seq<int>, scale: seq<int>): (r: seq<int>)
    requires |t| == |scale| == 8
    ensures |r| == 8
  {
    [Descale(t[0] * scale[0]), Descale(t[1] * scale[1]), Descale(t[2] * scale[2]), Descale(t[3] * scale[3]),
     Descale(t[4] * scale[4]), Descale(t[5] * scale[5]), Descale(t[6] * scale[6]), Descale(t[7] * scale[7])]
  }

  /** Pass 2 on column c, into dst[d..d + 8]; the column serves as scratch space. */
  method Column(work: array<int>, c: nat, dst: array<int>, d: nat, postscale: seq<int>, p: nat)
    requires work.Length == 64 && c < 8 && d + 8 <= dst.Length && p + 8 <= |postscale| && dst != work
    modifies work, dst
    ensures dst[d..d + 8] == Scaled(Dct8(old(ColumnOf(work[..], c))), postscale[p..p + 8])
    ensures forall k :: 0 <= k < dst.Length && !(d <= k < d + 8) ==> dst[k] == old(dst[k])
    ensures forall k :: 0 <= k < 64 && k % 8 != c ==> work[k] == old(work[k])
  {
    hide Descale;
    ghost var q := PassOf(ColumnOf(work[..], c));
    ColumnEven(work, c, dst, d, postscale, p);
    ColumnOdd(work, c, dst, d, postscale, p, q);
  }

  method ColumnEven(work: array<int>, c: nat, dst: array<int>, d: nat, postscale: seq<int>, p: nat)
    requires work.Length == 64 && c < 8 && d + 8 <= dst.Length && p + 8 <= |postscale| && dst != work
    modifies work, dst
    ensures var q := PassOf(old(ColumnOf(work[..], c)));
      && dst[d] == Descale((q.a + q.c) * postscale[p]) && dst[d + 4] == Descale((q.a - q.c) * postscale[p + 4])
      && dst[d + 2] == Descale((q.b - q.F()) * postscale[p + 2]) && dst[d + 6] == Descale((q.b + q.F()) * postscale[p + 6])
      && work[c] == q.d34 && work[24 + c] == q.d25 && work[32 + c] == q.d16 && work[56 + c] == q.d07
    ensures forall k :: 0 <= k < dst.Length && !(d <= k < d + 8) ==> dst[k] == old(dst[k])
    ensures forall k :: 0 <= k < 64 && k % 8 != c ==> work[k] == old(work[k])
  {
    hide Descale;
    var x0, x1 := work[c], work[56 + c];
    var x2, x3 := work[24 + c], work[32 + c];

    var x4 := x0 + x1; x0 := x0 - x1;
    x1 := x2 + x3; x2 := x2 - x3;

    work[56 + c] := x0; work[c] := x2;
    x2 := x4 + x1; x4 := x4 - x1;

    x0 := work[8 + c]; x3 := work[48 + c];
    x1 := x0 + x3; x0 := x0 - x3;
    work[32 + c] := x0;

    x0 := work[16 + c]; x3 := work[40 + c];
    work[24 + c] := x0 - x3; x0 := x0 + x3;

    x3 := x0 + x1; x0 := x0 - x1;
    x1 := x2 + x3; x2 := x2 - x3;

    dst[d] := Descale(x1 * postscale[p]);
    dst[d + 4] := Descale(x2 * postscale[p + 4]);

    x0 := Descale((x0 - x4) * C0_707);
    x1 := x4 + x0; x4 := x4 - x0;

    dst[d + 2] := Descale(x4 * postscale[p + 2]);
    dst[d + 6] := Descale(x1 * postscale[p + 6]);
  }

  method ColumnOdd(work: array<int>, c: nat, dst: array<int>, d: nat, postscale: seq<int>, p: nat, ghost q: Pass)
    requires work.Length == 64 && c < 8 && d + 8 <= dst.Length && p + 8 <= |postscale| && dst != work
    requires work[c] == q.d34 && work[24 + c] == q.d25 && work[32 + c] == q.d16 && work[56 + c] == q.d07
    modifies dst
    ensures dst[d + 1] == Descale(((q.I() + q.d07) + q.O()) * postscale[p + 1])
    ensures dst[d + 3] == Descale(((q.d07 - q.I()) - q.N()) * postscale[p + 3])
    ensures dst[d + 5] == Descale((q.N() + (q.d07 - q.I())) * postscale[p + 5])
    ensures dst[d + 7] == Descale(((q.I() + q.d07) - q.O()) * postscale[p + 7])
    ensures forall k :: 0 <= k < dst.Length && k != d + 1 && k != d + 3 && k != d + 5 && k != d + 7 ==> dst[k] == old(dst[k])
  {
    hide Descale;
    var x0, x1 := work[c], work[24 + c];
    var x2, x3 := work[32 + c], work[56 + c];

    x0 := x0 + x1; x1 := x1 + x2; x2 := x2 + x3;
    x1 := Descale(x1 * C0_707);

    var x4 := x1 + x3; x3 := x3 - x1;
    x1 := (x0 - x2) * C0_382;
    x0 := Descale(x0 * C0_541 + x1);
    x2 := Descale(x2 * C1_306 + x1);

    x1 := x0 + x3; x3 := x3 - x0;
    x0 := x4 + x2; x4 := x4 - x2;

    dst[d + 5] := Descale(x1 * postscale[p + 5]);
    dst[d + 1] := Descale(x0 * postscale[p + 1]);
    dst[d + 7] := Descale(x4 * postscale[p + 7]);
    dst[d + 3] := Descale(x3 * postscale[p + 3]);
  }

  // ---------- a whole block ----------

  /** Where row r of the block starts: the source advances by `step` from row to row. */
  function RowAt(base: nat, step: nat, r: nat): nat {
    if r == 0 then base else RowAt(base, step, r - 1) + step
  }

  predicate RowsIn(len: nat, base: nat, step: nat) {
    forall r :: 0 <= r < 8 ==> RowAt(base, step, r) + 8 <= len
  }

  /** The 64 samples of a block, row by row. */
  function Samples(src: seq<int>, base: nat, step: nat): (v: seq<int>)
    requires RowsIn(|src|, base, step)
    ensures |v| == 64
  {
    seq(64, n requires 0 <= n < 64 => src[RowAt(base, step, n / 8) + n % 8])
  }

  /** The rows transformed. */
  function RowPass(v: seq<int>): (work: seq<int>)
    requires |v| == 64
    ensures |work| == 64
  {
    seq(64, n requires 0 <= n < 64 => Dct8(v[n / 8 * 8..n / 8 * 8 + 8])[n % 8])
  }

  function Output(work: seq<int>, postscale: seq<int>, n: nat): int
    requires |work| == |postscale| == 64 && n < 64
  {
    Descale(Dct8(ColumnOf(work, n / 8))[n % 8] * postscale[n])
  }

  /** The columns transformed, scaled and rounded: column c becomes the c-th group of eight, so the result is transposed. */
  function ColumnPass(work: seq<int>, postscale: seq<int>): (r: seq<int>)
    requires |work| == |postscale| == 64
    ensures |r| == 64
  {
    seq(64, n requires 0 <= n < 64 => Output(work, postscale, n))
  }

  /** The quantized block of 64 samples. */
  function Quantized(v: seq<int>, postscale: seq<int>): (r: seq<int>)
    requires |v| == |postscale| == 64
    ensures |r| == 64
  {
    ColumnPass(RowPass(v), postscale)
  }

  lemma ColumnOutput(work: seq<int>, postscale: seq<int>, c: nat, k: nat)
    requires |work| == |postscale| == 64 && c < 8 && k < 8
    ensures Scaled(Dct8(ColumnOf(work, c)), postscale[8 * c..8 * c + 8])[k] == Output(work, postscale, 8 * c + k)
  {
    hide Descale, Dct8;
    assert (8 * c + k) / 8 == c && (8 * c + k) % 8 == k;
  }

  method Rows(src: array<int>, base: nat, step: nat, work: array<int>)
    requires src != work && RowsIn(src.Length, base, step) && work.Length == 64
    modifies work
    ensures work[..] == RowPass(Samples(src[..], base, step))
  {
    hide Dct8;
    ghost var v := Samples(src[..], base, step);
    var i, b, w := 0, base, 0;
    while i < 8
      invariant 0 <= i <= 8 && b == RowAt(base, step, i) && w == 8 * i
      invariant forall n :: 0 <= n < w ==> work[n] == Dct8(v[n / 8 * 8..n / 8 * 8 + 8])[n % 8]
    {
      Row(src, b, work, w);
      assert src[b..b + 8] == v[w..w + 8];
      forall n | w <= n < w + 8 ensures work[n] == Dct8(v[n / 8 * 8..n / 8 * 8 + 8])[n % 8] {
        assert work[n] == work[w..w + 8][n - w];
      }
      i, b, w := i + 1, b + step, w + 8;
    }
  }

  method Columns(work: array<int>, dst: array<int>, postscale: seq<int>)
    requires work.Length == 64 && dst.Length >= 64 && |postscale| == 64 && dst != work
    modifies work, dst
    ensures dst[..64] == ColumnPass(old(work[..]), postscale)
  {
    hide Dct8, Descale, Output, Scaled, ColumnOf;
    ghost var first := work[..];
    var c := 0;
    while c < 8
      invariant 0 <= c <= 8
      invariant forall k :: 0 <= k < 64 && k % 8 >= c ==> work[k] == first[k]
      invariant forall n :: 0 <= n < 8 * c ==> dst[n] == Output(first, postscale, n)
    {
      SameColumn(work[..], first, c);
      Column(work, c, dst, 8 * c, postscale, 8 * c);
      forall n | 8 * c <= n < 8 * c + 8 ensures dst[n] == Output(first, postscale, n) {
        ColumnOutput(first, postscale, c, n - 8 * c);
        assert dst[n] == dst[8 * c..8 * c + 8][n - 8 * c];
      }
      c := c + 1;
    }
  }

  lemma SameColumn(a: seq<int>, b: seq<int>, c: nat)
    requires |a| == |b| == 64 && c < 8 && forall k :: 0 <= k < 64 && k % 8 >= c ==> a[k] == b[k]
    ensures ColumnOf(a, c) == ColumnOf(b, c)
  {
  }

  /** aan_fdct8x8: the two passes over the block at src[base..], with `step` from row to row. */
  method Transform(src: array<int>, base: nat, dst: array<int>, step: nat, postscale: seq<int>)
    requires RowsIn(src.Length, base, step) && dst.Length >= 64 && |postscale| == 64 && src != dst
    modifies dst
    ensures dst[..64] == Quantized(Samples(src[..], base, step), postscale)
  {
    hide RowPass, ColumnPass;
    var work := new int[64];
    Rows(src, base, step, work);
    Columns(work, dst, postscale);
  }
}
