/** The two table builders of SimpleJPEG and PutHuff.  The source table is a header word, one row per
    code length (the count, then one entry per code), and a terminating -1; the encode table maps a
    symbol to its code and length. */
module HuffmanTables {
  import opened Bits
  import opened Huffman
  import opened BitStream

  const HUFF_VAL_SHIFT: nat := 0x10_0000      // 1 << 20
  const MAX_BITS: nat := 16

  /** A Huffman table segment: 16 counts, then that many symbols, each a byte. */
  datatype Spec = Spec(counts: seq<nat>, vals: seq<nat>)

  predicate ValidSpec(h: Spec) {
    && |h.counts| == MAX_BITS && Kraft(h.counts)
    && |h.vals| == Total(h.counts) > 0
    && (forall p :: 0 <= p < |h.vals| ==> h.vals[p] < 256)
    && (forall p, q :: 0 <= p < q < |h.vals| ==> h.vals[p] != h.vals[q])
  }

  /** What the two builders need of a table: bytes as symbols, and codes that leave the symbol's bits alone. */
  predicate TableSpec(h: Spec) {
    && 0 < |h.counts| < 256 && |h.vals| == Total(h.counts) > 0
    && (forall p :: 0 <= p < |h.vals| ==> h.vals[p] < 256) && CodesBelow(h.counts)
  }

  predicate CodesBelow(counts: seq<nat>) {
    forall p :: 0 <= p < Total(counts) ==> CodeOf(counts, p) < HUFF_VAL_SHIFT
  }

  lemma ValidIsTable(h: Spec)
    requires ValidSpec(h)
    ensures TableSpec(h)
  {
    hide CodeOf, Total;
    forall p | 0 <= p < Total(h.counts) ensures CodeOf(h.counts, p) < HUFF_VAL_SHIFT {
      CodeFits(h.counts, p);
      Pow2Monotonic(LenOf(h.counts, p), 16);
      Pow2Known();
    }
  }

  // ---------- the source table ----------

  function Entry(h: Spec, p: nat): int
    requires p < Total(h.counts) == |h.vals|
  {
    h.vals[p] * HUFF_VAL_SHIFT + CodeOf(h.counts, p)
  }

  /** The row for codes of length n. */
  function Row(h: Spec, n: nat): (r: seq<int>)
    requires 1 <= n <= |h.counts| && Total(h.counts) == |h.vals|
    ensures |r| == 1 + h.counts[n - 1]
  {
    TotalPrefix(h.counts, n);
    assert Init(h.counts[..n]) == h.counts[..n - 1];
    var first := Total(h.counts[..n - 1]);
    [h.counts[n - 1]] + seq(h.counts[n - 1], k requires 0 <= k < h.counts[n - 1] => Entry(h, first + k))
  }

  /** The table as far as the rows for lengths 1..n. */
  function Rows(h: Spec, firstBits: int, n: nat): seq<int>
    requires n <= |h.counts| && Total(h.counts) == |h.vals|
  {
    if n == 0 then [firstBits] else Rows(h, firstBits, n - 1) + Row(h, n)
  }

  function SourceTable(h: Spec, firstBits: int): seq<int>
    requires Total(h.counts) == |h.vals|
  {
    Rows(h, firstBits, |h.counts|) + [-1]
  }

  /** The codes of one length are consecutive. */
  lemma {:induction false} CodeInRow(counts: seq<nat>, n: nat, k: nat)
    requires 1 <= n <= |counts| && k < counts[n - 1]
    ensures var p := Total(counts[..n - 1]) + k;
      p < Total(counts) && LenOf(counts, p) == n && CodeOf(counts, p) == 2 * Used(counts[..n - 1]) + k
  {
    assert Init(counts[..n]) == counts[..n - 1];
    var p := Total(counts[..n - 1]) + k;
    PrefixPlace(counts, n, p);
  }

  lemma RowAt(h: Spec, n: nat, k: nat)
    requires 1 <= n <= |h.counts| && Total(h.counts) == |h.vals| && k < h.counts[n - 1]
    ensures var first := Total(h.counts[..n - 1]);
      first + k < |h.vals| && Row(h, n)[1 + k] == h.vals[first + k] * HUFF_VAL_SHIFT + (2 * Used(h.counts[..n - 1]) + k)
  {
    CodeInRow(h.counts, n, k);
  }

  /** What one round of the loop adds. */
  lemma RowStep(h: Spec, n: nat)
    requires 1 <= n <= |h.counts| && Total(h.counts) == |h.vals|
    ensures Total(h.counts[..n]) == Total(h.counts[..n - 1]) + h.counts[n - 1] <= |h.vals|
    ensures Used(h.counts[..n]) == 2 * Used(h.counts[..n - 1]) + h.counts[n - 1]
  {
    TotalPrefix(h.counts, n);
    assert Init(h.counts[..n]) == h.counts[..n - 1];
  }

  /** bsCreateSourceHuffmanTable: `dst` walks through the table, `code` counts up and is doubled for
      each further bit. */
  method CreateSourceHuffmanTable(h: Spec, dst: array<int>, firstBits: int) returns (end: nat)
    requires TableSpec(h) && dst.Length >= 2 + |h.counts| + |h.vals|
    modifies dst
    ensures end <= dst.Length && dst[..end] == SourceTable(h, firstBits)
  {
    dst[0] := firstBits;
    var d, code, valIdx, i := 1, 0, 0, 1;
    while i <= |h.counts|
      invariant 1 <= i <= |h.counts| + 1
      invariant valIdx == Total(h.counts[..i - 1]) <= |h.vals| && d == i + valIdx
      invariant dst[..d] == Rows(h, firstBits, i - 1)
      invariant code == Used(h.counts[..i - 1])
    {
      RowStep(h, i);
      WriteRow(h, dst, i, d, 2 * code, valIdx);
      code := 2 * code + h.counts[i - 1];
      d := d + h.counts[i - 1] + 1;
      valIdx := valIdx + h.counts[i - 1];
      i := i + 1;
    }
    assert h.counts[..|h.counts|] == h.counts;
    dst[d] := -1;
    end := d + 1;
    assert dst[..end] == dst[..d] + [-1];
  }

  method WriteRow(h: Spec, dst: array<int>, i: nat, d: nat, code: nat, valIdx: nat)
    requires TableSpec(h) && 1 <= i <= |h.counts|
    requires code == 2 * Used(h.counts[..i - 1]) && valIdx == Total(h.counts[..i - 1])
    requires d + 1 + h.counts[i - 1] <= dst.Length
    modifies dst
    ensures dst[..d + 1 + h.counts[i - 1]] == old(dst[..d]) + Row(h, i)
  {
    var codeCount := h.counts[i - 1];
    ghost var all := dst[..d] + Row(h, i);
    dst[d] := codeCount;
    var k := 0;
    while k < codeCount
      invariant 0 <= k <= codeCount
      invariant dst[..d + 1 + k] == all[..d + 1 + k]
    {
      RowAt(h, i, k);
      dst[d + k + 1] := h.vals[valIdx + k] * HUFF_VAL_SHIFT + (code + k);
      assert dst[..d + 2 + k] == dst[..d + 1 + k] + [all[d + 1 + k]];
      k := k + 1;
    }
  }

  // ---------- the encode table ----------

  lemma {:induction false} RowsPrefix(h: Spec, firstBits: int, n: nat, m: nat)
    requires n <= m <= |h.counts| && Total(h.counts) == |h.vals|
    ensures Rows(h, firstBits, n) <= Rows(h, firstBits, m)
    ensures |Rows(h, firstBits, n)| == 1 + n + Total(h.counts[..n])
    decreases m
  {
    if n < m {
      RowsPrefix(h, firstBits, n, m - 1);
    } else if n > 0 {
      RowsPrefix(h, firstBits, n - 1, n - 1);
      RowStep(h, n);
    }
  }

  /** Index in the source table of the row for length n; for n = 17 that of the terminator. */
  function RowStart(h: Spec, n: nat): nat
    requires 1 <= n <= |h.counts| + 1
  {
    n + Total(h.counts[..n - 1])
  }

  lemma SourceAt(h: Spec, firstBits: int, n: nat)
    requires TableSpec(h) && 1 <= n <= |h.counts|
    ensures var t := SourceTable(h, firstBits); var k := RowStart(h, n); var c := h.counts[n - 1];
      && RowStart(h, n + 1) == k + 1 + c < |t|
      && t[k] == c
      && (forall j :: k + 1 <= j < k + 1 + c ==> t[j] == Row(h, n)[j - k])
  {
    RowStep(h, n);
    RowsPrefix(h, firstBits, n - 1, n);
    RowsPrefix(h, firstBits, n, |h.counts|);
    RowsPrefix(h, firstBits, |h.counts|, |h.counts|);
    var t, k, all := SourceTable(h, firstBits), RowStart(h, n), Rows(h, firstBits, n);
    forall j | k <= j < k + 1 + h.counts[n - 1] ensures t[j] == Row(h, n)[j - k] {
      assert t[j] == all[j];
    }
  }

  lemma SourceEnd(h: Spec, firstBits: int)
    requires TableSpec(h)
    ensures var t := SourceTable(h, firstBits); var k := RowStart(h, |h.counts| + 1); |t| == k + 1 && t[k] == -1
  {
    RowsPrefix(h, firstBits, |h.counts|, |h.counts|);
  }

  /** An entry of a row, split as the source splits it. */
  lemma SplitEntry(h: Spec, n: nat, k: nat)
    requires TableSpec(h) && 1 <= n <= |h.counts| && k < h.counts[n - 1]
    ensures var p := Total(h.counts[..n - 1]) + k;
      && p < |h.vals| && LenOf(h.counts, p) == n
      && Row(h, n)[1 + k] / HUFF_VAL_SHIFT == h.vals[p] && Row(h, n)[1 + k] % HUFF_VAL_SHIFT == CodeOf(h.counts, p)
  {
    var p := Total(h.counts[..n - 1]) + k;
    hide Row, CodeOf, Total, Used;
    RowAt(h, n, k);
    CodeInRow(h.counts, n, k);
  }

  /** No later position below n has the same symbol. */
  predicate IsLast(vals: seq<nat>, p: nat, n: nat)
    requires p < n <= |vals|
  {
    forall q :: p < q < n ==> vals[q] != vals[p]
  }

  /** Of the first n symbols, the slot of each holds the entry of its last occurrence. */
  predicate LastHeld(t: seq<int>, vals: seq<nat>, entries: seq<int>, n: nat)
    requires |vals| == |entries| && n <= |vals| && 2 <= |t|
  {
    forall p :: 0 <= p < n && IsLast(vals, p, n) ==> SlotHolds(t, vals[p], entries[p])
  }

  /** Every symbol of vals has its own slot, holding the entry of its last occurrence; all other slots are zero. */
  predicate SymbolTable(t: seq<int>, vals: seq<nat>, entries: seq<int>)
    requires |vals| == |entries|
  {
    && 2 <= |t| && 0 < t[1] && t[1] + 2 <= |t|
    && LastHeld(t, vals, entries, |vals|)
    && Unused(t, t[1] + 2, t[0], vals)
  }

  predicate SlotHolds(t: seq<int>, v: int, entry: int)
    requires 2 <= |t|
  {
    0 <= v - t[0] < t[1] && v - t[0] + 2 < |t| && t[v - t[0] + 2] == entry
  }

  predicate Unused(t: seq<int>, size: nat, lo: int, used: seq<nat>)
    requires size <= |t|
  {
    forall j :: 2 <= j < size && t[j] != 0 ==> lo + (j - 2) in used
  }

  function Entries(counts: seq<nat>): (e: seq<int>)
    ensures |e| == Total(counts)
  {
    seq(Total(counts), p requires 0 <= p < Total(counts) => CodeOf(counts, p) * 256 + LenOf(counts, p))
  }

  /** The encode table: code and length of every symbol. */
  predicate EncodeTable(t: seq<int>, h: Spec)
    requires |h.vals| == Total(h.counts)
  {
    SymbolTable(t, h.vals, Entries(h.counts))
  }

  const INT_MAX: int := 0x7fff_ffff
  const INT_MIN: int := -0x8000_0000

  predicate AllWithin(vals: seq<nat>, p: nat, lo: int, hi: int)
    requires p <= |vals|
  {
    forall q :: 0 <= q < p ==> lo <= vals[q] <= hi
  }

  /** Smallest and largest of the first p symbols. */
  function MinOf(vals: seq<nat>, p: nat): int
    requires p <= |vals|
  {
    if p == 0 then INT_MAX else if vals[p - 1] < MinOf(vals, p - 1) then vals[p - 1] else MinOf(vals, p - 1)
  }

  function MaxOf(vals: seq<nat>, p: nat): int
    requires p <= |vals|
  {
    if p == 0 then INT_MIN else if vals[p - 1] > MaxOf(vals, p - 1) then vals[p - 1] else MaxOf(vals, p - 1)
  }

  lemma {:induction false} MinAttained(vals: seq<nat>, p: nat)
    requires p <= |vals| && forall q :: 0 <= q < p ==> vals[q] < 256
    ensures forall q :: 0 <= q < p ==> MinOf(vals, p) <= vals[q]
    ensures if p == 0 then MinOf(vals, p) == INT_MAX else MinOf(vals, p) in vals
  {
    if p > 0 { MinAttained(vals, p - 1); }
  }

  lemma {:induction false} MaxAttained(vals: seq<nat>, p: nat)
    requires p <= |vals|
    ensures forall q :: 0 <= q < p ==> MaxOf(vals, p) >= vals[q]
    ensures if p == 0 then MaxOf(vals, p) == INT_MIN else MaxOf(vals, p) in vals
  {
    if p > 0 { MaxAttained(vals, p - 1); }
  }

  /** The entries of the row for length n stand from index k0 on. */
  predicate RowIn(src: seq<int>, h: Spec, n: nat, k0: nat)
    requires TableSpec(h) && 1 <= n <= |h.counts|
  {
    k0 + h.counts[n - 1] <= |src| && forall i :: 0 <= i < h.counts[n - 1] ==> EntryAt(src, h, n, k0, i)
  }

  predicate EntryAt(src: seq<int>, h: Spec, n: nat, k0: nat, i: nat)
    requires TableSpec(h) && 1 <= n <= |h.counts| && i < h.counts[n - 1] && k0 + i < |src|
  {
    src[k0 + i] == Row(h, n)[1 + i]
  }

  lemma EntryVal(src: seq<int>, h: Spec, n: nat, k0: nat, i: nat)
    requires TableSpec(h) && 1 <= n <= |h.counts| && i < h.counts[n - 1] && RowIn(src, h, n, k0)
    ensures var p := Total(h.counts[..n - 1]) + i;
      k0 + i < |src| && p < |h.vals| && src[k0 + i] / HUFF_VAL_SHIFT == h.vals[p] < 256
  {
    assert EntryAt(src, h, n, k0, i);
    SplitEntry(h, n, i);
  }

  lemma EntryCode(src: seq<int>, h: Spec, n: nat, k0: nat, i: nat)
    requires TableSpec(h) && 1 <= n <= |h.counts| && i < h.counts[n - 1] && RowIn(src, h, n, k0)
    ensures var p := Total(h.counts[..n - 1]) + i;
      p < Total(h.counts) && src[k0 + i] % HUFF_VAL_SHIFT * 256 + n == Entries(h.counts)[p]
  {
    assert EntryAt(src, h, n, k0, i);
    SplitEntry(h, n, i);
  }

  /** First pass over one row. */
  method RowRange(h: Spec, src: array<int>, n: nat, k0: nat, lo0: int, hi0: int) returns (k: nat, lo: int, hi: int)
    requires TableSpec(h) && 1 <= n <= |h.counts| && k0 + h.counts[n - 1] <= src.Length && RowIn(src[..], h, n, k0)
    requires var before := Total(h.counts[..n - 1]);
      before <= |h.vals| && lo0 == MinOf(h.vals, before) && hi0 == MaxOf(h.vals, before)
    ensures k == k0 + h.counts[n - 1]
    ensures var upTo := Total(h.counts[..n]);
      upTo <= |h.vals| && lo == MinOf(h.vals, upTo) && hi == MaxOf(h.vals, upTo)
  {
    k, lo, hi := k0, lo0, hi0;
    RowStep(h, n);
    ghost var s, before := src[..], Total(h.counts[..n - 1]);
    var codeCount := h.counts[n - 1] + k;
    while k < codeCount
      invariant k0 <= k <= codeCount
      invariant lo == MinOf(h.vals, before + (k - k0)) && hi == MaxOf(h.vals, before + (k - k0))
    {
      EntryVal(s, h, n, k0, k - k0);
      assert src[k] == s[k0 + (k - k0)];
      var val := src[k] / HUFF_VAL_SHIFT;
      if val < lo { lo := val; }
      if val > hi { hi := val; }
      k := k + 1;
    }
  }

  /** The loop test `src[k] >= 0` tells the end from a row. */
  lemma SourceStep(src: seq<int>, h: Spec, firstBits: int, n: nat)
    requires TableSpec(h) && SourceTable(h, firstBits) <= src && 1 <= n <= |h.counts| + 1
    ensures RowStart(h, n) < |src| && (n <= |h.counts| <==> src[RowStart(h, n)] >= 0)
    ensures n <= |h.counts| ==>
      && src[RowStart(h, n)] == h.counts[n - 1] && RowIn(src, h, n, RowStart(h, n) + 1)
      && RowStart(h, n + 1) == RowStart(h, n) + 1 + h.counts[n - 1]
  {
    if n <= |h.counts| {
      SourceAt(h, firstBits, n);
      var t, k := SourceTable(h, firstBits), RowStart(h, n) + 1;
      assert src[k - 1] == t[k - 1];
      forall i | 0 <= i < h.counts[n - 1] ensures EntryAt(src, h, n, k, i) {
        assert t[k + i] == Row(h, n)[1 + i];
      }
    } else {
      SourceEnd(h, firstBits);
    }
  }

  method ValueRange(h: Spec, src: array<int>, ghost firstBits: int) returns (lo: int, hi: int)
    requires TableSpec(h) && SourceTable(h, firstBits) <= src[..]
    ensures lo == MinOf(h.vals, |h.vals|) && hi == MaxOf(h.vals, |h.vals|)
  {
    lo, hi := INT_MAX, INT_MIN;
    var i, k := 1, 1;
    assert h.counts[..0] == [];
    SourceStep(src[..], h, firstBits, 1);
    while src[k] >= 0
      invariant 1 <= i <= |h.counts| + 1 && k == RowStart(h, i) < src.Length
      invariant i <= |h.counts| <==> src[k] >= 0
      invariant Total(h.counts[..i - 1]) <= |h.vals|
      invariant lo == MinOf(h.vals, Total(h.counts[..i - 1])) && hi == MaxOf(h.vals, Total(h.counts[..i - 1]))
      decreases |h.counts| + 1 - i
    {
      SourceStep(src[..], h, firstBits, i);
      k, lo, hi := RowRange(h, src, i, k + 1, lo, hi);
      i := i + 1;
      SourceStep(src[..], h, firstBits, i);
    }
    assert h.counts[..|h.counts|] == h.counts;
  }

  /** The table once the first p symbols have been entered. */
  predicate Filled(t: seq<int>, vals: seq<nat>, entries: seq<int>, p: nat, lo: int, hi: int)
    requires |vals| == |entries| && p <= |vals|
  {
    && AllWithin(vals, |vals|, lo, hi) && lo <= hi && hi - lo + 3 <= |t|
    && t[0] == lo && t[1] == hi - lo + 1
    && LastHeld(t, vals, entries, p)
    && Unused(t, hi - lo + 3, lo, vals[..p])
  }

  lemma UnusedStep(t: seq<int>, size: nat, lo: int, used: seq<nat>, v: nat, x: int)
    requires size <= |t| && Unused(t, size, lo, used) && 2 <= v - lo + 2 < |t|
    ensures Unused(t[v - lo + 2 := x], size, lo, used + [v])
  {
    var t' := t[v - lo + 2 := x];
    forall j | 2 <= j < size && t'[j] != 0 ensures lo + (j - 2) in used + [v] {
      if j == v - lo + 2 {
        assert (used + [v])[|used|] == v;
      } else {
        assert t'[j] == t[j];
      }
    }
  }

  lemma LastHeldStep(t: seq<int>, vals: seq<nat>, entries: seq<int>, p: nat, t': seq<int>)
    requires |vals| == |entries| && p < |vals| && 2 <= |t| && LastHeld(t, vals, entries, p)
    requires 0 <= vals[p] - t[0] < t[1] && vals[p] - t[0] + 2 < |t| && t' == t[vals[p] - t[0] + 2 := entries[p]]
    ensures LastHeld(t', vals, entries, p + 1)
  {
    forall q | 0 <= q < p + 1 && IsLast(vals, q, p + 1) ensures SlotHolds(t', vals[q], entries[q]) {
      if q < p {
        assert vals[p] != vals[q] && IsLast(vals, q, p);
        assert SlotHolds(t, vals[q], entries[q]);
      }
    }
  }

  lemma FillStep(t: seq<int>, vals: seq<nat>, entries: seq<int>, p: nat, lo: int, hi: int, t': seq<int>)
    requires |vals| == |entries| && p < |vals| && Filled(t, vals, entries, p, lo, hi)
    requires t' == t[vals[p] - lo + 2 := entries[p]]
    ensures Filled(t', vals, entries, p + 1, lo, hi)
  {
    hide LastHeld, Unused;
    UnusedStep(t, hi - lo + 3, lo, vals[..p], vals[p], entries[p]);
    assert vals[..p + 1] == vals[..p] + [vals[p]];
    LastHeldStep(t, vals, entries, p, t');
  }

  lemma FilledIsTable(t: seq<int>, vals: seq<nat>, entries: seq<int>, lo: int, hi: int)
    requires |vals| == |entries| && Filled(t, vals, entries, |vals|, lo, hi)
    ensures SymbolTable(t, vals, entries)
  {
    assert vals[..|vals|] == vals;
  }

  predicate FilledTo(t: seq<int>, h: Spec, n: nat, i: nat, lo: int, hi: int)
    requires TableSpec(h) && 1 <= n <= |h.counts| + 1
  {
    Total(h.counts[..n - 1]) + i <= |h.vals| && Filled(t, h.vals, Entries(h.counts), Total(h.counts[..n - 1]) + i, lo, hi)
  }

  lemma FilledStep(t: seq<int>, h: Spec, n: nat, i: nat, lo: int, hi: int, val: int, entry: int)
    requires TableSpec(h) && 1 <= n <= |h.counts| && FilledTo(t, h, n, i, lo, hi)
    requires Total(h.counts[..n - 1]) + i < |h.vals| && val == h.vals[Total(h.counts[..n - 1]) + i]
    requires entry == Entries(h.counts)[Total(h.counts[..n - 1]) + i]
    ensures 2 <= val - lo + 2 < |t|
    ensures FilledTo(t[val - lo + 2 := entry], h, n, i + 1, lo, hi)
  {
    var p := Total(h.counts[..n - 1]) + i;
    assert lo <= h.vals[p] <= hi;
    FillStep(t, h.vals, Entries(h.counts), p, lo, hi, t[val - lo + 2 := entry]);
  }

  lemma EntryFills(src: seq<int>, t: seq<int>, h: Spec, n: nat, k0: nat, i: nat, lo: int, hi: int)
    requires TableSpec(h) && 1 <= n <= |h.counts| && i < h.counts[n - 1]
    requires RowIn(src, h, n, k0) && FilledTo(t, h, n, i, lo, hi)
    ensures var x := src[k0 + i]; var slot := x / HUFF_VAL_SHIFT - lo + 2;
      2 <= slot < |t| && FilledTo(t[slot := x % HUFF_VAL_SHIFT * 256 + n], h, n, i + 1, lo, hi)
  {
    hide FilledTo, RowIn, Entries, Row;
    EntryVal(src, h, n, k0, i);
    var x := src[k0 + i];
    EntryCode(src, h, n, k0, i);
    FilledStep(t, h, n, i, lo, hi, x / HUFF_VAL_SHIFT, x % HUFF_VAL_SHIFT * 256 + n);
  }

  lemma FilledRow(t: seq<int>, h: Spec, n: nat, lo: int, hi: int)
    requires TableSpec(h) && 1 <= n <= |h.counts| && FilledTo(t, h, n, h.counts[n - 1], lo, hi)
    ensures FilledTo(t, h, n + 1, 0, lo, hi)
  {
    RowStep(h, n);
  }

  /** Second pass over one row. */
  method FillRow(h: Spec, src: array<int>, table: array<int>, n: nat, k0: nat, lo: int, ghost hi: int) returns (k: nat)
    requires TableSpec(h) && 1 <= n <= |h.counts| && src != table && k0 + h.counts[n - 1] <= src.Length
    requires RowIn(src[..], h, n, k0) && FilledTo(table[..], h, n, 0, lo, hi)
    modifies table
    ensures k == k0 + h.counts[n - 1] && FilledTo(table[..], h, n + 1, 0, lo, hi)
  {
    hide FilledTo, RowIn;
    k := k0;
    ghost var s := src[..];
    var codeCount := h.counts[n - 1] + k;
    while k < codeCount
      invariant k0 <= k <= codeCount && FilledTo(table[..], h, n, k - k0, lo, hi)
    {
      ghost var t := table[..];
      assert src[k] == s[k0 + (k - k0)];
      EntryFills(s, t, h, n, k0, k - k0, lo, hi);
      var val := src[k] / HUFF_VAL_SHIFT;
      var code := src[k] % HUFF_VAL_SHIFT;
      table[val - lo + 2] := code * 256 + n;
      assert table[..] == t[val - lo + 2 := code * 256 + n];
      k := k + 1;
    }
    FilledRow(table[..], h, n, lo, hi);
  }

  method FillTable(h: Spec, src: array<int>, table: array<int>, ghost firstBits: int, lo: int, ghost hi: int)
    requires TableSpec(h) && SourceTable(h, firstBits) <= src[..] && src != table
    requires FilledTo(table[..], h, 1, 0, lo, hi)
    modifies table
    ensures EncodeTable(table[..], h)
  {
    var i, k := 1, 1;
    assert h.counts[..0] == [];
    SourceStep(src[..], h, firstBits, 1);
    while src[k] >= 0
      invariant 1 <= i <= |h.counts| + 1 && k == RowStart(h, i) < src.Length
      invariant i <= |h.counts| <==> src[k] >= 0
      invariant FilledTo(table[..], h, i, 0, lo, hi)
      decreases |h.counts| + 1 - i
    {
      SourceStep(src[..], h, firstBits, i);
      k := FillRow(h, src, table, i, k + 1, lo, hi);
      i := i + 1;
      SourceStep(src[..], h, firstBits, i);
    }
    assert h.counts[..|h.counts|] == h.counts;
    FilledIsTable(table[..], h.vals, Entries(h.counts), lo, hi);
  }

  /** bsCreateEncodeHuffmanTable: refuses a table whose symbols span more slots than there are,
      otherwise every symbol gets its own code and length, those of its last occurrence. */
  method CreateEncodeHuffmanTable(h: Spec, src: array<int>, table: array<int>, ghost firstBits: int) returns (ok: bool)
    requires TableSpec(h) && SourceTable(h, firstBits) <= src[..] && src != table
    modifies table
    ensures ok <==> forall p, q :: 0 <= p < |h.vals| && 0 <= q < |h.vals| ==> h.vals[p] - h.vals[q] + 3 <= table.Length
    ensures ok ==> EncodeTable(table[..], h)
    ensures !ok ==> table[..] == old(table[..])
  {
    var lo, hi := ValueRange(h, src, firstBits);
    MinAttained(h.vals, |h.vals|);
    MaxAttained(h.vals, |h.vals|);
    var size := hi - lo + 3;
    if size > table.Length {
      ghost var p :| 0 <= p < |h.vals| && h.vals[p] == hi;
      ghost var q :| 0 <= q < |h.vals| && h.vals[q] == lo;
      return false;
    }
    ClearTable(table, size, lo);
    assert h.counts[..0] == [] && h.vals[..0] == [];
    FillTable(h, src, table, firstBits, lo, hi);
    return true;
  }

  method ClearTable(table: array<int>, size: nat, lo: int)
    requires 3 <= size <= table.Length
    modifies table
    ensures Unused(table[..], size, lo, []) && table[0] == lo && table[1] == size - 2
  {
    forall j | 0 <= j < size { table[j] := 0; }
    table[0] := lo;
    table[1] := size - 2;
  }

  lemma SplitCode(code: nat, len: nat)
    requires 0 < len < 256
    ensures var x := code * 256 + len; x != 0 && x / 256 == code && x % 256 == len
  {
  }

  lemma TableWord(table: seq<int>, h: Spec, p: nat)
    requires ValidSpec(h) && EncodeTable(table, h) && p < |h.vals|
    ensures var slot := h.vals[p] - table[0] + 2;
      && 2 <= slot < table[1] + 2 <= |table| && table[slot] != 0
      && table[slot] % 256 <= MAX_BITS && Low(table[slot] / 256, table[slot] % 256) == Word(h.counts, p)
  {
    assert IsLast(h.vals, p, |h.vals|);
    assert SlotHolds(table, h.vals[p], Entries(h.counts)[p]);
    SplitCode(CodeOf(h.counts, p), LenOf(h.counts, p));
  }

  /** PutHuff puts the code word of the symbol into the stream. */
  method PutHuff(s: WorstStreamEver, ghost h: Spec, val: int, table: seq<int>, ghost p: nat)
    requires ValidSpec(h) && EncodeTable(table, h) && p < |h.vals| && h.vals[p] == val
    requires s.Valid()
    modifies s, s.putbuf, s.memory
    ensures s.Valid() && s.Contents() == PutAll(old(s.Contents()), Word(h.counts, p))
  {
    TableWord(table, h, p);
    var minVal := table[0];
    var code := table[val - minVal + 2];
    s.Put(code / 256, code % 256);
  }
}
