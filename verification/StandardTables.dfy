/** The four standard Huffman tables of T.81 Annex K.3 as SimpleJPEG lists them meet what the coder demands. */
module StandardTables {
  import opened Prelude
  import opened Bits
  import opened Huffman
  import opened HuffmanTables
  import opened JpegBlock
  import opened JpegScan

  /** No standard symbol is above 0xFA. */
  type Listed = v: nat | v <= 0xFA

  // ---------- the tables ----------

  const K3_COUNTS: seq<nat> := [0, 1, 5, 1, 1, 1, 1, 1, 1, 0, 0, 0, 0, 0, 0, 0]
  const K4_COUNTS: seq<nat> := [0, 3, 1, 1, 1, 1, 1, 1, 1, 1, 1, 0, 0, 0, 0, 0]
  const K5_COUNTS: seq<nat> := [0, 2, 1, 3, 3, 2, 4, 3, 5, 5, 4, 4, 0, 0, 1, 125]
  const K6_COUNTS: seq<nat> := [0, 2, 1, 2, 4, 4, 3, 4, 7, 5, 4, 4, 0, 1, 2, 119]

  function K5Line(i: nat): seq<Listed>
  {
    match i
    case 0 => [0x01, 0x02, 0x03, 0x00, 0x04, 0x11, 0x05, 0x12]
    case 1 => [0x21, 0x31, 0x41, 0x06, 0x13, 0x51, 0x61, 0x07]
    case 2 => [0x22, 0x71, 0x14, 0x32, 0x81, 0x91, 0xa1, 0x08]
    case 3 => [0x23, 0x42, 0xb1, 0xc1, 0x15, 0x52, 0xd1, 0xf0]
    case 4 => [0x24, 0x33, 0x62, 0x72, 0x82, 0x09, 0x0a, 0x16]
    case 5 => [0x17, 0x18, 0x19, 0x1a, 0x25, 0x26, 0x27, 0x28]
    case 6 => [0x29, 0x2a, 0x34, 0x35, 0x36, 0x37, 0x38, 0x39]
    case 7 => [0x3a, 0x43, 0x44, 0x45, 0x46, 0x47, 0x48, 0x49]
    case 8 => [0x4a, 0x53, 0x54, 0x55, 0x56, 0x57, 0x58, 0x59]
    case 9 => [0x5a, 0x63, 0x64, 0x65, 0x66, 0x67, 0x68, 0x69]
    case 10 => [0x6a, 0x73, 0x74, 0x75, 0x76, 0x77, 0x78, 0x79]
    case 11 => [0x7a, 0x83, 0x84, 0x85, 0x86, 0x87, 0x88, 0x89]
    case 12 => [0x8a, 0x92, 0x93, 0x94, 0x95, 0x96, 0x97, 0x98]
    case 13 => [0x99, 0x9a, 0xa2, 0xa3, 0xa4, 0xa5, 0xa6, 0xa7]
    case 14 => [0xa8, 0xa9, 0xaa, 0xb2, 0xb3, 0xb4, 0xb5, 0xb6]
    case 15 => [0xb7, 0xb8, 0xb9, 0xba, 0xc2, 0xc3, 0xc4, 0xc5]
    case 16 => [0xc6, 0xc7, 0xc8, 0xc9, 0xca, 0xd2, 0xd3, 0xd4]
    case 17 => [0xd5, 0xd6, 0xd7, 0xd8, 0xd9, 0xda, 0xe1, 0xe2]
    case 18 => [0xe3, 0xe4, 0xe5, 0xe6, 0xe7, 0xe8, 0xe9, 0xea]
    case 19 => [0xf1, 0xf2, 0xf3, 0xf4, 0xf5, 0xf6, 0xf7, 0xf8]
    case 20 => [0xf9, 0xfa]
    case _ => []
  }

  function K6Line(i: nat): seq<Listed>
  {
    match i
    case 0 => [0x00, 0x01, 0x02, 0x03, 0x11, 0x04, 0x05, 0x21]
    case 1 => [0x31, 0x06, 0x12, 0x41, 0x51, 0x07, 0x61, 0x71]
    case 2 => [0x13, 0x22, 0x32, 0x81, 0x08, 0x14, 0x42, 0x91]
    case 3 => [0xa1, 0xb1, 0xc1, 0x09, 0x23, 0x33, 0x52, 0xf0]
    case 4 => [0x15, 0x62, 0x72, 0xd1, 0x0a, 0x16, 0x24, 0x34]
    case 5 => [0xe1, 0x25, 0xf1, 0x17, 0x18, 0x19, 0x1a, 0x26]
    case 6 => [0x27, 0x28, 0x29, 0x2a, 0x35, 0x36, 0x37, 0x38]
    case 7 => [0x39, 0x3a, 0x43, 0x44, 0x45, 0x46, 0x47, 0x48]
    case 8 => [0x49, 0x4a, 0x53, 0x54, 0x55, 0x56, 0x57, 0x58]
    case 9 => [0x59, 0x5a, 0x63, 0x64, 0x65, 0x66, 0x67, 0x68]
    case 10 => [0x69, 0x6a, 0x73, 0x74, 0x75, 0x76, 0x77, 0x78]
    case 11 => [0x79, 0x7a, 0x82, 0x83, 0x84, 0x85, 0x86, 0x87]
    case 12 => [0x88, 0x89, 0x8a, 0x92, 0x93, 0x94, 0x95, 0x96]
    case 13 => [0x97, 0x98, 0x99, 0x9a, 0xa2, 0xa3, 0xa4, 0xa5]
    case 14 => [0xa6, 0xa7, 0xa8, 0xa9, 0xaa, 0xb2, 0xb3, 0xb4]
    case 15 => [0xb5, 0xb6, 0xb7, 0xb8, 0xb9, 0xba, 0xc2, 0xc3]
    case 16 => [0xc4, 0xc5, 0xc6, 0xc7, 0xc8, 0xc9, 0xca, 0xd2]
    case 17 => [0xd3, 0xd4, 0xd5, 0xd6, 0xd7, 0xd8, 0xd9, 0xda]
    case 18 => [0xe2, 0xe3, 0xe4, 0xe5, 0xe6, 0xe7, 0xe8, 0xe9]
    case 19 => [0xea, 0xf2, 0xf3, 0xf4, 0xf5, 0xf6, 0xf7, 0xf8]
    case 20 => [0xf9, 0xfa]
    case _ => []
  }

  /** Where K5 lists the symbols with run length r. */
  function K5Index(r: nat): seq<nat> {
    match r
    case 0 => [0, 1, 2, 4, 6, 11, 15, 23, 37, 38]
    case 1 => [5, 7, 12, 18, 28, 39, 40, 41, 42, 43]
    case 2 => [8, 16, 24, 32, 44, 45, 46, 47, 48, 49]
    case 3 => [9, 19, 33, 50, 51, 52, 53, 54, 55, 56]
    case 4 => [10, 25, 57, 58, 59, 60, 61, 62, 63, 64]
    case 5 => [13, 29, 65, 66, 67, 68, 69, 70, 71, 72]
    case 6 => [14, 34, 73, 74, 75, 76, 77, 78, 79, 80]
    case 7 => [17, 35, 81, 82, 83, 84, 85, 86, 87, 88]
    case 8 => [20, 36, 89, 90, 91, 92, 93, 94, 95, 96]
    case 9 => [21, 97, 98, 99, 100, 101, 102, 103, 104, 105]
    case 10 => [22, 106, 107, 108, 109, 110, 111, 112, 113, 114]
    case 11 => [26, 115, 116, 117, 118, 119, 120, 121, 122, 123]
    case 12 => [27, 124, 125, 126, 127, 128, 129, 130, 131, 132]
    case 13 => [30, 133, 134, 135, 136, 137, 138, 139, 140, 141]
    case 14 => [142, 143, 144, 145, 146, 147, 148, 149, 150, 151]
    case 15 => [152, 153, 154, 155, 156, 157, 158, 159, 160, 161]
    case _ => []
  }

  /** Where K6 lists the symbols with run length r. */
  function K6Index(r: nat): seq<nat> {
    match r
    case 0 => [1, 2, 3, 5, 6, 9, 13, 20, 27, 36]
    case 1 => [4, 10, 16, 21, 32, 37, 43, 44, 45, 46]
    case 2 => [7, 17, 28, 38, 41, 47, 48, 49, 50, 51]
    case 3 => [8, 18, 29, 39, 52, 53, 54, 55, 56, 57]
    case 4 => [11, 22, 58, 59, 60, 61, 62, 63, 64, 65]
    case 5 => [12, 30, 66, 67, 68, 69, 70, 71, 72, 73]
    case 6 => [14, 33, 74, 75, 76, 77, 78, 79, 80, 81]
    case 7 => [15, 34, 82, 83, 84, 85, 86, 87, 88, 89]
    case 8 => [19, 90, 91, 92, 93, 94, 95, 96, 97, 98]
    case 9 => [23, 99, 100, 101, 102, 103, 104, 105, 106, 107]
    case 10 => [24, 108, 109, 110, 111, 112, 113, 114, 115, 116]
    case 11 => [25, 117, 118, 119, 120, 121, 122, 123, 124, 125]
    case 12 => [26, 126, 127, 128, 129, 130, 131, 132, 133, 134]
    case 13 => [35, 135, 136, 137, 138, 139, 140, 141, 142, 143]
    case 14 => [40, 144, 145, 146, 147, 148, 149, 150, 151, 152]
    case 15 => [42, 153, 154, 155, 156, 157, 158, 159, 160, 161]
    case _ => []
  }

  function At(line: seq<nat>, i: nat): nat { if i < |line| then line[i] else 0 }

  function AtListed(line: seq<Listed>, i: nat): Listed { if i < |line| then line[i] else 0 }

  function DcSpec(counts: seq<nat>): Spec { Spec(counts, seq(12, p requires 0 <= p < 12 => p)) }

  function K5(p: nat): Listed { AtListed(K5Line(p / 8), p % 8) }

  function K6(p: nat): Listed { AtListed(K6Line(p / 8), p % 8) }

  function K5Spec(): Spec { Spec(K5_COUNTS, seq(162, p requires 0 <= p < 162 => K5(p))) }

  function K6Spec(): Spec { Spec(K6_COUNTS, seq(162, p requires 0 <= p < 162 => K6(p))) }

  // ---------- counts ----------

  lemma CountsStep(counts: seq<nat>, n: nat)
    requires 1 <= n <= |counts|
    ensures Total(counts[..n]) == Total(counts[..n - 1]) + counts[n - 1]
    ensures Used(counts[..n]) == 2 * Used(counts[..n - 1]) + counts[n - 1]
  {
    assert Init(counts[..n]) == counts[..n - 1];
  }

  lemma FourCounts(c: seq<nat>, n: nat)
    requires n + 4 <= |c|
    ensures Total(c[..n + 4]) == Total(c[..n]) + c[n] + c[n + 1] + c[n + 2] + c[n + 3]
    ensures Used(c[..n + 4]) == 16 * Used(c[..n]) + 8 * c[n] + 4 * c[n + 1] + 2 * c[n + 2] + c[n + 3]
  {
    hide Used, Total;
    CountsStep(c, n + 1); CountsStep(c, n + 2); CountsStep(c, n + 3); CountsStep(c, n + 4);
  }

  lemma K3Counts()
    ensures |K3_COUNTS| == 16 && Used(K3_COUNTS) == 65408 && Total(K3_COUNTS) == 12
  {
    hide Used, Total;
    var c := K3_COUNTS;
    assert c[..0] == [] && c[..16] == c;
    NothingCounted();
    FourCounts(c, 0); FourCounts(c, 4); FourCounts(c, 8); FourCounts(c, 12);
  }

  lemma K4Counts()
    ensures |K4_COUNTS| == 16 && Used(K4_COUNTS) == 65504 && Total(K4_COUNTS) == 12
  {
    hide Used, Total;
    var c := K4_COUNTS;
    assert c[..0] == [] && c[..16] == c;
    NothingCounted();
    FourCounts(c, 0); FourCounts(c, 4); FourCounts(c, 8); FourCounts(c, 12);
  }

  lemma K5Counts()
    ensures |K5_COUNTS| == 16 && Used(K5_COUNTS) == 65535 && Total(K5_COUNTS) == 162
  {
    hide Used, Total;
    var c := K5_COUNTS;
    assert c[..0] == [] && c[..16] == c;
    NothingCounted();
    FourCounts(c, 0); FourCounts(c, 4); FourCounts(c, 8); FourCounts(c, 12);
  }

  lemma K6Counts()
    ensures |K6_COUNTS| == 16 && Used(K6_COUNTS) == 65535 && Total(K6_COUNTS) == 162
  {
    hide Used, Total;
    var c := K6_COUNTS;
    assert c[..0] == [] && c[..16] == c;
    NothingCounted();
    FourCounts(c, 0); FourCounts(c, 4); FourCounts(c, 8); FourCounts(c, 12);
  }

  lemma NothingCounted()
    ensures Used([]) == 0 && Total([]) == 0
  {
  }

  // ---------- DC tables ----------

  lemma DcSpecComplete(counts: seq<nat>)
    requires |counts| == 16 && Used(counts) <= 0x1_0000 && Total(counts) == 12
    ensures DcComplete(DcSpec(counts))
  {
    hide Used, Total;
    Pow2Known();
    var v := DcSpec(counts).vals;
    forall c | 0 <= c <= 11 ensures c in v { assert v[c] == c; }
  }

  // ---------- AC tables: every symbol is listed ----------

  lemma K5Rows0(r: nat, s: nat)
    requires 0 <= r <= 1 && 1 <= s <= 10
    ensures var p := At(K5Index(r), s - 1); p < 162 && K5(p) == Symbol(r, s)
  {
  }

  lemma K5Rows2(r: nat, s: nat)
    requires 2 <= r <= 3 && 1 <= s <= 10
    ensures var p := At(K5Index(r), s - 1); p < 162 && K5(p) == Symbol(r, s)
  {
  }

  lemma K5Rows4(r: nat, s: nat)
    requires 4 <= r <= 5 && 1 <= s <= 10
    ensures var p := At(K5Index(r), s - 1); p < 162 && K5(p) == Symbol(r, s)
  {
  }

  lemma K5Rows6(r: nat, s: nat)
    requires 6 <= r <= 7 && 1 <= s <= 10
    ensures var p := At(K5Index(r), s - 1); p < 162 && K5(p) == Symbol(r, s)
  {
  }

  lemma K5Rows8(r: nat, s: nat)
    requires 8 <= r <= 9 && 1 <= s <= 10
    ensures var p := At(K5Index(r), s - 1); p < 162 && K5(p) == Symbol(r, s)
  {
  }

  lemma K5Rows10(r: nat, s: nat)
    requires 10 <= r <= 11 && 1 <= s <= 10
    ensures var p := At(K5Index(r), s - 1); p < 162 && K5(p) == Symbol(r, s)
  {
  }

  lemma K5Rows12(r: nat, s: nat)
    requires 12 <= r <= 13 && 1 <= s <= 10
    ensures var p := At(K5Index(r), s - 1); p < 162 && K5(p) == Symbol(r, s)
  {
  }

  lemma K5Rows14(r: nat, s: nat)
    requires 14 <= r <= 15 && 1 <= s <= 10
    ensures var p := At(K5Index(r), s - 1); p < 162 && K5(p) == Symbol(r, s)
  {
  }

  lemma K6Rows0(r: nat, s: nat)
    requires 0 <= r <= 1 && 1 <= s <= 10
    ensures var p := At(K6Index(r), s - 1); p < 162 && K6(p) == Symbol(r, s)
  {
  }

  lemma K6Rows2(r: nat, s: nat)
    requires 2 <= r <= 3 && 1 <= s <= 10
    ensures var p := At(K6Index(r), s - 1); p < 162 && K6(p) == Symbol(r, s)
  {
  }

  lemma K6Rows4(r: nat, s: nat)
    requires 4 <= r <= 5 && 1 <= s <= 10
    ensures var p := At(K6Index(r), s - 1); p < 162 && K6(p) == Symbol(r, s)
  {
  }

  lemma K6Rows6(r: nat, s: nat)
    requires 6 <= r <= 7 && 1 <= s <= 10
    ensures var p := At(K6Index(r), s - 1); p < 162 && K6(p) == Symbol(r, s)
  {
  }

  lemma K6Rows8(r: nat, s: nat)
    requires 8 <= r <= 9 && 1 <= s <= 10
    ensures var p := At(K6Index(r), s - 1); p < 162 && K6(p) == Symbol(r, s)
  {
  }

  lemma K6Rows10(r: nat, s: nat)
    requires 10 <= r <= 11 && 1 <= s <= 10
    ensures var p := At(K6Index(r), s - 1); p < 162 && K6(p) == Symbol(r, s)
  {
  }

  lemma K6Rows12(r: nat, s: nat)
    requires 12 <= r <= 13 && 1 <= s <= 10
    ensures var p := At(K6Index(r), s - 1); p < 162 && K6(p) == Symbol(r, s)
  {
  }

  lemma K6Rows14(r: nat, s: nat)
    requires 14 <= r <= 15 && 1 <= s <= 10
    ensures var p := At(K6Index(r), s - 1); p < 162 && K6(p) == Symbol(r, s)
  {
  }

  /** The run-size symbols in order. */
  function RunSize(k: nat): nat { Symbol(k / 10, k % 10 + 1) }

  function Rank(v: nat): int { v / 16 * 10 + v % 16 - 1 }

  lemma RankOfRunSize(k: nat)
    ensures Rank(RunSize(k)) == k
  {
    hide Symbol;
    SplitSymbol(k / 10, k % 10 + 1);
  }

  function RunSizes(n: nat): set<nat> {
    if n == 0 then {} else RunSizes(n - 1) + {RunSize(n - 1)}
  }

  lemma {:induction false} RunSizesHold(n: nat, v: nat)
    requires v in RunSizes(n) && n <= 160
    ensures 0 <= Rank(v) < n && v / 16 < 16 && 1 <= v % 16 <= 10 && v == Symbol(v / 16, v % 16)
  {
    RankOfRunSize(n - 1);
    if v in RunSizes(n - 1) { RunSizesHold(n - 1, v); }
  }

  lemma {:induction false} RunSizesCount(n: nat)
    requires n <= 160
    ensures |RunSizes(n)| == n
  {
    if n > 0 {
      RunSizesCount(n - 1);
      RankOfRunSize(n - 1);
      if RunSize(n - 1) in RunSizes(n - 1) { RunSizesHold(n - 1, RunSize(n - 1)); }
    }
  }

  /** All 162 symbols of the AC coder. */
  function AcSymbols(): set<nat> { RunSizes(160) + {0x00, 0xF0} }

  lemma AcSymbolsCount()
    ensures |AcSymbols()| == 162
  {
    RunSizesCount(160);
    if 0x00 in RunSizes(160) { RunSizesHold(160, 0x00); }
    if 0xF0 in RunSizes(160) { RunSizesHold(160, 0xF0); }
    assert RunSizes(160) !! {0x00, 0xF0} && |{0x00, 0xF0}| == 2;
  }

  // ---------- a list as long as its set of elements has no duplicates ----------

  function Elems(s: seq<nat>): set<nat> { set v | v in s }

  lemma {:induction false} ElemsSize(s: seq<nat>)
    ensures |Elems(s)| <= |s|
  {
    if s != [] {
      var init := s[..|s| - 1];
      ElemsSize(init);
      assert s == init + [s[|s| - 1]];
      assert Elems(s) == Elems(init) + {s[|s| - 1]};
    }
  }

  lemma NoDuplicates(vals: seq<nat>, all: set<nat>, p: nat, q: nat)
    requires p < q < |vals| == |all| && all <= Elems(vals)
    ensures vals[p] != vals[q]
  {
    if vals[p] == vals[q] {
      var others := vals[..q] + vals[q + 1..];
      forall v | v in all ensures v in others {
        var k :| 0 <= k < |vals| && vals[k] == v;
        assert v == others[if k < q then k else if k == q then p else k - 1];
      }
      SubsetSize(all, Elems(others));
      ElemsSize(others);
    }
  }

  lemma K5Lists(r: nat, s: nat)
    requires r < 16 && 1 <= s <= 10
    ensures Symbol(r, s) in K5Spec().vals
  {
    hide K5, At, Symbol;
    match r / 2 {
    case 0 => K5Rows0(r, s);
    case 1 => K5Rows2(r, s);
    case 2 => K5Rows4(r, s);
    case 3 => K5Rows6(r, s);
    case 4 => K5Rows8(r, s);
    case 5 => K5Rows10(r, s);
    case 6 => K5Rows12(r, s);
    case 7 => K5Rows14(r, s);
    }
    assert Symbol(r, s) == K5Spec().vals[At(K5Index(r), s - 1)];
  }

  lemma K6Lists(r: nat, s: nat)
    requires r < 16 && 1 <= s <= 10
    ensures Symbol(r, s) in K6Spec().vals
  {
    hide K6, At, Symbol;
    match r / 2 {
    case 0 => K6Rows0(r, s);
    case 1 => K6Rows2(r, s);
    case 2 => K6Rows4(r, s);
    case 3 => K6Rows6(r, s);
    case 4 => K6Rows8(r, s);
    case 5 => K6Rows10(r, s);
    case 6 => K6Rows12(r, s);
    case 7 => K6Rows14(r, s);
    }
    assert Symbol(r, s) == K6Spec().vals[At(K6Index(r), s - 1)];
  }

  lemma AcSpecComplete(h: Spec)
    requires |h.counts| == 16 && Used(h.counts) <= 0x1_0000 && Total(h.counts) == 162 == |h.vals|
    requires forall p :: 0 <= p < 162 ==> h.vals[p] < 256
    requires AcSymbols() <= Elems(h.vals)
    requires forall r, s :: 0 <= r < 16 && 1 <= s <= 10 ==> Symbol(r, s) in h.vals
    ensures AcComplete(h)
  {
    hide Used, Total, Elems, Symbol;
    Pow2Known();
    AcSymbolsCount();
    forall p, q | 0 <= p < q < |h.vals| ensures h.vals[p] != h.vals[q] {
      NoDuplicates(h.vals, AcSymbols(), p, q);
    }
    InElems(h.vals, 0x00);
    InElems(h.vals, 0xF0);
  }

  lemma InElems(s: seq<nat>, v: nat)
    ensures v in Elems(s) <==> v in s
  {
  }

  lemma AcSymbolsListed(h: Spec)
    requires forall r, s :: 0 <= r < 16 && 1 <= s <= 10 ==> Symbol(r, s) in h.vals
    requires 0x00 in h.vals && 0xF0 in h.vals
    ensures AcSymbols() <= Elems(h.vals)
  {
    hide RunSizes, Symbol;
    forall v | v in AcSymbols() ensures v in Elems(h.vals) {
      if v in RunSizes(160) { RunSizesHold(160, v); }
    }
  }

  lemma K5Complete()
    ensures AcComplete(K5Spec())
  {
    hide Used, Total, AcComplete, AcSymbols, Symbol, K5;
    var v := K5Spec().vals;
    K5Counts();
    forall r, s | 0 <= r < 16 && 1 <= s <= 10 ensures Symbol(r, s) in v { K5Lists(r, s); }
    K5Ends();
    assert v[3] == 0x00 && v[31] == 0xF0;
    AcSymbolsListed(K5Spec());
    AcSpecComplete(K5Spec());
  }

  lemma K5Ends()
    ensures K5(3) == 0x00 && K5(31) == 0xF0
  {
  }

  lemma K6Complete()
    ensures AcComplete(K6Spec())
  {
    hide Used, Total, AcComplete, AcSymbols, Symbol, K6;
    var v := K6Spec().vals;
    K6Counts();
    forall r, s | 0 <= r < 16 && 1 <= s <= 10 ensures Symbol(r, s) in v { K6Lists(r, s); }
    K6Ends();
    assert v[0] == 0x00 && v[31] == 0xF0;
    AcSymbolsListed(K6Spec());
    AcSpecComplete(K6Spec());
  }

  lemma K6Ends()
    ensures K6(0) == 0x00 && K6(31) == 0xF0
  {
  }

  function Luma(): Tables { Tables(DcSpec(K3_COUNTS), K5Spec()) }

  function Chroma(): Tables { Tables(DcSpec(K4_COUNTS), K6Spec()) }

  /** The tables of SimpleJPEG satisfy the Kraft inequality, list no symbol twice, and have a code for every
      category and every run-size symbol the coder asks for. */
  lemma StandardComplete()
    ensures Complete(Luma()) && Complete(Chroma())
  {
    hide DcComplete, AcComplete, Used, Total;
    K3Counts();
    K4Counts();
    DcSpecComplete(K3_COUNTS);
    DcSpecComplete(K4_COUNTS);
    K5Complete();
    K6Complete();
  }
}
