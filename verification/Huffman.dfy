/** Canonical Huffman codes as bsCreateSourceHuffmanTable assigns them (T.81 Annex C), and the decoding
    procedure of T.81 section F.2.2.3.  `counts[n - 1]` is the number of codes of length n; a symbol is
    known here by its position in the list of values, which is ordered by code length. */
module Huffman {
  import opened Prelude
  import opened Bits

  function Total(counts: seq<nat>): nat {
    if counts == [] then 0 else Total(counts[..|counts| - 1]) + counts[|counts| - 1]
  }

  /** The code space used up by lengths 1..n, in units of 2^-n: the source's `code` after round n. */
  function Used(counts: seq<nat>): nat {
    if counts == [] then 0 else 2 * Used(counts[..|counts| - 1]) + counts[|counts| - 1]
  }

  /** The Kraft inequality. */
  predicate Kraft(counts: seq<nat>) {
    Used(counts) <= Pow2(|counts|)
  }

  function Init(counts: seq<nat>): seq<nat>
    requires counts != []
  {
    counts[..|counts| - 1]
  }

  /** Length and code assigned to position p. */
  function LenOf(counts: seq<nat>, p: nat): (n: nat)
    requires p < Total(counts)
    ensures 1 <= n <= |counts|
  {
    if p < Total(Init(counts)) then LenOf(Init(counts), p) else |counts|
  }

  function CodeOf(counts: seq<nat>, p: nat): nat
    requires p < Total(counts)
  {
    if p < Total(Init(counts)) then CodeOf(Init(counts), p)
    else 2 * Used(Init(counts)) + (p - Total(Init(counts)))
  }

  /** The code word put into the stream. */
  function Word(counts: seq<nat>, p: nat): (w: seq<bool>)
    requires p < Total(counts)
    ensures |w| == LenOf(counts, p)
  {
    Low(CodeOf(counts, p), LenOf(counts, p))
  }

  // ---------- prefix freedom is the Kraft inequality ----------

  ghost predicate PrefixFree(counts: seq<nat>) {
    forall p: nat, q: nat :: p < Total(counts) && q < Total(counts) && p != q ==>
      !(Word(counts, p) <= Word(counts, q))
  }

  lemma {:induction false} KraftPrefix(counts: seq<nat>, n: nat)
    requires Kraft(counts) && n <= |counts|
    ensures Kraft(counts[..n])
  {
    if n < |counts| {
      KraftPrefix(Init(counts), n);
      assert Init(counts)[..n] == counts[..n];
    } else {
      assert counts[..n] == counts;
    }
  }

  /** Where a position lies within its length, in terms of the whole list of counts. */
  lemma {:induction false} Place(counts: seq<nat>, p: nat)
    requires p < Total(counts)
    ensures var n := LenOf(counts, p); var before := counts[..n - 1];
      && Total(before) <= p < Total(before) + counts[n - 1]
      && CodeOf(counts, p) == 2 * Used(before) + (p - Total(before))
      && CodeOf(counts, p) < Used(counts[..n])
  {
    var init := Init(counts);
    if p < Total(init) {
      Place(init, p);
      var n := LenOf(counts, p);
      assert init[..n - 1] == counts[..n - 1] && init[..n] == counts[..n];
    } else {
      assert counts[..|counts|] == counts;
    }
  }

  lemma CodeFits(counts: seq<nat>, p: nat)
    requires Kraft(counts) && p < Total(counts)
    ensures CodeOf(counts, p) < Pow2(LenOf(counts, p))
  {
    Place(counts, p);
    KraftPrefix(counts, LenOf(counts, p));
  }

  lemma {:induction false} ShrBound(v: nat, i: nat, n: nat)
    requires v < Pow2(n + i)
    ensures 0 <= Shr(v, i) < Pow2(n)
  {
    if i > 0 { ShrBound(v / 2, i - 1, n); }
  }

  lemma {:induction false} LowTake(v: int, n: nat, i: nat)
    requires i <= n
    ensures Low(v, n)[..i] == Low(Shr(v, n - i), i)
    decreases n
  {
    if i < n {
      LowTake(v / 2, n - 1, i);
      assert Low(v, n)[..i] == Low(v / 2, n - 1)[..i];
    } else {
      assert Low(v, n)[..i] == Low(v, n);
    }
  }

  /** A code of length n lies above every shorter code once cut to that length. */
  lemma {:induction false} ShrAbove(counts: seq<nat>, v: nat, n: nat, i: nat)
    requires 1 <= n <= |counts| && i < n && v >= 2 * Used(counts[..n - 1])
    ensures Shr(v, n - i) >= Used(counts[..i])
    decreases n
  {
    if i < n - 1 {
      assert Init(counts[..n - 1]) == counts[..n - 2];
      ShrAbove(counts, v / 2, n - 1, i);
    } else {
      assert Shr(v, 1) == v / 2 by { assert Shr(v / 2, 0) == v / 2; }
    }
  }

  /** A code word cut to m bits reads as its code shifted right. */
  lemma CutValue(counts: seq<nat>, q: nat, m: nat)
    requires Kraft(counts) && q < Total(counts) && m <= LenOf(counts, q)
    ensures Value(Word(counts, q)[..m]) == Shr(CodeOf(counts, q), LenOf(counts, q) - m)
  {
    var n, v := LenOf(counts, q), CodeOf(counts, q);
    CodeFits(counts, q);
    ShrBound(v, n - m, m);
    LowTake(v, n, m);
    ValueOfLow(Shr(v, n - m), m);
  }

  lemma WordValue(counts: seq<nat>, p: nat)
    requires Kraft(counts) && p < Total(counts)
    ensures Value(Word(counts, p)) == CodeOf(counts, p)
  {
    CodeFits(counts, p);
    ValueOfLow(CodeOf(counts, p), LenOf(counts, p));
  }

  lemma ShiftedCodesDiffer(counts: seq<nat>, p: nat, q: nat)
    requires p < Total(counts) && q < Total(counts) && p != q && LenOf(counts, p) <= LenOf(counts, q)
    ensures Shr(CodeOf(counts, q), LenOf(counts, q) - LenOf(counts, p)) != CodeOf(counts, p)
  {
    var m, n := LenOf(counts, p), LenOf(counts, q);
    Place(counts, p);
    Place(counts, q);
    if m < n { ShrAbove(counts, CodeOf(counts, q), n, m); }
  }

  lemma KraftPrefixFree(counts: seq<nat>, p: nat, q: nat)
    requires Kraft(counts) && p < Total(counts) && q < Total(counts) && p != q
    ensures !(Word(counts, p) <= Word(counts, q))
  {
    var a, b := Word(counts, p), Word(counts, q);
    if a <= b {
      assert b[..|a|] == a;
      CutValue(counts, q, |a|);
      WordValue(counts, p);
      ShiftedCodesDiffer(counts, p, q);
    }
  }

  lemma {:induction false} FirstOverflow(counts: seq<nat>) returns (n: nat)
    requires !Kraft(counts)
    ensures 1 <= n <= |counts| && Kraft(counts[..n - 1]) && !Kraft(counts[..n])
  {
    var init := Init(counts);
    if Kraft(init) {
      n := |counts|;
      assert counts[..n] == counts;
    } else {
      n := FirstOverflow(init);
      assert init[..n - 1] == counts[..n - 1] && init[..n] == counts[..n];
    }
  }

  lemma {:induction false} FirstCodeIsZero(counts: seq<nat>)
    requires Total(counts) > 0
    ensures CodeOf(counts, 0) == 0
  {
    var init := Init(counts);
    if Total(init) > 0 { FirstCodeIsZero(init); } else { NothingUsed(init); }
  }

  lemma {:induction false} NothingUsed(counts: seq<nat>)
    requires Total(counts) == 0
    ensures Used(counts) == 0
  {
    if counts != [] { NothingUsed(Init(counts)); }
  }

  lemma {:induction false} TotalPrefix(counts: seq<nat>, n: nat)
    requires n <= |counts|
    ensures Total(counts[..n]) <= Total(counts)
  {
    if n < |counts| {
      TotalPrefix(Init(counts), n);
      assert Init(counts)[..n] == counts[..n];
    } else {
      assert counts[..n] == counts;
    }
  }

  lemma {:induction false} PrefixPlace(counts: seq<nat>, n: nat, p: nat)
    requires n <= |counts| && p < Total(counts[..n])
    ensures p < Total(counts)
    ensures LenOf(counts, p) == LenOf(counts[..n], p) && CodeOf(counts, p) == CodeOf(counts[..n], p)
  {
    TotalPrefix(counts, n);
    if n < |counts| {
      TotalPrefix(Init(counts), n);
      assert Init(counts)[..n] == counts[..n];
      PrefixPlace(Init(counts), n, p);
    } else {
      assert counts[..n] == counts;
    }
  }

  /** When the counts overflow some length, the first code of all and the overflowing one both read
      as zero bits, and the shorter is a prefix of the other. */
  lemma OverflowClashes(counts: seq<nat>)
    requires !Kraft(counts)
    ensures !PrefixFree(counts)
  {
    var n := FirstOverflow(counts);
    var upTo, before := counts[..n], counts[..n - 1];
    assert Init(upTo) == before;
    var q := Total(before) + (Pow2(n) - 2 * Used(before));
    assert LenOf(upTo, q) == n && CodeOf(upTo, q) == Pow2(n);
    FirstCodeIsZero(upTo);
    PrefixPlace(counts, n, q);
    PrefixPlace(counts, n, 0);
    var m := LenOf(upTo, 0);
    LowZero(m);
    LowZero(n);
    LowPeriodic(0, n);
    assert Word(counts, 0) == Zeros(m) && Word(counts, q) == Zeros(n);
    assert Zeros(m) <= Zeros(n);
  }

  /** Canonical assignment gives a prefix-free code exactly when the counts satisfy Kraft's inequality. */
  lemma PrefixFreeIffKraft(counts: seq<nat>)
    ensures PrefixFree(counts) <==> Kraft(counts)
  {
    if Kraft(counts) {
      forall p: nat, q: nat | p < Total(counts) && q < Total(counts) && p != q
        ensures !(Word(counts, p) <= Word(counts, q))
      {
        KraftPrefixFree(counts, p, q);
      }
    } else {
      OverflowClashes(counts);
    }
  }

  // ---------- decoding ----------

  /** T.81 Figure F.16 with n bits read so far: MINCODE(n) = 2 Used(before), MAXCODE(n) = MINCODE(n) +
      counts - 1 (or -1), VALPTR(n) = Total(before).  Only the upper bound is tested, as there; the
      precondition shows why that is enough. */
  function DecodeFrom(counts: seq<nat>, bits: seq<bool>, n: nat, code: nat): (r: Option<(nat, seq<bool>)>)
    requires n <= |counts|
    requires n > 0 ==> code >= 2 * Used(counts[..n - 1])
    ensures r.Some? ==> r.value.0 < Total(counts)
    decreases |counts| - n
  {
    if n > 0 && code < 2 * Used(counts[..n - 1]) + counts[n - 1] then
      TotalPrefix(counts, n);
      assert Init(counts[..n]) == counts[..n - 1];
      Some((Total(counts[..n - 1]) + (code - 2 * Used(counts[..n - 1])), bits))
    else if n == |counts| || bits == [] then None
    else
      assert n > 0 ==> Init(counts[..n]) == counts[..n - 1];
      DecodeFrom(counts, bits[1..], n + 1, 2 * code + (if bits[0] then 1 else 0))
  }

  function Decode(counts: seq<nat>, bits: seq<bool>): Option<(nat, seq<bool>)> {
    DecodeFrom(counts, bits, 0, 0)
  }

  lemma {:induction false} ShrStep(v: nat, i: nat)
    requires i > 0
    ensures Shr(v, i - 1) == 2 * Shr(v, i) + Shr(v, i - 1) % 2
  {
    if i > 1 { ShrStep(v / 2, i - 1); } else { assert Shr(v, 0) == v && Shr(v, 1) == Shr(v / 2, 0) == v / 2; }
  }

  /** The next bit of a word extends the code read so far. */
  lemma NextBit(v: nat, n: nat, i: nat)
    requires i < n
    ensures 2 * Shr(v, n - i) + (if Low(v, n)[i] then 1 else 0) == Shr(v, n - (i + 1))
  {
    LowBit(v, n, n - 1 - i);
    ShrStep(v, n - i);
  }

  lemma DecodeSkips(counts: seq<nat>, bits: seq<bool>, i: nat, code: nat)
    requires i < |counts| && bits != [] && code >= Used(counts[..i])
    requires i > 0 ==> code >= 2 * Used(counts[..i - 1])
    ensures 2 * code >= 2 * Used(counts[..i])
    ensures DecodeFrom(counts, bits, i, code)
         == DecodeFrom(counts, bits[1..], i + 1, 2 * code + (if bits[0] then 1 else 0))
  {
    if i > 0 { assert Init(counts[..i]) == counts[..i - 1]; }
  }

  lemma DecodeStops(counts: seq<nat>, p: nat, bits: seq<bool>)
    requires p < Total(counts)
    ensures var n := LenOf(counts, p);
      && CodeOf(counts, p) >= 2 * Used(counts[..n - 1])
      && DecodeFrom(counts, bits, n, CodeOf(counts, p)) == Some((p, bits))
  {
    Place(counts, p);
  }

  lemma {:induction false} DecodeMidWord(counts: seq<nat>, p: nat, rest: seq<bool>, i: nat)
    requires p < Total(counts) && i <= LenOf(counts, p)
    requires var code := Shr(CodeOf(counts, p), LenOf(counts, p) - i);
      code >= 0 && (i > 0 ==> code >= 2 * Used(counts[..i - 1]))
    ensures var n := LenOf(counts, p);
      DecodeFrom(counts, Word(counts, p)[i..] + rest, i, Shr(CodeOf(counts, p), n - i)) == Some((p, rest))
    decreases LenOf(counts, p) - i
  {
    var n, v, w := LenOf(counts, p), CodeOf(counts, p), Word(counts, p);
    if i == n {
      assert w[i..] + rest == rest;
      DecodeStops(counts, p, rest);
    } else {
      Place(counts, p);
      ShrAbove(counts, v, n, i);
      var bits := w[i..] + rest;
      assert bits[1..] == w[i + 1..] + rest && bits[0] == w[i];
      DecodeSkips(counts, bits, i, Shr(v, n - i));
      NextBit(v, n, i);
      DecodeMidWord(counts, p, rest, i + 1);
    }
  }

  /** The decoder reads back the symbol of every code word and stops right behind it. */
  lemma DecodeWord(counts: seq<nat>, p: nat, rest: seq<bool>)
    requires Kraft(counts) && p < Total(counts)
    ensures Decode(counts, Word(counts, p) + rest) == Some((p, rest))
  {
    CodeFits(counts, p);
    var n, v := LenOf(counts, p), CodeOf(counts, p);
    ShrBound(v, n, 0);
    assert Word(counts, p)[0..] == Word(counts, p);
    DecodeMidWord(counts, p, rest, 0);
  }
}
