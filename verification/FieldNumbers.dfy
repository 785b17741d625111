/** The number checks of the builder, and what they amount to: every number of a message has at most one owner. */
module FieldNumbers {
  import opened Descriptors

  const MAX_NUMBER: int := 0x1FFF_FFFF
  const FIRST_RESERVED: int := 19000
  const LAST_RESERVED: int := 19999

  /** What BuildFieldOrExtension lets pass. */
  predicate NumberAllowed(n: int) { 0 < n <= MAX_NUMBER && !(FIRST_RESERVED <= n <= LAST_RESERVED) }

  /** What BuildExtensionRange lets pass. */
  predicate RangeAllowed(r: Range) { 0 < r.start < r.end <= MAX_NUMBER + 1 }

  predicate Contains(r: Range, n: int) { r.start <= n < r.end }

  /** The overlap test of BuildMessage. */
  predicate Overlap(a: Range, b: Range) { a.end > b.start && b.end > a.start }

  /** Descriptor::IsExtensionNumber. */
  predicate IsExtensionNumber(m: MessageProto, n: int) {
    exists i :: 0 <= i < |m.ranges| && Contains(m.ranges[i], n)
  }

  method IsExtensionNumberLoop(m: MessageProto, n: int) returns (r: bool)
    ensures r == IsExtensionNumber(m, n)
  {
    var i := 0;
    while i < |m.ranges|
      invariant 0 <= i <= |m.ranges|
      invariant forall k :: 0 <= k < i ==> !Contains(m.ranges[k], n)
    {
      if Contains(m.ranges[i], n) {
        return true;
      }
      i := i + 1;
    }
    return false;
  }

  // ---------- the checks ----------

  predicate FieldOutside(m: MessageProto, i: nat)
    requires i < |m.fields|
  {
    forall j :: 0 <= j < |m.ranges| ==> !Contains(m.ranges[j], m.fields[i].number)
  }

  predicate RangeApart(m: MessageProto, i: nat)
    requires i < |m.ranges|
  {
    forall j :: i < j < |m.ranges| ==> !Overlap(m.ranges[i], m.ranges[j])
  }

  /** The two loops at the end of BuildMessage report nothing. */
  predicate RangesClean(m: MessageProto) {
    (forall i :: 0 <= i < |m.fields| ==> FieldOutside(m, i)) && forall i :: 0 <= i < |m.ranges| ==> RangeApart(m, i)
  }

  method CheckFields(m: MessageProto) returns (errors: bool)
    ensures errors <==> exists i :: 0 <= i < |m.fields| && !FieldOutside(m, i)
  {
    errors := false;
    var i := 0;
    while i < |m.fields|
      invariant 0 <= i <= |m.fields|
      invariant errors <==> exists k :: 0 <= k < i && !FieldOutside(m, k)
    {
      ghost var before := errors;
      var j := 0;
      while j < |m.ranges|
        invariant 0 <= j <= |m.ranges|
        invariant errors <==> before || exists k :: 0 <= k < j && Contains(m.ranges[k], m.fields[i].number)
      {
        if m.ranges[j].start <= m.fields[i].number && m.fields[i].number < m.ranges[j].end {
          errors := true;
        }
        j := j + 1;
      }
      assert errors <==> before || !FieldOutside(m, i);
      i := i + 1;
    }
  }

  method CheckRanges(m: MessageProto) returns (errors: bool)
    ensures errors <==> exists i :: 0 <= i < |m.ranges| && !RangeApart(m, i)
  {
    errors := false;
    var i := 0;
    while i < |m.ranges|
      invariant 0 <= i <= |m.ranges|
      invariant errors <==> exists k :: 0 <= k < i && !RangeApart(m, k)
    {
      ghost var before := errors;
      var j := i + 1;
      while j < |m.ranges|
        invariant i < j <= |m.ranges|
        invariant errors <==> before || exists k :: i < k < j && Overlap(m.ranges[i], m.ranges[k])
      {
        if m.ranges[i].end > m.ranges[j].start && m.ranges[j].end > m.ranges[i].start {
          errors := true;
        }
        j := j + 1;
      }
      assert errors <==> before || !RangeApart(m, i);
      i := i + 1;
    }
  }

  /** AddFieldByNumber accepts every field of the message. */
  predicate DistinctNumbers(m: MessageProto) {
    forall i, j :: 0 <= i < j < |m.fields| ==> m.fields[i].number != m.fields[j].number
  }

  predicate NumbersChecked(m: MessageProto) {
    && (forall i :: 0 <= i < |m.fields| ==> NumberAllowed(m.fields[i].number))
    && (forall i :: 0 <= i < |m.ranges| ==> RangeAllowed(m.ranges[i]))
    && RangesClean(m) && DistinctNumbers(m)
  }

  // ---------- what they mean ----------

  /** The owners of numbers in a message: its fields, then its extension ranges. */
  predicate Owns(m: MessageProto, k: nat, n: int)
    requires k < |m.fields| + |m.ranges|
  {
    if k < |m.fields| then m.fields[k].number == n else Contains(m.ranges[k - |m.fields|], n)
  }

  ghost predicate OneOwner(m: MessageProto) {
    forall n: int, k: nat, l: nat :: k < l < |m.fields| + |m.ranges| && Owns(m, k, n) ==> !Owns(m, l, n)
  }

  /** Every owner owns some number, and only numbers of the format: fields none that is reserved. */
  ghost predicate NumbersInFormat(m: MessageProto) {
    && (forall i :: 0 <= i < |m.fields| ==> NumberAllowed(m.fields[i].number))
    && (forall i :: 0 <= i < |m.ranges| ==> InFormat(m.ranges[i]))
  }

  ghost predicate InFormat(r: Range) {
    (exists n :: Contains(r, n)) && forall n :: Contains(r, n) ==> 1 <= n <= MAX_NUMBER
  }

  lemma RangeInFormat(r: Range)
    ensures RangeAllowed(r) <==> InFormat(r)
  {
    if RangeAllowed(r) {
      assert Contains(r, r.start);
    } else if InFormat(r) {
      var n :| Contains(r, n);
      assert Contains(r, r.start) && Contains(r, r.end - 1);
    }
  }

  lemma OverlapShares(a: Range, b: Range)
    requires a.start < a.end && b.start < b.end
    ensures Overlap(a, b) <==> exists n :: Contains(a, n) && Contains(b, n)
  {
    if Overlap(a, b) {
      var n := if a.start < b.start then b.start else a.start;
      assert Contains(a, n) && Contains(b, n);
    }
  }

  lemma CheckedOwner(m: MessageProto, n: int, k: nat, l: nat)
    requires NumbersChecked(m) && k < l < |m.fields| + |m.ranges| && Owns(m, k, n)
    ensures !Owns(m, l, n)
  {
    var f := |m.fields|;
    if k < f && l >= f {
      assert FieldOutside(m, k);
    } else if k >= f {
      assert RangeApart(m, k - f);
      OverlapShares(m.ranges[k - f], m.ranges[l - f]);
    }
  }

  lemma OwnedChecked(m: MessageProto)
    requires NumbersInFormat(m) && OneOwner(m)
    ensures NumbersChecked(m)
  {
    var f := |m.fields|;
    forall i | 0 <= i < |m.ranges| ensures RangeAllowed(m.ranges[i]) { RangeInFormat(m.ranges[i]); }
    forall i | 0 <= i < f ensures FieldOutside(m, i) {
      forall j | 0 <= j < |m.ranges| ensures !Contains(m.ranges[j], m.fields[i].number) {
        assert Owns(m, i, m.fields[i].number) && !Owns(m, f + j, m.fields[i].number);
      }
    }
    forall i | 0 <= i < |m.ranges| ensures RangeApart(m, i) {
      forall j | i < j < |m.ranges| ensures !Overlap(m.ranges[i], m.ranges[j]) { RangesApart(m, i, j); }
    }
    forall i, j | 0 <= i < j < f ensures m.fields[i].number != m.fields[j].number {
      assert Owns(m, i, m.fields[i].number) && !Owns(m, j, m.fields[i].number);
    }
  }

  lemma RangesApart(m: MessageProto, i: nat, j: nat)
    requires OneOwner(m) && i < j < |m.ranges| && RangeAllowed(m.ranges[i]) && RangeAllowed(m.ranges[j])
    ensures !Overlap(m.ranges[i], m.ranges[j])
  {
    OverlapShares(m.ranges[i], m.ranges[j]);
    if Overlap(m.ranges[i], m.ranges[j]) {
      var f := |m.fields|;
      var n :| Contains(m.ranges[i], n) && Contains(m.ranges[j], n);
      assert Owns(m, f + i, n) && Owns(m, f + j, n);
    }
  }

  /** A message passes all number checks exactly when its numbers are in the format and each has at most one owner. */
  lemma CheckedIffOneOwner(m: MessageProto)
    ensures NumbersChecked(m) <==> NumbersInFormat(m) && OneOwner(m)
  {
    hide Owns, RangeAllowed, NumberAllowed, InFormat;
    if NumbersChecked(m) {
      forall i | 0 <= i < |m.ranges| ensures InFormat(m.ranges[i]) { RangeInFormat(m.ranges[i]); }
      forall n: int, k: nat, l: nat | k < l < |m.fields| + |m.ranges| && Owns(m, k, n) ensures !Owns(m, l, n) {
        CheckedOwner(m, n, k, l);
      }
    }
    if NumbersInFormat(m) && OneOwner(m) { OwnedChecked(m); }
  }

  /** No number accepted for an extension is the number of a declared field of its extendee. */
  lemma ExtensionIsNoField(m: MessageProto, n: int, i: nat)
    requires NumbersChecked(m) && IsExtensionNumber(m, n) && i < |m.fields|
    ensures m.fields[i].number != n
  {
    assert FieldOutside(m, i);
  }
}
