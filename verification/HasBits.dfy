/** Presence bits of a generated message, one word for up to 32 fields; three fields are used here. */
module HasBits {

  predicate Has0(bits: bv32) { bits & 1 != 0 }

  predicate Has1(bits: bv32) { bits & 2 != 0 }

  predicate Has2(bits: bv32) { bits & 4 != 0 }

  function With0(bits: bv32): bv32 { bits | 1 }

  function With1(bits: bv32): bv32 { bits | 2 }

  function With2(bits: bv32): bv32 { bits | 4 }

  lemma Set0(bits: bv32)
    ensures Has0(With0(bits)) && (Has1(With0(bits)) <==> Has1(bits)) && (Has2(With0(bits)) <==> Has2(bits))
  {
  }

  lemma Set1(bits: bv32)
    ensures Has1(With1(bits)) && (Has0(With1(bits)) <==> Has0(bits)) && (Has2(With1(bits)) <==> Has2(bits))
  {
  }

  lemma Set2(bits: bv32)
    ensures Has2(With2(bits)) && (Has0(With2(bits)) <==> Has0(bits)) && (Has1(With2(bits)) <==> Has1(bits))
  {
  }

  function Cleared0(bits: bv32): bv32 { bits & !1 }

  function Cleared1(bits: bv32): bv32 { bits & !2 }

  lemma Clear0(bits: bv32)
    ensures !Has0(Cleared0(bits)) && (Has1(Cleared0(bits)) <==> Has1(bits)) && (Has2(Cleared0(bits)) <==> Has2(bits))
  {
  }

  lemma Clear1(bits: bv32)
    ensures !Has1(Cleared1(bits)) && (Has0(Cleared1(bits)) <==> Has0(bits)) && (Has2(Cleared1(bits)) <==> Has2(bits))
  {
  }

  /** The test in front of the fields: if none of the first eight bits is set, no field is present. */
  lemma LowByteEmpty(bits: bv32)
    requires bits & 0xff == 0
    ensures !Has0(bits) && !Has1(bits) && !Has2(bits)
  {
  }

  lemma NoBits()
    ensures !Has0(0) && !Has1(0) && !Has2(0)
  {
  }
}
