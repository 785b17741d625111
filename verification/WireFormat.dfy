/** Protocol Buffers wire primitives: base-128 varints, little-endian fixed-width values, tags, and fields a
    message does not know. */
module WireFormat {
  import opened Prelude

  type Octet = x: int | 0 <= x < 256

  type Bytes = seq<Octet>

  const TWO31: int := 0x8000_0000
  const TWO32: int := 0x1_0000_0000
  const TWO64: int := 0x1_0000_0000_0000_0000

  // ---------- varints ----------

  function VarintBytes(v: nat): (b: Bytes)
    ensures b != []
  {
    if v < 128 then [v] else [v % 128 + 128] + VarintBytes(v / 128)
  }

  /** At most n bytes are read; longer varints are malformed. */
  function ReadVarint(data: Bytes, n: nat): (r: Option<(nat, Bytes)>)
    ensures r.Some? ==> |r.value.1| < |data|
    decreases n
  {
    if n == 0 || data == [] then None
    else if data[0] < 128 then Some((data[0], data[1..]))
    else match ReadVarint(data[1..], n - 1)
      case None => None
      case Some((v, rest)) => Some((data[0] - 128 + 128 * v, rest))
  }

  const MAX_VARINT_BYTES: nat := 10

  /** The low 32 bits of a varint of up to ten bytes. */
  function ReadVarint32(data: Bytes): (r: Option<(nat, Bytes)>)
    ensures r.Some? ==> |r.value.1| < |data| && r.value.0 < TWO32
  {
    match ReadVarint(data, MAX_VARINT_BYTES)
    case None => None
    case Some((v, rest)) => Some((v % TWO32, rest))
  }

  function ReadVarint64(data: Bytes): (r: Option<(nat, Bytes)>)
    ensures r.Some? ==> |r.value.1| < |data| && r.value.0 < TWO64
  {
    match ReadVarint(data, MAX_VARINT_BYTES)
    case None => None
    case Some((v, rest)) => Some((v % TWO64, rest))
  }

  lemma {:induction false} ReadWritten(v: nat, n: nat, rest: Bytes)
    requires |VarintBytes(v)| <= n
    ensures ReadVarint(VarintBytes(v) + rest, n) == Some((v, rest))
    decreases n
  {
    var data := VarintBytes(v) + rest;
    if v < 128 {
      assert data[1..] == rest;
    } else {
      assert data[1..] == VarintBytes(v / 128) + rest;
      ReadWritten(v / 128, n - 1, rest);
    }
  }

  /** VarintSize64 of coded_stream.cc; for 32-bit values its answer is that of VarintSize32. */
  function VarintSize(v: nat): nat {
    if v < 0x8_0000_0000 then
      (if v < 0x80 then 1 else if v < 0x4000 then 2 else if v < 0x20_0000 then 3 else if v < 0x1000_0000 then 4 else 5)
    else
      (if v < 0x400_0000_0000 then 6 else if v < 0x2_0000_0000_0000 then 7 else if v < 0x100_0000_0000_0000 then 8
       else if v < 0x8000_0000_0000_0000 then 9 else 10)
  }

  /** The size table tells the number of bytes written, for every 64-bit value. */
  lemma VarintSizeIsLength(v: nat)
    requires v < TWO64
    ensures |VarintBytes(v)| == VarintSize(v)
    decreases v
  {
    if v >= 128 {
      VarintSizeIsLength(v / 128);
      VarintSizeStep(v);
    }
  }

  lemma VarintSizeStep(v: nat)
    requires 128 <= v < TWO64
    ensures VarintSize(v) == 1 + VarintSize(v / 128)
  {
  }

  lemma ReadVarint32Written(v: nat, rest: Bytes)
    requires v < TWO32
    ensures ReadVarint32(VarintBytes(v) + rest) == Some((v, rest))
  {
    hide VarintBytes, ReadVarint;
    VarintSizeIsLength(v);
    ReadWritten(v, MAX_VARINT_BYTES, rest);
  }

  lemma ReadVarint64Written(v: nat, rest: Bytes)
    requires v < TWO64
    ensures ReadVarint64(VarintBytes(v) + rest) == Some((v, rest))
  {
    hide VarintBytes, ReadVarint;
    VarintSizeIsLength(v);
    ReadWritten(v, MAX_VARINT_BYTES, rest);
  }

  /** static_cast<int32> and back; a negative int32 is written as its 64-bit sign extension. */
  function Signed32(v: nat): int
    requires v < TWO32
  {
    if v < TWO31 then v else v - TWO32
  }

  predicate IsInt32(v: int) { -TWO31 <= v < TWO31 }

  function SignExtended(v: int): (r: nat)
    ensures r < TWO64
  {
    v % TWO64
  }

  lemma SignedResidue(v: int)
    requires IsInt32(v)
    ensures SignExtended(v) == (if v < 0 then v + TWO64 else v)
    ensures Signed32(SignExtended(v) % TWO32) == v
  {
  }

  lemma ReadSigned32(v: int, rest: Bytes)
    requires IsInt32(v)
    ensures var r := ReadVarint32(VarintBytes(SignExtended(v)) + rest);
      r.Some? && Signed32(r.value.0) == v && r.value.1 == rest
  {
    hide VarintBytes, ReadVarint;
    VarintSizeIsLength(SignExtended(v));
    ReadWritten(SignExtended(v), MAX_VARINT_BYTES, rest);
    SignedResidue(v);
  }

  // ---------- fixed-width values ----------

  function FixedBytes(v: nat, n: nat): (b: Bytes)
    ensures |b| == n
    decreases n
  {
    if n == 0 then [] else [v % 256] + FixedBytes(v / 256, n - 1)
  }

  function ReadFixed(data: Bytes, n: nat): (r: Option<(nat, Bytes)>)
    ensures r.Some? ==> |r.value.1| == |data| - n
    decreases n
  {
    if n == 0 then Some((0, data))
    else if data == [] then None
    else match ReadFixed(data[1..], n - 1)
      case None => None
      case Some((v, rest)) => Some((data[0] + 256 * v, rest))
  }

  function Pow256(n: nat): nat { if n == 0 then 1 else 256 * Pow256(n - 1) }

  lemma {:induction false} ReadFixedWritten(v: nat, n: nat, rest: Bytes)
    requires v < Pow256(n)
    ensures ReadFixed(FixedBytes(v, n) + rest, n) == Some((v, rest))
    decreases n
  {
    var data := FixedBytes(v, n) + rest;
    if n == 0 {
      assert data == rest;
    } else {
      assert data[1..] == FixedBytes(v / 256, n - 1) + rest;
      ReadFixedWritten(v / 256, n - 1, rest);
    }
  }

  lemma Pow256Known()
    ensures Pow256(4) == TWO32 && Pow256(8) == TWO64
  {
    assert Pow256(2) == 0x1_0000;
    assert Pow256(4) == 0x1_0000_0000;
    assert Pow256(6) == 0x1_0000_0000_0000;
  }

  // ---------- tags ----------

  datatype WireType = Varint | Fixed64 | Delimited | StartGroup | EndGroup | Fixed32 | Invalid

  function TypeOf(tag: nat): WireType {
    match tag % 8
    case 0 => Varint case 1 => Fixed64 case 2 => Delimited case 3 => StartGroup case 4 => EndGroup case 5 => Fixed32
    case _ => Invalid
  }

  function CodeOfType(t: WireType): nat {
    match t
    case Varint => 0 case Fixed64 => 1 case Delimited => 2 case StartGroup => 3 case EndGroup => 4 case Fixed32 => 5
    case Invalid => 7
  }

  function NumberOf(tag: nat): nat { tag / 8 }

  function MakeTag(number: nat, t: WireType): nat { number * 8 + CodeOfType(t) }

  const MAX_FIELD_NUMBER: nat := 0x1FFF_FFFF

  lemma TagParts(number: nat, t: WireType)
    requires t != Invalid && number <= MAX_FIELD_NUMBER
    ensures var tag := MakeTag(number, t); tag < TWO32 && NumberOf(tag) == number && TypeOf(tag) == t
    ensures MakeTag(number, t) == 0 <==> number == 0 && t == Varint
  {
  }

  /** What ReadTag returns: 0 at the end of the data, on a malformed varint and on a zero tag; only the first of these
      is a legitimate end of a message. */
  datatype TagRead = TagRead(tag: nat, rest: Bytes, atEnd: bool)

  function ReadTag(data: Bytes): (r: TagRead)
    ensures r.tag != 0 ==> |r.rest| < |data| && r.tag < TWO32 && !r.atEnd
  {
    match ReadVarint32(data)
    case None => TagRead(0, data, data == [])
    case Some((tag, rest)) => TagRead(tag, rest, false)
  }

  function TagBytes(number: nat, t: WireType): Bytes { VarintBytes(MakeTag(number, t)) }

  lemma ReadTagWritten(number: nat, t: WireType, rest: Bytes)
    requires t != Invalid && number <= MAX_FIELD_NUMBER && !(number == 0 && t == Varint)
    ensures ReadTag(TagBytes(number, t) + rest) == TagRead(MakeTag(number, t), rest, false)
    ensures MakeTag(number, t) != 0
  {
    hide VarintBytes;
    TagParts(number, t);
    ReadVarint32Written(MakeTag(number, t), rest);
  }

  // ---------- strings ----------

  /** ReadString of wire_format_lite_inl.h: on failure the string may have been cleared and partly filled. */
  datatype StringRead = StringRead(ok: bool, value: Bytes, rest: Bytes)

  function TakeString(length: nat, was: Bytes, data: Bytes): StringRead {
    if length >= TWO31 then StringRead(false, was, data)
    else if length > |data| then StringRead(false, data, [])
    else StringRead(true, data[..length], data[length..])
  }

  function ReadString(data: Bytes, was: Bytes): (r: StringRead)
    ensures r.ok ==> |r.rest| < |data|
  {
    match ReadVarint32(data)
    case None => StringRead(false, was, data)
    case Some((length, rest)) => TakeString(length, was, rest)
  }

  function StringBytes(s: Bytes): Bytes
  {
    VarintBytes(|s|) + s
  }

  lemma ReadStringWritten(s: Bytes, was: Bytes, rest: Bytes)
    requires |s| < TWO31
    ensures ReadString(StringBytes(s) + rest, was) == StringRead(true, s, rest)
  {
    hide VarintBytes, ReadVarint32;
    assert StringBytes(s) + rest == VarintBytes(|s|) + (s + rest);
    ReadVarint32Written(|s|, s + rest);
    assert (s + rest)[..|s|] == s && (s + rest)[|s|..] == rest;
  }

  // ---------- unknown fields ----------

  datatype Unknown =
    | UVarint(number: nat, value: nat)
    | UFixed32(number: nat, value: nat)
    | UFixed64(number: nat, value: nat)
    | UDelimited(number: nat, bytes: Bytes)
    | UGroup(number: nat, fields: seq<Unknown>)

  const RECURSION_LIMIT: nat := 64

  /** SkipField: what it appended to the unknown fields, and what it left unread. */
  datatype Skipped = Skipped(ok: bool, fields: seq<Unknown>, rest: Bytes)

  function SkipField(data: Bytes, tag: nat, depth: nat): (r: Skipped)
    ensures r.ok ==> |r.rest| <= |data|
    decreases |data|, 1
  {
    var number := NumberOf(tag);
    match TypeOf(tag)
    case Varint => (match ReadVarint64(data)
      case None => Skipped(false, [], data)
      case Some((v, rest)) => Skipped(true, [UVarint(number, v)], rest))
    case Fixed64 => (match ReadFixed(data, 8)
      case None => Skipped(false, [], data)
      case Some((v, rest)) => Skipped(true, [UFixed64(number, v)], rest))
    case Delimited => (match ReadVarint32(data)
      case None => Skipped(false, [], data)
      case Some((length, rest)) =>
        var s := TakeString(length, [], rest);
        Skipped(s.ok, [UDelimited(number, s.value)], s.rest))
    case StartGroup =>
      if depth >= RECURSION_LIMIT then Skipped(false, [], data)
      else
        var g := SkipMessage(data, depth + 1, []);
        Skipped(g.ok && g.lastTag == MakeTag(number, EndGroup), [UGroup(number, g.fields)], g.rest)
    case EndGroup => Skipped(false, [], data)
    case Fixed32 => (match ReadFixed(data, 4)
      case None => Skipped(false, [], data)
      case Some((v, rest)) => Skipped(true, [UFixed32(number, v)], rest))
    case Invalid => Skipped(false, [], data)
  }

  datatype GroupRead = GroupRead(ok: bool, fields: seq<Unknown>, lastTag: nat, rest: Bytes)

  /** SkipMessage: fields up to an end-group tag or the end of the data. */
  function SkipMessage(data: Bytes, depth: nat, fields: seq<Unknown>): (r: GroupRead)
    ensures r.ok ==> |r.rest| <= |data|
    decreases |data|, 0
  {
    var t := ReadTag(data);
    if t.tag == 0 || TypeOf(t.tag) == EndGroup then GroupRead(true, fields, t.tag, t.rest)
    else
      var s := SkipField(t.rest, t.tag, depth);
      if !s.ok then GroupRead(false, fields + s.fields, t.tag, s.rest)
      else SkipMessage(s.rest, depth, fields + s.fields)
  }

  /** Wire type and number under which a field is written. */
  function WireTypeOf(u: Unknown): (t: WireType)
    ensures t != Invalid
  {
    match u
    case UVarint(_, _) => Varint
    case UFixed32(_, _) => Fixed32
    case UFixed64(_, _) => Fixed64
    case UDelimited(_, _) => Delimited
    case UGroup(_, _) => StartGroup
  }

  function TagOf(u: Unknown): nat { MakeTag(u.number, WireTypeOf(u)) }

  function UnknownBytes(u: Unknown): Bytes
    decreases u, |Members(u)| + 2
  {
    TagBytes(u.number, WireTypeOf(u)) + BodyBytes(u)
  }

  function Members(u: Unknown): seq<Unknown> { if u.UGroup? then u.fields else [] }

  function BodyBytes(u: Unknown): Bytes
    decreases u, |Members(u)| + 1
  {
    match u
    case UVarint(number, v) => VarintBytes(v)
    case UFixed32(number, v) => FixedBytes(v, 4)
    case UFixed64(number, v) => FixedBytes(v, 8)
    case UDelimited(number, b) => StringBytes(b)
    case UGroup(number, fields) => GroupBytes(u, 0) + TagBytes(number, EndGroup)
  }

  /** The fields of a group from the i-th on. */
  function GroupBytes(u: Unknown, i: nat): Bytes
    requires u.UGroup? && i <= |u.fields|
    decreases u, |u.fields| - i
  {
    if i == |u.fields| then [] else UnknownBytes(u.fields[i]) + GroupBytes(u, i + 1)
  }

  function UnknownsBytes(us: seq<Unknown>): Bytes {
    if us == [] then [] else UnknownBytes(us[0]) + UnknownsBytes(us[1..])
  }

  /** A field of the shape the parser itself stores: a tag that can be read, values of the wire width, and groups
      nested no deeper than the parser follows. */
  predicate Storable(u: Unknown, depth: nat)
    decreases u, |Members(u)| + 1
  {
    u.number <= MAX_FIELD_NUMBER &&
    match u
    case UVarint(number, v) => number != 0 && v < TWO64
    case UFixed32(_, v) => v < TWO32
    case UFixed64(_, v) => v < TWO64
    case UDelimited(_, b) => |b| < TWO31
    case UGroup(_, _) => depth < RECURSION_LIMIT && GroupStorable(u, 0, depth + 1)
  }

  predicate GroupStorable(u: Unknown, i: nat, depth: nat)
    requires u.UGroup? && i <= |u.fields|
    decreases u, |u.fields| - i
  {
    i < |u.fields| ==> Storable(u.fields[i], depth) && GroupStorable(u, i + 1, depth)
  }

  /** Skipping the body of a written field stores exactly that field. */
  lemma {:induction false} SkipWritten(u: Unknown, depth: nat, rest: Bytes)
    requires Storable(u, depth)
    ensures SkipField(BodyBytes(u) + rest, TagOf(u), depth) == Skipped(true, [u], rest)
    decreases u, |Members(u)| + 1
  {
    hide VarintBytes, FixedBytes, ReadFixed, SkipMessage, GroupBytes, GroupStorable, MakeTag;
    TagParts(u.number, WireTypeOf(u));
    match u
    case UVarint(number, v) => ReadVarint64Written(v, rest);
    case UFixed32(number, v) => Pow256Known(); ReadFixedWritten(v, 4, rest);
    case UFixed64(number, v) => Pow256Known(); ReadFixedWritten(v, 8, rest);
    case UDelimited(number, b) => SkipStringWritten(number, b, depth, rest);
    case UGroup(number, fields) =>
      Assoc(GroupBytes(u, 0), TagBytes(number, EndGroup), rest);
      SkipGroupWritten(u, 0, depth + 1, rest);
      assert u.fields[..0] == [];
  }

  lemma SkipStringWritten(number: nat, b: Bytes, depth: nat, rest: Bytes)
    requires number <= MAX_FIELD_NUMBER && |b| < TWO31
    ensures SkipField(StringBytes(b) + rest, MakeTag(number, Delimited), depth) == Skipped(true, [UDelimited(number, b)], rest)
  {
    hide VarintBytes, ReadVarint32, MakeTag;
    TagParts(number, Delimited);
    Assoc(VarintBytes(|b|), b, rest);
    ReadVarint32Written(|b|, b + rest);
    assert (b + rest)[..|b|] == b && (b + rest)[|b|..] == rest;
  }

  lemma {:induction false} SkipGroupWritten(u: Unknown, i: nat, depth: nat, rest: Bytes)
    requires u.UGroup? && i <= |u.fields| && u.number <= MAX_FIELD_NUMBER && GroupStorable(u, i, depth)
    ensures SkipMessage(GroupBytes(u, i) + (TagBytes(u.number, EndGroup) + rest), depth, u.fields[..i])
      == GroupRead(true, u.fields, MakeTag(u.number, EndGroup), rest)
    decreases u, |u.fields| - i
  {
    hide TagBytes, ReadTag, SkipField, BodyBytes, MakeTag;
    var end := TagBytes(u.number, EndGroup) + rest;
    if i == |u.fields| {
      assert GroupBytes(u, i) + end == end;
      ReadTagWritten(u.number, EndGroup, rest);
      TagParts(u.number, EndGroup);
      assert u.fields[..i] == u.fields;
    } else {
      var f, more := u.fields[i], GroupBytes(u, i + 1);
      Assoc(UnknownBytes(f), more, end);
      Assoc(TagBytes(f.number, WireTypeOf(f)), BodyBytes(f), more + end);
      ReadTagWritten(f.number, WireTypeOf(f), BodyBytes(f) + (more + end));
      TagParts(f.number, WireTypeOf(f));
      SkipWritten(f, depth, more + end);
      assert u.fields[..i] + [f] == u.fields[..i + 1];
      SkipGroupWritten(u, i + 1, depth, rest);
    }
  }

  // ---------- sizes ----------

  function TagSize(number: nat, t: WireType): nat { VarintSize(MakeTag(number, t)) }

  /** ComputeUnknownFieldsSize. */
  function UnknownSize(u: Unknown): nat
    decreases u, |Members(u)| + 1
  {
    TagSize(u.number, WireTypeOf(u)) +
    match u
    case UVarint(_, v) => VarintSize(v)
    case UFixed32(_, _) => 4
    case UFixed64(_, _) => 8
    case UDelimited(_, b) => VarintSize(|b|) + |b|
    case UGroup(number, _) => GroupSize(u, 0) + TagSize(number, EndGroup)
  }

  function GroupSize(u: Unknown, i: nat): nat
    requires u.UGroup? && i <= |u.fields|
    decreases u, |u.fields| - i
  {
    if i == |u.fields| then 0 else UnknownSize(u.fields[i]) + GroupSize(u, i + 1)
  }

  lemma TagSizeIsLength(number: nat, t: WireType)
    requires number <= MAX_FIELD_NUMBER && t != Invalid
    ensures |TagBytes(number, t)| == TagSize(number, t)
  {
    TagParts(number, t);
    VarintSizeIsLength(MakeTag(number, t));
  }

  lemma {:induction false} UnknownSizeIsLength(u: Unknown, depth: nat)
    requires Storable(u, depth)
    ensures |UnknownBytes(u)| == UnknownSize(u)
    decreases u, |Members(u)| + 1
  {
    hide VarintBytes, VarintSize, TagBytes, TagSize;
    TagSizeIsLength(u.number, WireTypeOf(u));
    match u
    case UVarint(_, v) => VarintSizeIsLength(v);
    case UFixed32(_, _) =>
    case UFixed64(_, _) =>
    case UDelimited(_, b) => VarintSizeIsLength(|b|);
    case UGroup(number, _) =>
      TagSizeIsLength(number, EndGroup);
      GroupSizeIsLength(u, 0, depth + 1);
  }

  lemma {:induction false} GroupSizeIsLength(u: Unknown, i: nat, depth: nat)
    requires u.UGroup? && i <= |u.fields| && GroupStorable(u, i, depth)
    ensures |GroupBytes(u, i)| == GroupSize(u, i)
    decreases u, |u.fields| - i
  {
    hide UnknownBytes, UnknownSize, Storable;
    if i < |u.fields| {
      UnknownSizeIsLength(u.fields[i], depth);
      GroupSizeIsLength(u, i + 1, depth);
    }
  }
}
