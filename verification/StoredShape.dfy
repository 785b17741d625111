/** What the parser can have stored: the conditions under which the round trip holds are met by every message that
    came out of the parser, whatever bytes it was given. */
module StoredShape {
  import opened WireFormat
  import opened PersonCodec
  import opened Growth

  /** Since writing at most doubles, whatever is read from fewer bytes than this can be written into a field. */
  const HALF: int := 0x4000_0000

  lemma {:induction false} ReadFixedBound(data: Bytes, n: nat)
    ensures ReadFixed(data, n).Some? ==> ReadFixed(data, n).value.0 < Pow256(n)
    decreases n
  {
    if n > 0 && data != [] { ReadFixedBound(data[1..], n - 1); }
  }

  /** All fields are storable inside a group at this depth. */
  predicate AllStorable(us: seq<Unknown>, depth: nat) {
    forall i :: 0 <= i < |us| ==> Storable(us[i], depth)
  }

  lemma {:induction false} GroupOfStorable(u: Unknown, i: nat, depth: nat)
    requires u.UGroup? && i <= |u.fields| && AllStorable(u.fields, depth)
    ensures GroupStorable(u, i, depth)
    decreases |u.fields| - i
  {
    hide Storable;
    if i < |u.fields| { GroupOfStorable(u, i + 1, depth); }
  }

  lemma TagOfSkipped(tag: nat)
    requires tag < TWO32
    ensures NumberOf(tag) <= MAX_FIELD_NUMBER && (tag != 0 && TypeOf(tag) == Varint ==> NumberOf(tag) != 0)
  {
  }

  ghost predicate StoredField(u: Unknown, tag: nat, depth: nat) {
    Storable(u, depth) && u.number == NumberOf(tag) && WireTypeOf(u) == TypeOf(tag)
  }

  /** What SkipField stores for a tag it was given. */
  ghost predicate Stored(s: Skipped, tag: nat, depth: nat) {
    s.ok ==> |s.fields| == 1 && StoredField(s.fields[0], tag, depth)
  }

  lemma {:induction false} SkipStores(data: Bytes, tag: nat, depth: nat)
    requires 0 < tag < TWO32
    ensures Stored(SkipField(data, tag, depth), tag, depth)
    decreases |data|, 1
  {
    hide ReadVarint, ReadFixed, GroupStorable;
    TagOfSkipped(tag);
    match TypeOf(tag)
    case Varint =>
    case Fixed64 => Pow256Known(); ReadFixedBound(data, 8);
    case Delimited =>
    case StartGroup =>
      if depth < RECURSION_LIMIT {
        SkipMessageStores(data, depth + 1, []);
        var g := SkipMessage(data, depth + 1, []);
        if g.ok { GroupOfStorable(UGroup(NumberOf(tag), g.fields), 0, depth + 1); }
      }
    case EndGroup =>
    case Fixed32 => Pow256Known(); ReadFixedBound(data, 4);
    case Invalid =>
  }

  lemma {:induction false} SkipMessageStores(data: Bytes, depth: nat, fields: seq<Unknown>)
    requires AllStorable(fields, depth)
    ensures SkipMessage(data, depth, fields).ok ==> AllStorable(SkipMessage(data, depth, fields).fields, depth)
    decreases |data|, 0
  {
    hide SkipField, ReadTag, Storable;
    var t := ReadTag(data);
    if t.tag != 0 && TypeOf(t.tag) != EndGroup {
      SkipStores(t.rest, t.tag, depth);
      var s := SkipField(t.rest, t.tag, depth);
      if s.ok { SkipMessageStores(s.rest, depth, fields + s.fields); }
    }
  }

  // ---------- phone numbers ----------

  ghost predicate PhoneStepOk(s: Step<Phone>, depth: nat) {
    match s
    case More(m, _) => PhoneOk(m, depth)
    case Stop(ok, m) => ok ==> PhoneOk(m, depth)
  }

  lemma PhoneFieldStores(m: Phone, tag: nat, data: Bytes, depth: nat)
    requires PhoneOk(m, depth) && 0 < tag < TWO32
    ensures PhoneStepOk(PhoneField(m, tag, data, depth), depth)
  {
    hide SkipField, ReadVarint32, Storable;
    if NumberOf(tag) == 2 && TypeOf(tag) == Varint {
      if ReadVarint32(data).Some? { KeptEnumStorable(ReadVarint32(data).value.0, depth); }
    } else if !(NumberOf(tag) == 1 && TypeOf(tag) == Delimited) && TypeOf(tag) != EndGroup {
      SkipStores(data, tag, depth);
    }
  }

  lemma KeptEnumStorable(v: nat, depth: nat)
    requires v < TWO32
    ensures var w := Signed32(v); !PhoneTypeIsValid(w) ==> PhoneUnknown(UVarint(2, SignExtended(w)), depth)
  {
    SignedResidue(Signed32(v));
  }

  /** Every phone number the parser delivers can be written and read back. */
  lemma {:induction false} ParsePhoneStores(m: Phone, data: Bytes, depth: nat)
    requires PhoneOk(m, depth)
    ensures var r := ParsePhone(m, data, depth); r.ok ==> PhoneOk(r.msg, depth)
    decreases |data|
  {
    hide PhoneField, ReadTag, PhoneOk;
    var t := ReadTag(data);
    if t.tag != 0 {
      PhoneFieldStores(m, t.tag, t.rest, depth);
      match PhoneField(m, t.tag, t.rest, depth)
      case More(m', rest) => ParsePhoneStores(m', rest, depth);
      case Stop(ok, m') =>
    }
  }

  // ---------- persons ----------

  ghost predicate PersonStepOk(s: Step<Person>, depth: nat) {
    match s
    case More(m, _) => PersonOk(m, depth)
    case Stop(ok, m) => ok ==> PersonOk(m, depth)
  }

  lemma PersonFieldStores(m: Person, tag: nat, data: Bytes, depth: nat)
    requires PersonOk(m, depth) && 0 < tag < TWO32 && |data| < HALF
    ensures PersonStepOk(PersonField(m, tag, data, depth), depth)
  {
    hide PhoneFieldOf, PersonOtherField, ReadVarint32, PhoneFits, PersonUnknown;
    if NumberOf(tag) == 4 && TypeOf(tag) == Delimited {
      PhoneFieldStoresToo(m, data, depth);
    } else if !(NumberOf(tag) == 2 && TypeOf(tag) == Varint) {
      OtherFieldStores(m, tag, data, depth);
    }
  }

  lemma OtherFieldStores(m: Person, tag: nat, data: Bytes, depth: nat)
    requires PersonOk(m, depth) && 0 < tag < TWO32
    requires !(NumberOf(tag) == 2 && TypeOf(tag) == Varint)
    ensures !(TypeOf(tag) == Delimited && (NumberOf(tag) == 1 || NumberOf(tag) == 3 || NumberOf(tag) == 4)) ==>
      PersonStepOk(PersonOtherField(m, tag, data, depth), depth)
  {
    hide SkipField, Storable, PhoneFits;
    SkipStores(data, tag, depth);
  }

  lemma PhoneFieldStoresToo(m: Person, data: Bytes, depth: nat)
    requires PersonOk(m, depth) && |data| < HALF
    ensures PersonStepOk(PhoneFieldOf(m, data, depth), depth)
  {
    hide ReadVarint32, ParsePhone, PersonUnknown, PhoneOk, PhoneBytes;
    if ReadVarint32(data).Some? {
      var (length, rest) := ReadVarint32(data).value;
      var n := if length <= |rest| then length else |rest|;
      EmptyPhone();
      EmptyPhoneOk(depth + 1);
      ParsePhoneStores(NO_PHONE, rest[..n], depth + 1);
      PhoneGrowth(NO_PHONE, rest[..n], depth + 1);
    }
  }

  lemma EmptyPhoneOk(depth: nat)
    ensures PhoneOk(NO_PHONE, depth)
  {
  }

  /** Whatever bytes are parsed, the message delivered is one the round trip holds for. */
  lemma {:induction false} ParsePersonStores(m: Person, data: Bytes, depth: nat)
    requires PersonOk(m, depth) && |data| < HALF
    ensures var r := ParsePerson(m, data, depth); r.ok ==> PersonOk(r.msg, depth)
    decreases |data|
  {
    hide PersonField, ReadTag, PersonOk;
    var t := ReadTag(data);
    if t.tag != 0 {
      PersonFieldStores(m, t.tag, t.rest, depth);
      match PersonField(m, t.tag, t.rest, depth)
      case More(m', rest) => ParsePersonStores(m', rest, depth);
      case Stop(ok, m') =>
    }
  }

  /** Whatever bytes were accepted, writing the message takes at most twice as many, and parsing those gives the same
      message again. */
  lemma ReencodingKeeps(data: Bytes)
    requires |data| < HALF && ParsePerson(NO_PERSON, data, 0).ok
    ensures var p := ParsePerson(NO_PERSON, data, 0).msg;
      |PersonBytes(p)| <= 2 * |data| && ParsePerson(NO_PERSON, PersonBytes(p), 0) == Parsed(true, p, true)
  {
    hide ParsePerson, PersonOk;
    EmptyPersonOk();
    ParsePersonStores(NO_PERSON, data, 0);
    PersonGrowth(NO_PERSON, data, 0);
    RoundTrip(ParsePerson(NO_PERSON, data, 0).msg);
  }

  lemma EmptyPersonOk()
    ensures PersonOk(NO_PERSON, 0) && PersonBytes(NO_PERSON) == []
  {
  }
}
