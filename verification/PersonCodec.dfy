/** The messages Person and Person.PhoneNumber as values: their encoding, the plain read-a-tag-and-dispatch parser,
    and merging. */
module PersonCodec {
  import opened Prelude
  import opened WireFormat

  /** A presence bit and its field together; an absent type reads as HOME. */
  datatype Phone = Phone(number: Option<Bytes>, phoneType: Option<int>, unknown: seq<Unknown>)

  datatype Person = Person(name: Option<Bytes>, id: Option<int>, email: Option<Bytes>, phones: seq<Phone>, unknown: seq<Unknown>)

  const NO_PHONE: Phone := Phone(None, None, [])
  const NO_PERSON: Person := Person(None, None, None, [], [])

  predicate PhoneTypeIsValid(v: int) { 0 <= v <= 2 }

  function OrEmpty(s: Option<Bytes>): Bytes { if s.Some? then s.value else [] }

  // ---------- the plain parser ----------

  /** The outcome of one field: go on behind it, or stop, successfully at an end-group tag only. */
  datatype Step<M> = More(msg: M, rest: Bytes) | Stop(ok: bool, msg: M)

  /** The outcome of a message; atEnd tells whether it ended where the data did. */
  datatype Parsed<M> = Parsed(ok: bool, msg: M, atEnd: bool)

  function PhoneNumberField(m: Phone, data: Bytes): Step<Phone> {
    var s := ReadString(data, OrEmpty(m.number));
    var m' := m.(number := Some(s.value));
    if s.ok then More(m', s.rest) else Stop(false, m')
  }

  /** A value that is no PhoneType is kept as an unknown varint. */
  function PhoneTypeField(m: Phone, data: Bytes): Step<Phone> {
    match ReadVarint32(data)
    case None => Stop(false, m)
    case Some((v, rest)) =>
      if PhoneTypeIsValid(Signed32(v)) then More(m.(phoneType := Some(Signed32(v))), rest)
      else More(m.(unknown := m.unknown + [UVarint(2, SignExtended(Signed32(v)))]), rest)
  }

  function PhoneOtherField(m: Phone, tag: nat, data: Bytes, depth: nat): Step<Phone> {
    if TypeOf(tag) == EndGroup then Stop(true, m)
    else
      var s := SkipField(data, tag, depth);
      var m' := m.(unknown := m.unknown + s.fields);
      if s.ok then More(m', s.rest) else Stop(false, m')
  }

  function PhoneField(m: Phone, tag: nat, data: Bytes, depth: nat): (s: Step<Phone>)
    ensures s.More? ==> |s.rest| <= |data|
  {
    if NumberOf(tag) == 1 && TypeOf(tag) == Delimited then PhoneNumberField(m, data)
    else if NumberOf(tag) == 2 && TypeOf(tag) == Varint then PhoneTypeField(m, data)
    else PhoneOtherField(m, tag, data, depth)
  }

  function ParsePhone(m: Phone, data: Bytes, depth: nat): Parsed<Phone>
    decreases |data|
  {
    var t := ReadTag(data);
    if t.tag == 0 then Parsed(true, m, t.atEnd)
    else match PhoneField(m, t.tag, t.rest, depth)
      case More(m', rest) => ParsePhone(m', rest, depth)
      case Stop(ok, m') => Parsed(ok, m', false)
  }

  function NameField(m: Person, data: Bytes): Step<Person> {
    var s := ReadString(data, OrEmpty(m.name));
    var m' := m.(name := Some(s.value));
    if s.ok then More(m', s.rest) else Stop(false, m')
  }

  function IdField(m: Person, data: Bytes): Step<Person> {
    match ReadVarint32(data)
    case None => Stop(false, m)
    case Some((v, rest)) => More(m.(id := Some(Signed32(v))), rest)
  }

  function EmailField(m: Person, data: Bytes): Step<Person> {
    var s := ReadString(data, OrEmpty(m.email));
    var m' := m.(email := Some(s.value));
    if s.ok then More(m', s.rest) else Stop(false, m')
  }

  function AddPhone(m: Person, p: Phone): Person { m.(phones := m.phones + [p]) }

  /** ReadMessage: the length sets a limit, which never reaches beyond the limit already in force. */
  function PhoneFieldOf(m: Person, data: Bytes, depth: nat): Step<Person> {
    match ReadVarint32(data)
    case None => Stop(false, AddPhone(m, NO_PHONE))
    case Some((length, rest)) =>
      if depth >= RECURSION_LIMIT then Stop(false, AddPhone(m, NO_PHONE))
      else
        var n := if length <= |rest| then length else |rest|;
        var p := ParsePhone(NO_PHONE, rest[..n], depth + 1);
        if p.ok && p.atEnd then More(AddPhone(m, p.msg), rest[n..]) else Stop(false, AddPhone(m, p.msg))
  }

  function PersonOtherField(m: Person, tag: nat, data: Bytes, depth: nat): Step<Person> {
    if TypeOf(tag) == EndGroup then Stop(true, m)
    else
      var s := SkipField(data, tag, depth);
      var m' := m.(unknown := m.unknown + s.fields);
      if s.ok then More(m', s.rest) else Stop(false, m')
  }

  function PersonField(m: Person, tag: nat, data: Bytes, depth: nat): (s: Step<Person>)
    ensures s.More? ==> |s.rest| <= |data|
  {
    if NumberOf(tag) == 1 && TypeOf(tag) == Delimited then NameField(m, data)
    else if NumberOf(tag) == 2 && TypeOf(tag) == Varint then IdField(m, data)
    else if NumberOf(tag) == 3 && TypeOf(tag) == Delimited then EmailField(m, data)
    else if NumberOf(tag) == 4 && TypeOf(tag) == Delimited then PhoneFieldOf(m, data, depth)
    else PersonOtherField(m, tag, data, depth)
  }

  function ParsePerson(m: Person, data: Bytes, depth: nat): Parsed<Person>
    decreases |data|
  {
    var t := ReadTag(data);
    if t.tag == 0 then Parsed(true, m, t.atEnd)
    else match PersonField(m, t.tag, t.rest, depth)
      case More(m', rest) => ParsePerson(m', rest, depth)
      case Stop(ok, m') => Parsed(ok, m', false)
  }

  // ---------- encoding ----------

  function StringField(number: nat, s: Option<Bytes>): Bytes {
    if s.None? then [] else TagBytes(number, Delimited) + StringBytes(s.value)
  }

  function IntField(number: nat, v: Option<int>): Bytes {
    if v.None? then [] else TagBytes(number, Varint) + VarintBytes(SignExtended(v.value))
  }

  function PhoneBytes(p: Phone): Bytes {
    StringField(1, p.number) + (IntField(2, p.phoneType) + UnknownsBytes(p.unknown))
  }

  function PhonesBytes(phones: seq<Phone>): Bytes {
    if phones == [] then []
    else (TagBytes(4, Delimited) + StringBytes(PhoneBytes(phones[0]))) + PhonesBytes(phones[1..])
  }

  function PersonBytes(p: Person): Bytes {
    StringField(1, p.name) + (IntField(2, p.id) + (StringField(3, p.email) + (PhonesBytes(p.phones) + UnknownsBytes(p.unknown))))
  }

  // ---------- merging ----------

  function Later<T>(a: Option<T>, b: Option<T>): Option<T> { if b.Some? then b else a }

  function MergePhone(a: Phone, b: Phone): Phone {
    Phone(Later(a.number, b.number), Later(a.phoneType, b.phoneType), a.unknown + b.unknown)
  }

  function MergePerson(a: Person, b: Person): Person {
    Person(Later(a.name, b.name), Later(a.id, b.id), Later(a.email, b.email), a.phones + b.phones, a.unknown + b.unknown)
  }

  // ---------- which messages can be written ----------

  predicate StringFits(s: Option<Bytes>) { s.Some? ==> |s.value| < TWO31 }

  /** The 64-bit value under which the parser keeps an invalid PhoneType. */
  predicate KeptEnum(v: nat)
    requires v < TWO64
  {
    var w := Signed32(v % TWO32);
    !PhoneTypeIsValid(w) && v == SignExtended(w)
  }

  /** The shape of an unknown field of a phone number as the parser stores it. */
  predicate PhoneUnknown(u: Unknown, depth: nat) {
    Storable(u, depth) && !(u.UDelimited? && u.number == 1) && (u.UVarint? && u.number == 2 ==> KeptEnum(u.value))
  }

  predicate PersonUnknown(u: Unknown, depth: nat) {
    Storable(u, depth) && !(u.UDelimited? && (u.number == 1 || u.number == 3 || u.number == 4)) && !(u.UVarint? && u.number == 2)
  }

  predicate PhoneOk(p: Phone, depth: nat) {
    && StringFits(p.number) && (p.phoneType.Some? ==> PhoneTypeIsValid(p.phoneType.value))
    && forall i :: 0 <= i < |p.unknown| ==> PhoneUnknown(p.unknown[i], depth)
  }

  /** A phone number fits a length-delimited field. */
  predicate PhoneFits(p: Phone, depth: nat) { PhoneOk(p, depth) && |PhoneBytes(p)| < TWO31 }

  predicate PhonesFit(phones: seq<Phone>, depth: nat) {
    forall i :: 0 <= i < |phones| ==> PhoneFits(phones[i], depth)
  }

  predicate PersonOk(p: Person, depth: nat) {
    && StringFits(p.name) && StringFits(p.email) && (p.id.Some? ==> IsInt32(p.id.value))
    && depth < RECURSION_LIMIT && PhonesFit(p.phones, depth + 1)
    && forall i :: 0 <= i < |p.unknown| ==> PersonUnknown(p.unknown[i], depth)
  }

  // ---------- parsing what was written, onto any message ----------

  lemma PhoneTag(m: Phone, number: nat, t: WireType, data: Bytes, depth: nat)
    requires t != Invalid && number <= MAX_FIELD_NUMBER && !(number == 0 && t == Varint)
    ensures ParsePhone(m, TagBytes(number, t) + data, depth) ==
      match PhoneField(m, MakeTag(number, t), data, depth)
      case More(m', rest) => ParsePhone(m', rest, depth)
      case Stop(ok, m') => Parsed(ok, m', false)
  {
    hide TagBytes, ReadTag, PhoneField, MakeTag;
    ReadTagWritten(number, t, data);
  }

  lemma NumberOnto(m: Phone, s: Option<Bytes>, rest: Bytes, depth: nat)
    requires StringFits(s)
    ensures ParsePhone(m, StringField(1, s) + rest, depth) == ParsePhone(m.(number := Later(m.number, s)), rest, depth)
  {
    hide ParsePhone, TagBytes, StringBytes, ReadString, MakeTag;
    if s.Some? {
      Assoc(TagBytes(1, Delimited), StringBytes(s.value), rest);
      PhoneTag(m, 1, Delimited, StringBytes(s.value) + rest, depth);
      TagParts(1, Delimited);
      ReadStringWritten(s.value, OrEmpty(m.number), rest);
    } else {
      assert StringField(1, s) + rest == rest;
    }
  }

  lemma TypeOnto(m: Phone, v: Option<int>, rest: Bytes, depth: nat)
    requires v.Some? ==> PhoneTypeIsValid(v.value)
    ensures ParsePhone(m, IntField(2, v) + rest, depth) == ParsePhone(m.(phoneType := Later(m.phoneType, v)), rest, depth)
  {
    hide ParsePhone, TagBytes, VarintBytes, ReadVarint32, MakeTag;
    if v.Some? {
      Assoc(TagBytes(2, Varint), VarintBytes(SignExtended(v.value)), rest);
      PhoneTag(m, 2, Varint, VarintBytes(SignExtended(v.value)) + rest, depth);
      TagParts(2, Varint);
      ReadSigned32(v.value, rest);
    } else {
      assert IntField(2, v) + rest == rest;
    }
  }

  lemma PhoneUnknownOnto(m: Phone, u: Unknown, rest: Bytes, depth: nat)
    requires PhoneUnknown(u, depth)
    ensures ParsePhone(m, UnknownBytes(u) + rest, depth) == ParsePhone(m.(unknown := m.unknown + [u]), rest, depth)
  {
    hide ParsePhone, TagBytes, SkipField, BodyBytes, MakeTag;
    var t := WireTypeOf(u);
    Assoc(TagBytes(u.number, t), BodyBytes(u), rest);
    PhoneTag(m, u.number, t, BodyBytes(u) + rest, depth);
    TagParts(u.number, t);
    if u.UVarint? && u.number == 2 {
      KeptEnumOnto(m, u, rest);
    } else {
      SkipWritten(u, depth, rest);
    }
  }

  lemma KeptEnumOnto(m: Phone, u: Unknown, rest: Bytes)
    requires u.UVarint? && u.number == 2 && u.value < TWO64 && KeptEnum(u.value)
    ensures PhoneTypeField(m, BodyBytes(u) + rest) == More(m.(unknown := m.unknown + [u]), rest)
  {
    hide VarintBytes, ReadVarint32;
    ReadSigned32(Signed32(u.value % TWO32), rest);
  }

  lemma {:induction false} PhoneUnknownsOnto(m: Phone, us: seq<Unknown>, rest: Bytes, depth: nat)
    requires forall i :: 0 <= i < |us| ==> PhoneUnknown(us[i], depth)
    ensures ParsePhone(m, UnknownsBytes(us) + rest, depth) == ParsePhone(m.(unknown := m.unknown + us), rest, depth)
    decreases us
  {
    hide ParsePhone, UnknownBytes, PhoneUnknown;
    if us == [] {
      assert UnknownsBytes(us) + rest == rest && m.unknown + us == m.unknown;
    } else {
      Assoc(UnknownBytes(us[0]), UnknownsBytes(us[1..]), rest);
      PhoneUnknownOnto(m, us[0], UnknownsBytes(us[1..]) + rest, depth);
      PhoneUnknownsOnto(m.(unknown := m.unknown + [us[0]]), us[1..], rest, depth);
      assert m.unknown + [us[0]] + us[1..] == m.unknown + us;
    }
  }

  /** Parsing the encoding of b on top of m is merging b into m. */
  lemma PhoneOnto(m: Phone, b: Phone, rest: Bytes, depth: nat)
    requires PhoneOk(b, depth)
    ensures ParsePhone(m, PhoneBytes(b) + rest, depth) == ParsePhone(MergePhone(m, b), rest, depth)
  {
    hide ParsePhone, StringField, IntField, UnknownsBytes, PhoneUnknown;
    var s, t, us := StringField(1, b.number), IntField(2, b.phoneType), UnknownsBytes(b.unknown);
    Assoc(s, t + us, rest);
    Assoc(t, us, rest);
    NumberOnto(m, b.number, t + (us + rest), depth);
    var m1 := m.(number := Later(m.number, b.number));
    TypeOnto(m1, b.phoneType, us + rest, depth);
    PhoneUnknownsOnto(m1.(phoneType := Later(m.phoneType, b.phoneType)), b.unknown, rest, depth);
  }

  lemma PhoneDone(m: Phone, depth: nat)
    ensures ParsePhone(m, [], depth) == Parsed(true, m, true)
  {
  }

  lemma PhoneRoundTrip(p: Phone, depth: nat)
    requires PhoneOk(p, depth)
    ensures ParsePhone(NO_PHONE, PhoneBytes(p), depth) == Parsed(true, p, true)
  {
    hide ParsePhone, PhoneBytes, PhoneOk;
    assert PhoneBytes(p) + [] == PhoneBytes(p);
    PhoneOnto(NO_PHONE, p, [], depth);
    PhoneDone(p, depth);
    assert MergePhone(NO_PHONE, p) == p;
  }

  lemma PersonTag(m: Person, number: nat, t: WireType, data: Bytes, depth: nat)
    requires t != Invalid && number <= MAX_FIELD_NUMBER && !(number == 0 && t == Varint)
    ensures ParsePerson(m, TagBytes(number, t) + data, depth) ==
      match PersonField(m, MakeTag(number, t), data, depth)
      case More(m', rest) => ParsePerson(m', rest, depth)
      case Stop(ok, m') => Parsed(ok, m', false)
  {
    hide TagBytes, ReadTag, PersonField, MakeTag;
    ReadTagWritten(number, t, data);
  }

  lemma NameOnto(m: Person, s: Option<Bytes>, rest: Bytes, depth: nat)
    requires StringFits(s)
    ensures ParsePerson(m, StringField(1, s) + rest, depth) == ParsePerson(m.(name := Later(m.name, s)), rest, depth)
  {
    hide ParsePerson, TagBytes, StringBytes, ReadString, MakeTag;
    if s.Some? {
      Assoc(TagBytes(1, Delimited), StringBytes(s.value), rest);
      PersonTag(m, 1, Delimited, StringBytes(s.value) + rest, depth);
      TagParts(1, Delimited);
      ReadStringWritten(s.value, OrEmpty(m.name), rest);
    } else {
      assert StringField(1, s) + rest == rest;
    }
  }

  lemma IdOnto(m: Person, v: Option<int>, rest: Bytes, depth: nat)
    requires v.Some? ==> IsInt32(v.value)
    ensures ParsePerson(m, IntField(2, v) + rest, depth) == ParsePerson(m.(id := Later(m.id, v)), rest, depth)
  {
    hide ParsePerson, TagBytes, VarintBytes, ReadVarint32, MakeTag;
    if v.Some? {
      Assoc(TagBytes(2, Varint), VarintBytes(SignExtended(v.value)), rest);
      PersonTag(m, 2, Varint, VarintBytes(SignExtended(v.value)) + rest, depth);
      TagParts(2, Varint);
      ReadSigned32(v.value, rest);
    } else {
      assert IntField(2, v) + rest == rest;
    }
  }

  lemma EmailOnto(m: Person, s: Option<Bytes>, rest: Bytes, depth: nat)
    requires StringFits(s)
    ensures ParsePerson(m, StringField(3, s) + rest, depth) == ParsePerson(m.(email := Later(m.email, s)), rest, depth)
  {
    hide ParsePerson, TagBytes, StringBytes, ReadString, MakeTag;
    if s.Some? {
      Assoc(TagBytes(3, Delimited), StringBytes(s.value), rest);
      PersonTag(m, 3, Delimited, StringBytes(s.value) + rest, depth);
      TagParts(3, Delimited);
      ReadStringWritten(s.value, OrEmpty(m.email), rest);
    } else {
      assert StringField(3, s) + rest == rest;
    }
  }

  lemma OnePhoneOnto(m: Person, p: Phone, rest: Bytes, depth: nat)
    requires PhoneFits(p, depth + 1) && depth < RECURSION_LIMIT
    ensures ParsePerson(m, (TagBytes(4, Delimited) + StringBytes(PhoneBytes(p))) + rest, depth) == ParsePerson(AddPhone(m, p), rest, depth)
  {
    hide ParsePerson, TagBytes, PhoneBytes, ReadVarint32, VarintBytes, MakeTag, ParsePhone, PhoneOk;
    var body := PhoneBytes(p);
    Assoc(TagBytes(4, Delimited), StringBytes(body), rest);
    PersonTag(m, 4, Delimited, StringBytes(body) + rest, depth);
    TagParts(4, Delimited);
    Assoc(VarintBytes(|body|), body, rest);
    ReadVarint32Written(|body|, body + rest);
    assert (body + rest)[..|body|] == body && (body + rest)[|body|..] == rest;
    PhoneRoundTrip(p, depth + 1);
  }

  lemma {:induction false} PhonesOnto(m: Person, phones: seq<Phone>, rest: Bytes, depth: nat)
    requires PhonesFit(phones, depth + 1) && depth < RECURSION_LIMIT
    ensures ParsePerson(m, PhonesBytes(phones) + rest, depth) == ParsePerson(m.(phones := m.phones + phones), rest, depth)
    decreases phones
  {
    hide ParsePerson, TagBytes, PhoneBytes, StringBytes;
    if phones == [] {
      assert PhonesBytes(phones) + rest == rest && m.phones + phones == m.phones;
    } else {
      var first := TagBytes(4, Delimited) + StringBytes(PhoneBytes(phones[0]));
      Assoc(first, PhonesBytes(phones[1..]), rest);
      OnePhoneOnto(m, phones[0], PhonesBytes(phones[1..]) + rest, depth);
      PhonesOnto(AddPhone(m, phones[0]), phones[1..], rest, depth);
      assert m.phones + [phones[0]] + phones[1..] == m.phones + phones;
    }
  }

  lemma PersonUnknownOnto(m: Person, u: Unknown, rest: Bytes, depth: nat)
    requires PersonUnknown(u, depth)
    ensures ParsePerson(m, UnknownBytes(u) + rest, depth) == ParsePerson(m.(unknown := m.unknown + [u]), rest, depth)
  {
    hide ParsePerson, TagBytes, SkipField, BodyBytes, MakeTag;
    var t := WireTypeOf(u);
    Assoc(TagBytes(u.number, t), BodyBytes(u), rest);
    PersonTag(m, u.number, t, BodyBytes(u) + rest, depth);
    TagParts(u.number, t);
    SkipWritten(u, depth, rest);
  }

  lemma {:induction false} PersonUnknownsOnto(m: Person, us: seq<Unknown>, rest: Bytes, depth: nat)
    requires forall i :: 0 <= i < |us| ==> PersonUnknown(us[i], depth)
    ensures ParsePerson(m, UnknownsBytes(us) + rest, depth) == ParsePerson(m.(unknown := m.unknown + us), rest, depth)
    decreases us
  {
    hide ParsePerson, UnknownBytes, PersonUnknown;
    if us == [] {
      assert UnknownsBytes(us) + rest == rest && m.unknown + us == m.unknown;
    } else {
      Assoc(UnknownBytes(us[0]), UnknownsBytes(us[1..]), rest);
      PersonUnknownOnto(m, us[0], UnknownsBytes(us[1..]) + rest, depth);
      PersonUnknownsOnto(m.(unknown := m.unknown + [us[0]]), us[1..], rest, depth);
      assert m.unknown + [us[0]] + us[1..] == m.unknown + us;
    }
  }

  /** Parsing the encoding of b on top of m is merging b into m: presence, last value wins, phones and unknown fields
      appended. */
  lemma PersonOnto(m: Person, b: Person, rest: Bytes, depth: nat)
    requires PersonOk(b, depth)
    ensures ParsePerson(m, PersonBytes(b) + rest, depth) == ParsePerson(MergePerson(m, b), rest, depth)
  {
    hide ParsePerson, StringField, IntField, UnknownsBytes, PhonesBytes, PersonUnknown, PhoneFits;
    var s, t, e := StringField(1, b.name), IntField(2, b.id), StringField(3, b.email);
    var ps, us := PhonesBytes(b.phones), UnknownsBytes(b.unknown);
    Assoc(s, t + (e + (ps + us)), rest);
    Assoc(t, e + (ps + us), rest);
    Assoc(e, ps + us, rest);
    Assoc(ps, us, rest);
    NameOnto(m, b.name, t + (e + (ps + (us + rest))), depth);
    var m1 := m.(name := Later(m.name, b.name));
    IdOnto(m1, b.id, e + (ps + (us + rest)), depth);
    var m2 := m1.(id := Later(m.id, b.id));
    EmailOnto(m2, b.email, ps + (us + rest), depth);
    var m3 := m2.(email := Later(m.email, b.email));
    PhonesOnto(m3, b.phones, us + rest, depth);
    PersonUnknownsOnto(m3.(phones := m.phones + b.phones), b.unknown, rest, depth);
  }

  lemma PersonDone(m: Person, depth: nat)
    ensures ParsePerson(m, [], depth) == Parsed(true, m, true)
  {
  }

  /** Every message the parser can store is recovered from its encoding. */
  lemma RoundTrip(p: Person)
    requires PersonOk(p, 0)
    ensures ParsePerson(NO_PERSON, PersonBytes(p), 0) == Parsed(true, p, true)
  {
    hide ParsePerson, PersonBytes, PersonOk;
    assert PersonBytes(p) + [] == PersonBytes(p);
    PersonOnto(NO_PERSON, p, [], 0);
    PersonDone(p, 0);
    assert MergePerson(NO_PERSON, p) == p;
  }

  /** Two encodings one behind the other parse as the merged message. */
  lemma ConcatenationMerges(a: Person, b: Person)
    requires PersonOk(a, 0) && PersonOk(b, 0)
    ensures ParsePerson(NO_PERSON, PersonBytes(a) + PersonBytes(b), 0) == Parsed(true, MergePerson(a, b), true)
  {
    hide ParsePerson, PersonBytes, PersonOk;
    PersonOnto(NO_PERSON, a, PersonBytes(b), 0);
    assert MergePerson(NO_PERSON, a) == a;
    assert PersonBytes(b) + [] == PersonBytes(b);
    PersonOnto(a, b, [], 0);
    PersonDone(MergePerson(a, b), 0);
  }

  // ---------- sizes ----------

  function StringFieldSize(s: Option<Bytes>): nat {
    if s.None? then 0 else 1 + VarintSize(|s.value|) + |s.value|
  }

  /** VarintSize32SignExtended behind a one-byte tag. */
  function IntFieldSize(v: Option<int>): nat {
    if v.None? then 0 else if v.value < 0 then 1 + 10 else 1 + VarintSize(v.value)
  }

  function UnknownsSize(us: seq<Unknown>): nat {
    if us == [] then 0 else UnknownSize(us[0]) + UnknownsSize(us[1..])
  }

  /** ByteSize of a phone number. */
  function PhoneSize(p: Phone): nat {
    StringFieldSize(p.number) + IntFieldSize(p.phoneType) + UnknownsSize(p.unknown)
  }

  function PhonesSize(phones: seq<Phone>): nat {
    if phones == [] then 0 else 1 + VarintSize(PhoneSize(phones[0])) + PhoneSize(phones[0]) + PhonesSize(phones[1..])
  }

  /** ByteSize of a person. */
  function PersonSize(p: Person): nat {
    StringFieldSize(p.name) + IntFieldSize(p.id) + StringFieldSize(p.email) + PhonesSize(p.phones) + UnknownsSize(p.unknown)
  }

  lemma StringFieldLength(number: nat, s: Option<Bytes>)
    requires number < 16 && StringFits(s)
    ensures |StringField(number, s)| == StringFieldSize(s)
  {
    hide VarintBytes, VarintSize;
    if s.Some? {
      OneByteTag(number, Delimited);
      VarintSizeIsLength(|s.value|);
    }
  }

  lemma OneByteTag(number: nat, t: WireType)
    requires number < 16 && t != Invalid
    ensures |TagBytes(number, t)| == 1
  {
  }

  lemma IntFieldLength(number: nat, v: Option<int>)
    requires number < 16 && (v.Some? ==> IsInt32(v.value))
    ensures |IntField(number, v)| == IntFieldSize(v)
  {
    hide VarintBytes;
    if v.Some? {
      OneByteTag(number, Varint);
      VarintSizeIsLength(SignExtended(v.value));
      SignedResidue(v.value);
    }
  }

  lemma {:induction false} UnknownsLength(us: seq<Unknown>, depth: nat)
    requires forall i :: 0 <= i < |us| ==> Storable(us[i], depth)
    ensures |UnknownsBytes(us)| == UnknownsSize(us)
  {
    hide UnknownBytes, UnknownSize, Storable;
    if us != [] {
      UnknownSizeIsLength(us[0], depth);
      UnknownsLength(us[1..], depth);
    }
  }

  lemma PhoneLength(p: Phone, depth: nat)
    requires PhoneOk(p, depth)
    ensures |PhoneBytes(p)| == PhoneSize(p)
  {
    hide StringField, IntField, UnknownsBytes, Storable, UnknownsSize;
    StringFieldLength(1, p.number);
    IntFieldLength(2, p.phoneType);
    forall i | 0 <= i < |p.unknown| ensures Storable(p.unknown[i], depth) { assert PhoneUnknown(p.unknown[i], depth); }
    UnknownsLength(p.unknown, depth);
  }

  lemma {:induction false} PhonesLength(phones: seq<Phone>, depth: nat)
    requires PhonesFit(phones, depth)
    ensures |PhonesBytes(phones)| == PhonesSize(phones)
  {
    hide PhoneBytes, PhoneSize, VarintBytes, VarintSize, PhoneOk;
    if phones != [] {
      assert PhoneFits(phones[0], depth);
      PhoneLength(phones[0], depth);
      OneByteTag(4, Delimited);
      VarintSizeIsLength(PhoneSize(phones[0]));
      PhonesLength(phones[1..], depth);
    }
  }

  /** ByteSize is the number of bytes written. */
  lemma PersonLength(p: Person, depth: nat)
    requires PersonOk(p, depth)
    ensures |PersonBytes(p)| == PersonSize(p)
  {
    hide StringField, IntField, UnknownsBytes, Storable, UnknownsSize, PhonesBytes, PhonesSize;
    StringFieldLength(1, p.name);
    IntFieldLength(2, p.id);
    StringFieldLength(3, p.email);
    PhonesLength(p.phones, depth + 1);
    forall i | 0 <= i < |p.unknown| ensures Storable(p.unknown[i], depth) { assert PersonUnknown(p.unknown[i], depth); }
    UnknownsLength(p.unknown, depth);
  }

  // ---------- cached sizes ----------

  /** The phones as SerializeWithCachedSizes writes them: the length in front of each body is the size cached earlier. */
  function PhonesBytesWith(phones: seq<Phone>, sizes: seq<nat>): Bytes
    requires |sizes| == |phones|
  {
    if phones == [] then []
    else (TagBytes(4, Delimited) + (VarintBytes(sizes[0]) + PhoneBytes(phones[0]))) + PhonesBytesWith(phones[1..], sizes[1..])
  }

  function PersonBytesWith(p: Person, sizes: seq<nat>): Bytes
    requires |sizes| == |p.phones|
  {
    StringField(1, p.name) + (IntField(2, p.id) + (StringField(3, p.email) + (PhonesBytesWith(p.phones, sizes) + UnknownsBytes(p.unknown))))
  }

  predicate SizesMatch(phones: seq<Phone>, sizes: seq<nat>)
    requires |sizes| == |phones|
  {
    forall i :: 0 <= i < |phones| ==> sizes[i] == |PhoneBytes(phones[i])|
  }

  /** No varint is a prefix of another. */
  lemma {:induction false} VarintUnique(a: nat, b: nat, x: Bytes, y: Bytes)
    requires VarintBytes(a) + x == VarintBytes(b) + y
    ensures a == b && x == y
    decreases a
  {
    var s, t := VarintBytes(a) + x, VarintBytes(b) + y;
    assert s[0] == VarintBytes(a)[0] && t[0] == VarintBytes(b)[0];
    if a >= 128 {
      assert s[1..] == VarintBytes(a / 128) + x && t[1..] == VarintBytes(b / 128) + y;
      VarintUnique(a / 128, b / 128, x, y);
    } else {
      assert s[1..] == x && t[1..] == y;
    }
  }

  lemma CancelLeft(a: Bytes, x: Bytes, y: Bytes)
    requires a + x == a + y
    ensures x == y
  {
    assert (a + x)[|a|..] == x && (a + y)[|a|..] == y;
  }

  /** What the cached sizes decide: the output is the encoding exactly if every one of them is right. */
  lemma {:induction false} PhonesSizesDecide(phones: seq<Phone>, sizes: seq<nat>, x: Bytes)
    requires |sizes| == |phones|
    ensures PhonesBytesWith(phones, sizes) + x == PhonesBytes(phones) + x <==> SizesMatch(phones, sizes)
  {
    hide TagBytes, VarintBytes, PhoneBytes;
    if phones != [] {
      var t, b, v := TagBytes(4, Delimited), PhoneBytes(phones[0]), VarintBytes(sizes[0]);
      var w := VarintBytes(|b|);
      var with, without := PhonesBytesWith(phones[1..], sizes[1..]), PhonesBytes(phones[1..]);
      PhonesSizesDecide(phones[1..], sizes[1..], x);
      Reassociate(t, v, b, with, x);
      Reassociate(t, w, b, without, x);
      if PhonesBytesWith(phones, sizes) + x == PhonesBytes(phones) + x {
        CancelLeft(t, v + (b + (with + x)), w + (b + (without + x)));
        VarintUnique(sizes[0], |b|, b + (with + x), b + (without + x));
        CancelLeft(b, with + x, without + x);
      }
      MatchTail(phones, sizes);
    }
  }

  lemma Reassociate(t: Bytes, v: Bytes, b: Bytes, more: Bytes, x: Bytes)
    ensures ((t + (v + b)) + more) + x == t + (v + (b + (more + x)))
  {
  }

  lemma MatchTail(phones: seq<Phone>, sizes: seq<nat>)
    requires |sizes| == |phones| > 0
    ensures SizesMatch(phones, sizes) <==> sizes[0] == |PhoneBytes(phones[0])| && SizesMatch(phones[1..], sizes[1..])
  {
    hide PhoneBytes;
    if sizes[0] == |PhoneBytes(phones[0])| && SizesMatch(phones[1..], sizes[1..]) {
      forall i | 0 <= i < |phones| ensures sizes[i] == |PhoneBytes(phones[i])| {
        if i > 0 { assert sizes[1..][i - 1] == |PhoneBytes(phones[1..][i - 1])|; }
      }
    }
  }

  lemma CachedSizesDecide(p: Person, sizes: seq<nat>)
    requires |sizes| == |p.phones|
    ensures PersonBytesWith(p, sizes) == PersonBytes(p) <==> SizesMatch(p.phones, sizes)
  {
    hide StringField, IntField, UnknownsBytes, PhonesBytes, PhonesBytesWith, SizesMatch;
    var us := UnknownsBytes(p.unknown);
    PhonesSizesDecide(p.phones, sizes, us);
    var s, t, e := StringField(1, p.name), IntField(2, p.id), StringField(3, p.email);
    var with, without := PhonesBytesWith(p.phones, sizes) + us, PhonesBytes(p.phones) + us;
    if PersonBytesWith(p, sizes) == PersonBytes(p) {
      CancelLeft(s, t + (e + with), t + (e + without));
      CancelLeft(t, e + with, e + without);
      CancelLeft(e, with, without);
    }
  }
}
