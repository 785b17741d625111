/** Person as generated: its own fields, and phone numbers held as objects of their own. */
module PersonMessage {
  import opened Prelude
  import opened WireFormat
  import opened PersonCodec
  import opened CodedStream
  import opened HasBits
  import opened PhoneMessage

  /** The parser once the outcome of a field is known. */
  function PersonOnward(s: Step<Person>, depth: nat): Parsed<Person> {
    match s
    case More(m, rest) => ParsePerson(m, rest, depth)
    case Stop(ok, m) => Parsed(ok, m, false)
  }

  lemma PersonNextTag(m: Person, data: Bytes, depth: nat)
    ensures var t := ReadTag(data);
      ParsePerson(m, data, depth) ==
        if t.tag == 0 then Parsed(true, m, t.atEnd) else PersonOnward(PersonField(m, t.tag, t.rest, depth), depth)
  {
    hide ReadTag, PersonField;
  }

  /** The values of a list of phone numbers. */
  function Values(phones: seq<PhoneNumber>): (v: seq<Phone>)
    reads phones`hasBits, phones`number, phones`phoneType, phones`unknownFields
    ensures |v| == |phones|
  {
    if phones == [] then [] else Values(phones[..|phones| - 1]) + [phones[|phones| - 1].Value()]
  }

  /** The sizes they have cached. */
  function CachedSizes(phones: seq<PhoneNumber>): (sizes: seq<nat>)
    reads phones`cachedSize
    ensures |sizes| == |phones|
  {
    if phones == [] then [] else CachedSizes(phones[..|phones| - 1]) + [phones[|phones| - 1].cachedSize]
  }

  lemma {:induction false} CachedAt(phones: seq<PhoneNumber>, i: nat)
    requires i < |phones|
    ensures CachedSizes(phones)[i] == phones[i].cachedSize
  {
    if i < |phones| - 1 { CachedAt(phones[..|phones| - 1], i); }
  }

  ghost predicate PhonesValid(phones: seq<PhoneNumber>)
    reads phones`hasBits, phones`number, phones`phoneType
  {
    && (forall i :: 0 <= i < |phones| ==> phones[i].Valid())
    && (forall i, j :: 0 <= i < j < |phones| ==> phones[i] != phones[j])
  }

  lemma {:induction false} ValueAt(phones: seq<PhoneNumber>, i: nat)
    requires i < |phones|
    ensures Values(phones)[i] == phones[i].Value()
  {
    if i < |phones| - 1 { ValueAt(phones[..|phones| - 1], i); }
  }

  /** Which phone number is read does not depend on the person it is added to. */
  lemma PhoneFieldOnto(m: Person, data: Bytes, depth: nat)
    ensures match PhoneFieldOf(NO_PERSON, data, depth)
      case More(q, rest) => |q.phones| == 1 && PhoneFieldOf(m, data, depth) == More(AddPhone(m, q.phones[0]), rest)
      case Stop(ok, q) => |q.phones| == 1 && PhoneFieldOf(m, data, depth) == Stop(ok, AddPhone(m, q.phones[0]))
  {
    hide ReadVarint32, ParsePhone;
  }

  lemma Appended(phones: seq<PhoneNumber>, p: PhoneNumber)
    requires PhonesValid(phones) && p.Valid() && p !in phones
    ensures PhonesValid(phones + [p]) && Values(phones + [p]) == Values(phones) + [p.Value()]
  {
    assert (phones + [p])[..|phones|] == phones;
  }

  lemma PhoneAt(phones: seq<PhoneNumber>, i: nat)
    requires PhonesValid(phones) && i < |phones|
    ensures phones[i].Valid()
  {
  }

  lemma CopyIsEqual(p: Phone)
    ensures MergePhone(NO_PHONE, p) == p
  {
    assert [] + p.unknown == p.unknown;
  }

  class PersonRecord {
    var hasBits: bv32
    var name: Bytes
    var id: int
    var email: Bytes
    var phones: seq<PhoneNumber>
    var unknownFields: seq<Unknown>
    var cachedSize: nat

    /** A field whose bit is clear holds its default, and no phone number is listed twice. */
    ghost predicate Valid()
      reads this`hasBits, this`name, this`id, this`email, this`phones, phones`hasBits, phones`number, phones`phoneType
    {
      && (!Has0(hasBits) ==> name == []) && (!Has1(hasBits) ==> id == 0) && (!Has2(hasBits) ==> email == [])
      && PhonesValid(phones)
    }

    function Value(): Person
      reads this`hasBits, this`name, this`id, this`email, this`phones, this`unknownFields
      reads phones`hasBits, phones`number, phones`phoneType, phones`unknownFields
    {
      Person(Present(Has0(hasBits), name), Present(Has1(hasBits), id), Present(Has2(hasBits), email), Values(phones), unknownFields)
    }

    constructor ()
      ensures Valid() && Value() == NO_PERSON && phones == []
    {
      hasBits, name, id, email, phones, unknownFields, cachedSize := 0, [], 0, [], [], [], 0;
      new;
      NoBits();
    }

    method Clear()
      requires Valid()
      modifies this
      ensures Valid() && Value() == NO_PERSON && name == [] && id == 0 && email == []
    {
      hide Has0, Has1, Has2;
      if hasBits & 0xff != 0 {
        if Has0(hasBits) {
          name := [];
        }
        id := 0;
        if Has2(hasBits) {
          email := [];
        }
      } else {
        LowByteEmpty(hasBits);
      }
      phones := [];
      hasBits := 0;
      NoBits();
      unknownFields := [];
    }

    method SetName(value: Bytes)
      requires Valid()
      modifies this`hasBits, this`name
      ensures Valid() && Value() == old(Value()).(name := Some(value))
    {
      hide Has0, Has1, Has2, With0, PhonesValid, Values;
      Set0(hasBits);
      hasBits := With0(hasBits);
      name := value;
    }

    method SetId(value: int)
      requires Valid()
      modifies this`hasBits, this`id
      ensures Valid() && Value() == old(Value()).(id := Some(value))
    {
      hide Has0, Has1, Has2, With1, PhonesValid, Values;
      Set1(hasBits);
      hasBits := With1(hasBits);
      id := value;
    }

    method SetEmail(value: Bytes)
      requires Valid()
      modifies this`hasBits, this`email
      ensures Valid() && Value() == old(Value()).(email := Some(value))
    {
      hide Has0, Has1, Has2, With2, PhonesValid, Values;
      Set2(hasBits);
      hasBits := With2(hasBits);
      email := value;
    }

    /** A new, empty phone number at the end of the list. */
    method AddNewPhone() returns (p: PhoneNumber)
      requires Valid()
      modifies this`phones
      ensures Valid() && fresh(p) && p !in old(phones) && phones == old(phones) + [p]
      ensures p.Valid() && p.Value() == NO_PHONE
      ensures Value() == AddPhone(old(Value()), NO_PHONE)
    {
      hide Has0, Has1, Has2, Values, PhonesValid;
      ghost var before := phones;
      p := new PhoneNumber();
      phones := phones + [p];
      Appended(before, p);
    }

    /** The phone numbers of the other message are copied, not shared. */
    method MergePhones(from: seq<PhoneNumber>)
      requires Valid() && PhonesValid(from)
      modifies this`phones
      ensures Valid() && old(phones) <= phones
      ensures forall i :: |old(phones)| <= i < |phones| ==> fresh(phones[i])
      ensures Values(phones) == old(Values(phones)) + old(Values(from))
      ensures Value() == old(Value()).(phones := Values(phones))
    {
      hide Has0, Has1, Has2, Values, PhonesValid;
      ghost var own, others := Values(phones), Values(from);
      var i := 0;
      while i < |from|
        invariant 0 <= i <= |from| && Valid() && PhonesValid(from) && old(phones) <= phones
        invariant forall k :: |old(phones)| <= k < |phones| ==> fresh(phones[k])
        invariant Values(from) == others && Values(phones) == own + others[..i]
        invariant Value() == old(Value()).(phones := Values(phones))
      {
        ValueAt(from, i);
        PhoneAt(from, i);
        CopyPhone(from[i]);
        assert others[..i + 1] == others[..i] + [others[i]];
        i := i + 1;
      }
      assert others[..i] == others;
    }

    method CopyPhone(from: PhoneNumber)
      requires Valid() && from.Valid()
      modifies this`phones
      ensures Valid() && |phones| == |old(phones)| + 1 && old(phones) <= phones && fresh(phones[|phones| - 1])
      ensures Values(phones) == old(Values(phones)) + [from.Value()]
      ensures Value() == old(Value()).(phones := Values(phones))
    {
      hide Has0, Has1, Has2, Values, PhonesValid;
      ghost var before := phones;
      var p := AddNewPhone();
      p.MergeFrom(from);
      CopyIsEqual(from.Value());
      Appended(before, p);
    }

    /** Phone numbers and unknown fields are appended, the other fields replaced where present in the other message. */
    method MergeFrom(from: PersonRecord)
      requires Valid() && from.Valid() && from != this
      modifies this
      ensures Valid() && Value() == MergePerson(old(Value()), old(from.Value()))
    {
      hide Has0, Has1, Has2, Values, PhonesValid;
      MergePhones(from.phones);
      if from.hasBits & 0xff != 0 {
        if Has0(from.hasBits) {
          SetName(from.name);
        }
        if Has1(from.hasBits) {
          SetId(from.id);
        }
        if Has2(from.hasBits) {
          SetEmail(from.email);
        }
      } else {
        LowByteEmpty(from.hasBits);
      }
      unknownFields := unknownFields + from.unknownFields;
    }

    /** Computes the size and caches it, here and in every phone number. */
    method ByteSize() returns (size: nat)
      requires Valid()
      modifies this`cachedSize, phones`cachedSize
      ensures size == PersonSize(Value()) && cachedSize == size
      ensures forall i :: 0 <= i < |phones| ==> phones[i].cachedSize == PhoneSize(phones[i].Value())
    {
      hide Has0, Has1, Has2, VarintSize, UnknownsSize, Values, PhonesValid, PhonesSize, PhoneSize;
      size := 0;
      if hasBits & 0xff != 0 {
        if Has0(hasBits) {
          size := size + 1 + (VarintSize(|name|) + |name|);
        }
        if Has1(hasBits) {
          size := size + 1 + (if id < 0 then 10 else VarintSize(id));
        }
        if Has2(hasBits) {
          size := size + 1 + (VarintSize(|email|) + |email|);
        }
      } else {
        LowByteEmpty(hasBits);
      }
      var phonesSize := PhonesByteSize();
      size := size + phonesSize;
      if unknownFields != [] {
        size := size + UnknownsSize(unknownFields);
      } else {
        NoUnknownsSize();
      }
      cachedSize := size;
    }

    /** One byte of tag for each phone number, then the loop. */
    method PhonesByteSize() returns (size: nat)
      requires Valid()
      modifies phones`cachedSize
      ensures size == PhonesSize(Values(phones))
      ensures forall i :: 0 <= i < |phones| ==> phones[i].cachedSize == PhoneSize(phones[i].Value())
    {
      hide VarintSize, PhoneSize, Values;
      size := 1 * |phones|;
      var i := 0;
      while i < |phones|
        invariant 0 <= i <= |phones|
        invariant size + SizesFrom(Values(phones), i) == 1 * |phones| + SizesFrom(Values(phones), 0)
        invariant forall k :: 0 <= k < i ==> phones[k].cachedSize == PhoneSize(phones[k].Value())
      {
        ValueAt(phones, i);
        var body := phones[i].ByteSize();
        size := size + (VarintSize(body) + body);
        i := i + 1;
      }
      SizesFromAll(Values(phones), 0);
    }

    /** SerializeWithCachedSizesToArray: the length in front of a phone number is whatever size it has cached. */
    method SerializeWithCachedSizes(target: Bytes) returns (out: Bytes)
      ensures out == target + PersonBytesWith(Value(), CachedSizes(phones))
    {
      hide Has0, Has1, Has2, TagBytes, StringBytes, VarintBytes, UnknownsBytes, PhonesBytesWith, Values, CachedSizes;
      out := target;
      if Has0(hasBits) {
        out := out + (TagBytes(1, Delimited) + StringBytes(name));
      }
      if Has1(hasBits) {
        out := out + (TagBytes(2, Varint) + VarintBytes(SignExtended(id)));
      }
      if Has2(hasBits) {
        out := out + (TagBytes(3, Delimited) + StringBytes(email));
      }
      ghost var v, sizes := Value(), CachedSizes(phones);
      assert out == ((target + StringField(1, v.name)) + IntField(2, v.id)) + StringField(3, v.email);
      out := SerializePhones(out);
      if unknownFields != [] {
        out := SerializeUnknowns(unknownFields, out);
      } else {
        NoUnknownsBytes();
      }
      ConcatFive(target, StringField(1, v.name), IntField(2, v.id), StringField(3, v.email),
        PhonesBytesWith(v.phones, sizes), UnknownsBytes(unknownFields));
    }

    method SerializePhones(target: Bytes) returns (out: Bytes)
      ensures out == target + PhonesBytesWith(Values(phones), CachedSizes(phones))
    {
      hide TagBytes, VarintBytes, PhoneBytes, Values, CachedSizes;
      ghost var v, sizes := Values(phones), CachedSizes(phones);
      out := target;
      var i := 0;
      while i < |phones|
        invariant 0 <= i <= |phones|
        invariant out + PhonesBytesWith(v[i..], sizes[i..]) == target + PhonesBytesWith(v, sizes)
      {
        ValueAt(phones, i);
        CachedAt(phones, i);
        ghost var before := out;
        out := out + TagBytes(4, Delimited);
        out := out + VarintBytes(phones[i].cachedSize);
        out := phones[i].Serialize(out);
        PhoneWritten(before, v, sizes, i);
        i := i + 1;
      }
    }

    /** Size first, then the bytes: the encoding of the message, of exactly the size computed. */
    method SerializePartial() returns (size: nat, out: Bytes)
      requires Valid() && PersonOk(Value(), 0)
      modifies this`cachedSize, phones`cachedSize
      ensures out == PersonBytes(Value()) && |out| == size
      ensures Valid() && Value() == old(Value())
    {
      hide PersonBytes, PersonBytesWith, PersonSize, PhoneSize, Has0, Has1, Has2;
      size := ByteSize();
      out := SerializeWithCachedSizes([]);
      PersonLength(Value(), 0);
      CachedAreRight(phones);
      CachedSizesDecide(Value(), CachedSizes(phones));
    }

    /** case 1.  A hit goes on inside case 2, behind its test of the tag. */
    method ParseName(input: CodedInputStream) returns (done: bool, ok: bool)
      requires Valid() && input.Valid() && !input.legitimateMessageEnd
      modifies this, input
      ensures Valid() && input.Valid()
      ensures Outcome(PersonOnward(NameField(old(Value()), old(input.Rest())), old(input.depth)), Value(),
        old(At(input)), At(input), done, ok, ParsePerson(Value(), input.Rest(), input.depth))
    {
      hide ReadTag, ReadString, ParsePerson, IdField, PersonOtherField, PhoneFieldOf, EmailField, Has0, Has1, Has2, Values, PhonesValid;
      var value;
      ok, value := input.LengthAndString(name);
      SetName(value);
      if !ok {
        return true, false;
      }
      PersonNextTag(Value(), input.Rest(), input.depth);
      var hit := input.ExpectTag(16);
      if hit {
        done, ok := ParseId(input);   // goto parse_id
      } else {
        done := false;
      }
    }

    /** case 2 from parse_id on. */
    method ParseId(input: CodedInputStream) returns (done: bool, ok: bool)
      requires Valid() && input.Valid() && !input.legitimateMessageEnd
      modifies this, input
      ensures Valid() && input.Valid()
      ensures Outcome(PersonOnward(IdField(old(Value()), old(input.Rest())), old(input.depth)), Value(),
        old(At(input)), At(input), done, ok, ParsePerson(Value(), input.Rest(), input.depth))
    {
      hide ReadTag, ReadVarint32, ParsePerson, NameField, PersonOtherField, PhoneFieldOf, EmailField, Has0, Has1, Has2, Values, PhonesValid;
      var v := input.TakeVarint32();
      if v.None? {
        return true, false;
      }
      SetId(Signed32(v.value));
      ok := true;
      PersonNextTag(Value(), input.Rest(), input.depth);
      var hit := input.ExpectTag(26);
      if hit {
        done, ok := ParseEmail(input);   // goto parse_email
      } else {
        done := false;
      }
    }

    /** case 3 from parse_email on. */
    method ParseEmail(input: CodedInputStream) returns (done: bool, ok: bool)
      requires Valid() && input.Valid() && !input.legitimateMessageEnd
      modifies this, input
      ensures Valid() && input.Valid()
      ensures Outcome(PersonOnward(EmailField(old(Value()), old(input.Rest())), old(input.depth)), Value(),
        old(At(input)), At(input), done, ok, ParsePerson(Value(), input.Rest(), input.depth))
    {
      hide ReadTag, ReadString, ParsePerson, NameField, IdField, PersonOtherField, PhoneFieldOf, Has0, Has1, Has2, Values, PhonesValid;
      var value;
      ok, value := input.LengthAndString(email);
      SetEmail(value);
      if !ok {
        return true, false;
      }
      PersonNextTag(Value(), input.Rest(), input.depth);
      var hit := input.ExpectTag(34);
      if hit {
        done, ok := ParsePhoneField(input);   // goto parse_phone
      } else {
        done := false;
      }
    }

    /** ReadMessageNoVirtual into a phone number. */
    method ReadPhone(input: CodedInputStream, p: PhoneNumber) returns (ok: bool)
      requires p.Valid() && p.Value() == NO_PHONE && input.Valid() && !input.legitimateMessageEnd
      modifies p, input
      ensures p.Valid() && input.Valid()
      ensures var s := PhoneFieldOf(NO_PERSON, old(input.Rest()), old(input.depth));
        if !ok then s == Stop(false, AddPhone(NO_PERSON, p.Value()))
        else
          && s == More(AddPhone(NO_PERSON, p.Value()), input.Rest())
          && At(input) == old(At(input)).(pos := input.pos) && input.pos >= old(input.pos)
    {
      hide ReadVarint32, ParsePhone, Has0, Has1, Has2;
      var length := input.TakeVarint32();
      if length.None? {
        return false;
      }
      var deeper := input.IncrementRecursionDepth();
      if !deeper {
        return false;
      }
      ghost var rest := input.Rest();
      var limit := input.PushLimit(length.value);
      ghost var sub := input.limit - input.pos;
      ok := p.MergePartialFromCodedStream(input);
      if !ok {
        return false;
      }
      if !input.legitimateMessageEnd {
        return false;
      }
      input.PopLimit(limit);
      input.DecrementRecursionDepth();
      assert input.Rest() == rest[sub..];
    }

    /** case 4 from parse_phone on: phone numbers for as long as the shortcut to the next one hits. */
    method ParsePhoneField(input: CodedInputStream) returns (done: bool, ok: bool)
      requires Valid() && input.Valid() && !input.legitimateMessageEnd
      modifies this, input
      ensures Valid() && input.Valid()
      ensures Outcome(PersonOnward(PhoneFieldOf(old(Value()), old(input.Rest()), old(input.depth)), old(input.depth)), Value(),
        old(At(input)), At(input), done, ok, ParsePerson(Value(), input.Rest(), input.depth))
    {
      hide ReadTag, ParsePerson, PhoneFieldOf, NameField, IdField, EmailField, PersonOtherField, Has0, Has1, Has2, Values, PhonesValid;
      ghost var r, start := PersonOnward(PhoneFieldOf(Value(), input.Rest(), input.depth), input.depth), At(input);
      while true
        invariant Valid() && input.Valid()
        invariant Going(r, start, At(input), PersonOnward(PhoneFieldOf(Value(), input.Rest(), input.depth), input.depth))
        decreases input.limit - input.pos
      {
        ok := ReadOnePhone(input);
        if !ok {
          return true, false;
        }
        PersonNextTag(Value(), input.Rest(), input.depth);
        var hit := input.ExpectTag(34);
        if !hit {
          break;
        }   // goto parse_phone
      }
      done := input.ExpectAtEnd();
      if done {
        PersonDone(Value(), input.depth);
      }
    }

    /** ReadMessageNoVirtual into add_phone(). */
    method ReadOnePhone(input: CodedInputStream) returns (ok: bool)
      requires Valid() && input.Valid() && !input.legitimateMessageEnd
      modifies this`phones, input
      ensures Valid() && input.Valid()
      ensures var s := PhoneFieldOf(old(Value()), old(input.Rest()), old(input.depth));
        if !ok then s == Stop(false, Value())
        else s == More(Value(), input.Rest()) && At(input) == old(At(input)).(pos := input.pos) && input.pos >= old(input.pos)
    {
      hide ReadTag, ParsePerson, PhoneFieldOf, Has0, Has1, Has2, Values, PhonesValid;
      ghost var before, m := phones, Value();
      PhoneFieldOnto(m, input.Rest(), input.depth);
      var p := AddNewPhone();
      ok := ReadPhone(input, p);
      Appended(before, p);
      assert Value() == AddPhone(m, p.Value());
    }

    /** default, and handle_uninterpreted. */
    method ParseOther(input: CodedInputStream, tag: nat) returns (done: bool, ok: bool)
      requires Valid() && input.Valid() && !input.legitimateMessageEnd
      modifies this`unknownFields, input
      ensures Valid() && input.Valid()
      ensures Outcome(PersonOnward(PersonOtherField(old(Value()), tag, old(input.Rest()), old(input.depth)), old(input.depth)),
        Value(), old(At(input)), At(input), done, ok, ParsePerson(Value(), input.Rest(), input.depth))
    {
      hide ReadTag, SkipField, ParsePerson, Has0, Has1, Has2, Values, PhonesValid;
      if TypeOf(tag) == EndGroup {
        return true, true;
      }
      var fields;
      ok, fields := input.SkipUnknown(tag);
      unknownFields := unknownFields + fields;
      done := !ok;
    }

    /** The switch, with a tag in hand. */
    method ParseField(input: CodedInputStream, tag: nat) returns (done: bool, ok: bool)
      requires Valid() && input.Valid() && !input.legitimateMessageEnd
      modifies this, input
      ensures Valid() && input.Valid()
      ensures Outcome(PersonOnward(PersonField(old(Value()), tag, old(input.Rest()), old(input.depth)), old(input.depth)),
        Value(), old(At(input)), At(input), done, ok, ParsePerson(Value(), input.Rest(), input.depth))
    {
      hide NameField, IdField, EmailField, PhoneFieldOf, PersonOtherField, ParsePerson, Has0, Has1, Has2, Values, PhonesValid;
      if NumberOf(tag) == 1 && TypeOf(tag) == Delimited {
        done, ok := ParseName(input);
      } else if NumberOf(tag) == 2 && TypeOf(tag) == Varint {
        done, ok := ParseId(input);
      } else if NumberOf(tag) == 3 && TypeOf(tag) == Delimited {
        done, ok := ParseEmail(input);
      } else if NumberOf(tag) == 4 && TypeOf(tag) == Delimited {
        done, ok := ParsePhoneField(input);
      } else {
        done, ok := ParseOther(input, tag);
      }
    }

    /** MergePartialFromCodedStream: whichever shortcuts hit, the message, the outcome and the place where it ends are
        those of the plain parser, on every input. */
    method MergePartialFromCodedStream(input: CodedInputStream) returns (ok: bool)
      requires Valid() && input.Valid() && !input.legitimateMessageEnd
      modifies this, input
      ensures Valid() && input.Valid()
      ensures Finished(ParsePerson(old(Value()), old(input.Rest()), old(input.depth)), Value(), old(At(input)), At(input), ok)
    {
      hide ReadTag, PersonField, PersonOnward, ParsePerson, Has0, Has1, Has2, Values, PhonesValid;
      ghost var r, start := ParsePerson(Value(), input.Rest(), input.depth), At(input);
      while true
        invariant Valid() && input.Valid()
        invariant Going(r, start, At(input), ParsePerson(Value(), input.Rest(), input.depth))
        decreases input.limit - input.pos
      {
        PersonNextTag(Value(), input.Rest(), input.depth);
        var tag := input.TakeTag();
        if tag == 0 {
          return true;
        }
        var done;
        done, ok := ParseField(input, tag);
        if done {
          return;
        }
      }
    }

    /** ParsePartialFromArray: cleared first, and the whole array must have been consumed. */
    method ParsePartialFromArray(data: Bytes) returns (ok: bool)
      requires Valid() && |data| < TWO31
      modifies this
      ensures Valid()
      ensures var r := ParsePerson(NO_PERSON, data, 0);
        Value() == r.msg && ok == (r.ok && r.atEnd)
    {
      hide ParsePerson, Has0, Has1, Has2, Values, PhonesValid;
      var input := new CodedInputStream(data);
      Clear();
      ok := MergePartialFromCodedStream(input);
      ok := ok && input.legitimateMessageEnd;
    }
  }

  /** After ByteSize every cached size is that of the encoded phone number. */
  lemma CachedAreRight(phones: seq<PhoneNumber>)
    requires forall i :: 0 <= i < |phones| ==> phones[i].cachedSize == PhoneSize(phones[i].Value())
    requires PhonesFit(Values(phones), 1)
    ensures SizesMatch(Values(phones), CachedSizes(phones))
  {
    hide PhoneSize, PhoneBytes, PhoneOk, Values, CachedSizes;
    forall i | 0 <= i < |phones| ensures CachedSizes(phones)[i] == |PhoneBytes(Values(phones)[i])| {
      ValueAt(phones, i);
      CachedAt(phones, i);
      assert PhoneFits(Values(phones)[i], 1);
      PhoneLength(Values(phones)[i], 1);
    }
  }

  lemma PhoneWritten(out: Bytes, v: seq<Phone>, sizes: seq<nat>, i: nat)
    requires i < |v| == |sizes|
    ensures (((out + TagBytes(4, Delimited)) + VarintBytes(sizes[i])) + PhoneBytes(v[i])) + PhonesBytesWith(v[i + 1..], sizes[i + 1..])
      == out + PhonesBytesWith(v[i..], sizes[i..])
  {
    hide TagBytes, VarintBytes, PhoneBytes;
    assert v[i..][1..] == v[i + 1..] && sizes[i..][1..] == sizes[i + 1..];
  }

  lemma ConcatFive(t: Bytes, a: Bytes, b: Bytes, c: Bytes, d: Bytes, e: Bytes)
    ensures ((((t + a) + b) + c) + d) + e == t + (a + (b + (c + (d + e))))
  {
  }

  /** The sizes of the phones from the i-th on, without their tags. */
  function SizesFrom(phones: seq<Phone>, i: nat): nat
    requires i <= |phones|
    decreases |phones| - i
  {
    if i == |phones| then 0 else VarintSize(PhoneSize(phones[i])) + PhoneSize(phones[i]) + SizesFrom(phones, i + 1)
  }

  lemma {:induction false} SizesFromAll(phones: seq<Phone>, i: nat)
    requires i <= |phones|
    ensures PhonesSize(phones[i..]) == |phones| - i + SizesFrom(phones, i) && phones[0..] == phones
    decreases |phones| - i
  {
    hide PhoneSize, VarintSize;
    if i < |phones| {
      assert phones[i..][1..] == phones[i + 1..];
      SizesFromAll(phones, i + 1);
    }
  }
}
