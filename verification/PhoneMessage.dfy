/** Person.PhoneNumber as generated: presence bits beside the fields, a cached size, and a parser that jumps from one
    field to the next expected one. */
module PhoneMessage {
  import opened Prelude
  import opened WireFormat
  import opened PersonCodec
  import opened CodedStream
  import opened HasBits

  function Present<T>(has: bool, value: T): Option<T> { if has then Some(value) else None }

  const HOME: int := 1

  /** The parser once the outcome of a field is known. */
  function PhoneOnward(s: Step<Phone>, depth: nat): Parsed<Phone> {
    match s
    case More(m, rest) => ParsePhone(m, rest, depth)
    case Stop(ok, m) => Parsed(ok, m, false)
  }

  lemma PhoneNextTag(m: Phone, data: Bytes, depth: nat)
    ensures var t := ReadTag(data);
      ParsePhone(m, data, depth) ==
        if t.tag == 0 then Parsed(true, m, t.atEnd) else PhoneOnward(PhoneField(m, t.tag, t.rest, depth), depth)
  {
    hide ReadTag, PhoneField;
  }

  /** Where a parser stands in its input. */
  datatype Cursor = Cursor(pos: nat, limit: nat, depth: nat, atEnd: bool)

  ghost function At(input: CodedInputStream): Cursor
    reads input
  {
    Cursor(input.pos, input.limit, input.depth, input.legitimateMessageEnd)
  }

  /** The parser has returned ok, with the message m: as the plain parser with the outcome r. */
  ghost predicate Finished<M>(r: Parsed<M>, m: M, before: Cursor, after: Cursor, ok: bool) {
    && ok == r.ok && m == r.msg
    && (ok ==> after.atEnd == r.atEnd && after.limit == before.limit && after.depth == before.depth)
    && (ok && r.atEnd ==> after.pos == after.limit)
  }

  /** The parser is ready for the next tag; from there the plain parser's outcome is `onward`. */
  ghost predicate Going<M>(r: Parsed<M>, before: Cursor, after: Cursor, onward: Parsed<M>) {
    r == onward && !after.atEnd && after.limit == before.limit && after.depth == before.depth && after.pos >= before.pos
  }

  /** `done` means that the parser has returned ok. */
  ghost predicate Outcome<M>(r: Parsed<M>, m: M, before: Cursor, after: Cursor, done: bool, ok: bool, onward: Parsed<M>) {
    if done then Finished(r, m, before, after, ok) else Going(r, before, after, onward)
  }

  /** Serializing the unknown fields one after the other. */
  method SerializeUnknowns(us: seq<Unknown>, target: Bytes) returns (out: Bytes)
    ensures out == target + UnknownsBytes(us)
  {
    hide UnknownBytes;
    out := target;
    var i := 0;
    while i < |us|
      invariant 0 <= i <= |us|
      invariant out + UnknownsBytes(us[i..]) == target + UnknownsBytes(us)
    {
      assert us[i..][0] == us[i] && us[i..][1..] == us[i + 1..];
      Assoc(out, UnknownBytes(us[i]), UnknownsBytes(us[i + 1..]));
      out := out + UnknownBytes(us[i]);
      i := i + 1;
    }
  }

  class PhoneNumber {
    var hasBits: bv32
    var number: Bytes
    var phoneType: int
    var unknownFields: seq<Unknown>
    var cachedSize: nat

    /** A field whose bit is clear holds its default. */
    ghost predicate Valid()
      reads this`hasBits, this`number, this`phoneType
    {
      (!Has0(hasBits) ==> number == []) && (!Has1(hasBits) ==> phoneType == HOME)
    }

    function Value(): Phone
      reads this`hasBits, this`number, this`phoneType, this`unknownFields
    {
      Phone(Present(Has0(hasBits), number), Present(Has1(hasBits), phoneType), unknownFields)
    }

    constructor ()
      ensures Valid() && Value() == NO_PHONE && cachedSize == 0
    {
      hasBits, number, phoneType, unknownFields, cachedSize := 0, [], HOME, [], 0;
      new;
      NoBits();
    }

    method Clear()
      requires Valid()
      modifies this
      ensures Valid() && Value() == NO_PHONE && number == [] && phoneType == HOME
    {
      hide Has0, Has1, Has2;
      if hasBits & 0xff != 0 {
        if Has0(hasBits) {
          number := [];
        }
        phoneType := HOME;
      } else {
        LowByteEmpty(hasBits);
      }
      hasBits := 0;
      NoBits();
      unknownFields := [];
    }

    /** The bit is set before anything is stored. */
    method SetNumber(value: Bytes)
      requires Valid()
      modifies this`hasBits, this`number
      ensures Valid() && Value() == old(Value()).(number := Some(value))
    {
      hide Has0, Has1, Has2, With0;
      Set0(hasBits);
      hasBits := With0(hasBits);
      number := value;
    }

    method SetType(value: int)
      requires Valid()
      modifies this`hasBits, this`phoneType
      ensures Valid() && Value() == old(Value()).(phoneType := Some(value))
    {
      hide Has0, Has1, Has2, With1;
      Set1(hasBits);
      hasBits := With1(hasBits);
      phoneType := value;
    }

    method ClearNumber()
      requires Valid()
      modifies this`hasBits, this`number
      ensures Valid() && Value() == old(Value()).(number := None)
    {
      hide Has0, Has1, Has2, Cleared0;
      number := [];
      Clear0(hasBits);
      hasBits := Cleared0(hasBits);
    }

    method ClearType()
      requires Valid()
      modifies this`hasBits, this`phoneType
      ensures Valid() && Value() == old(Value()).(phoneType := None)
    {
      hide Has0, Has1, Has2, Cleared1;
      phoneType := HOME;
      Clear1(hasBits);
      hasBits := Cleared1(hasBits);
    }

    /** Presence decides; unknown fields are appended. */
    method MergeFrom(from: PhoneNumber)
      requires Valid() && from != this
      modifies this
      ensures Valid() && Value() == MergePhone(old(Value()), from.Value())
    {
      hide Has0, Has1, Has2;
      if from.hasBits & 0xff != 0 {
        if Has0(from.hasBits) {
          SetNumber(from.number);
        }
        if Has1(from.hasBits) {
          SetType(from.phoneType);
        }
      } else {
        LowByteEmpty(from.hasBits);
      }
      unknownFields := unknownFields + from.unknownFields;
    }

    /** Computes the size and caches it. */
    method ByteSize() returns (size: nat)
      modifies this`cachedSize
      ensures size == PhoneSize(Value()) && cachedSize == size
    {
      hide Has0, Has1, Has2, VarintSize, UnknownsSize;
      size := 0;
      if hasBits & 0xff != 0 {
        if Has0(hasBits) {
          size := size + 1 + (VarintSize(|number|) + |number|);
        }
        if Has1(hasBits) {
          size := size + 1 + (if phoneType < 0 then 10 else VarintSize(phoneType));
        }
      } else {
        LowByteEmpty(hasBits);
      }
      if unknownFields != [] {
        size := size + UnknownsSize(unknownFields);
      } else {
        NoUnknownsSize();
      }
      cachedSize := size;
    }

    method Serialize(target: Bytes) returns (out: Bytes)
      ensures out == target + PhoneBytes(Value())
    {
      hide Has0, Has1, Has2, TagBytes, StringBytes, VarintBytes, UnknownsBytes;
      out := target;
      if Has0(hasBits) {
        out := out + (TagBytes(1, Delimited) + StringBytes(number));
      }
      if Has1(hasBits) {
        out := out + (TagBytes(2, Varint) + VarintBytes(SignExtended(phoneType)));
      }
      ghost var known := out;
      if unknownFields != [] {
        out := SerializeUnknowns(unknownFields, out);
      } else {
        NoUnknownsBytes();
      }
      assert known == (target + StringField(1, Value().number)) + IntField(2, Value().phoneType);
      ConcatThree(target, StringField(1, Value().number), IntField(2, Value().phoneType), UnknownsBytes(unknownFields));
    }

    /** case 1.  A hit goes on inside case 2, behind its test of the tag. */
    method ParseNumber(input: CodedInputStream) returns (done: bool, ok: bool)
      requires Valid() && input.Valid() && !input.legitimateMessageEnd
      modifies this, input
      ensures Valid() && input.Valid()
      ensures Outcome(PhoneOnward(PhoneNumberField(old(Value()), old(input.Rest())), old(input.depth)), Value(),
        old(At(input)), At(input), done, ok, ParsePhone(Value(), input.Rest(), input.depth))
    {
      hide ReadTag, ReadString, ParsePhone, PhoneTypeField, Has0, Has1, Has2;
      var value;
      ok, value := input.LengthAndString(number);
      SetNumber(value);
      if !ok {
        return true, false;
      }
      PhoneNextTag(Value(), input.Rest(), input.depth);
      var hit := input.ExpectTag(16);
      if hit {
        done, ok := ParseType(input);   // goto parse_type
      } else {
        done := false;
      }
    }

    /** case 2 from parse_type on. */
    method ParseType(input: CodedInputStream) returns (done: bool, ok: bool)
      requires Valid() && input.Valid() && !input.legitimateMessageEnd
      modifies this, input
      ensures Valid() && input.Valid()
      ensures Outcome(PhoneOnward(PhoneTypeField(old(Value()), old(input.Rest())), old(input.depth)), Value(),
        old(At(input)), At(input), done, ok, ParsePhone(Value(), input.Rest(), input.depth))
    {
      hide ReadTag, ReadVarint32, ParsePhone, Has0, Has1, Has2;
      var v := input.TakeVarint32();
      if v.None? {
        return true, false;
      }
      var value := Signed32(v.value);
      if PhoneTypeIsValid(value) {
        SetType(value);
      } else {
        unknownFields := unknownFields + [UVarint(2, SignExtended(value))];
      }
      ok := true;
      done := input.ExpectAtEnd();
      if done {
        PhoneDone(Value(), input.depth);
      }
    }

    /** default, and handle_uninterpreted. */
    method ParseOther(input: CodedInputStream, tag: nat) returns (done: bool, ok: bool)
      requires Valid() && input.Valid() && !input.legitimateMessageEnd
      modifies this, input
      ensures Valid() && input.Valid()
      ensures Outcome(PhoneOnward(PhoneOtherField(old(Value()), tag, old(input.Rest()), old(input.depth)), old(input.depth)),
        Value(), old(At(input)), At(input), done, ok, ParsePhone(Value(), input.Rest(), input.depth))
    {
      hide ReadTag, SkipField, ParsePhone, Has0, Has1, Has2;
      if TypeOf(tag) == EndGroup {
        return true, true;
      }
      var fields;
      ok, fields := input.SkipUnknown(tag);
      unknownFields := unknownFields + fields;
      done := !ok;
    }

    /** The switch, with a tag in hand. */
    method ParseField(input: CodedInputStream, tag: nat) returns (done: bool, ok: bool)
      requires Valid() && input.Valid() && !input.legitimateMessageEnd
      modifies this, input
      ensures Valid() && input.Valid()
      ensures Outcome(PhoneOnward(PhoneField(old(Value()), tag, old(input.Rest()), old(input.depth)), old(input.depth)),
        Value(), old(At(input)), At(input), done, ok, ParsePhone(Value(), input.Rest(), input.depth))
    {
      hide PhoneNumberField, PhoneTypeField, PhoneOtherField, ParsePhone;
      if NumberOf(tag) == 1 && TypeOf(tag) == Delimited {
        done, ok := ParseNumber(input);
      } else if NumberOf(tag) == 2 && TypeOf(tag) == Varint {
        done, ok := ParseType(input);
      } else {
        done, ok := ParseOther(input, tag);
      }
    }

    /** MergePartialFromCodedStream.  Whichever shortcuts hit, the message, the outcome and the place where it ends are
        those of the plain parser, on every input. */
    method MergePartialFromCodedStream(input: CodedInputStream) returns (ok: bool)
      requires Valid() && input.Valid() && !input.legitimateMessageEnd
      modifies this, input
      ensures Valid() && input.Valid()
      ensures Finished(ParsePhone(old(Value()), old(input.Rest()), old(input.depth)), Value(), old(At(input)), At(input), ok)
    {
      hide ReadTag, PhoneField, PhoneOnward, ParsePhone;
      ghost var r, start := ParsePhone(Value(), input.Rest(), input.depth), At(input);
      while true
        invariant Valid() && input.Valid()
        invariant Going(r, start, At(input), ParsePhone(Value(), input.Rest(), input.depth))
        decreases input.limit - input.pos
      {
        PhoneNextTag(Value(), input.Rest(), input.depth);
        var tag := input.TakeTag();
        if tag == 0 {
          return true;
        }
        var done;
        done, ok := ParseField(input, tag);
        if done {
          return;
        }
      }
    }
  }

  lemma ConcatThree(t: Bytes, a: Bytes, b: Bytes, c: Bytes)
    ensures ((t + a) + b) + c == t + (a + (b + c))
  {
  }

  lemma NoUnknownsBytes()
    ensures UnknownsBytes([]) == []
  {
  }

  lemma NoUnknownsSize()
    ensures UnknownsSize([]) == 0
  {
  }
}
