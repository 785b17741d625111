/** How much longer a message can get by being parsed and written again: never more than twice as long.  Everything is
    written back in at most the bytes it was read from, except negative 32-bit values: they are read from five bytes
    and written in ten. */
module Growth {
  import opened WireFormat
  import opened PersonCodec

  // ---------- varints ----------

  lemma {:induction false} ReadAtLeastWritten(data: Bytes, n: nat)
    ensures match ReadVarint(data, n)
      case None => true
      case Some((v, rest)) => |VarintBytes(v)| <= |data| - |rest|
    decreases n
  {
    if n > 0 && data != [] && data[0] >= 128 {
      ReadAtLeastWritten(data[1..], n - 1);
      match ReadVarint(data[1..], n - 1)
      case None =>
      case Some((v, rest)) => assert (data[0] - 128 + 128 * v) / 128 == v;
    }
  }

  lemma {:induction false} LargerIsLonger(u: nat, v: nat)
    requires u <= v
    ensures |VarintBytes(u)| <= |VarintBytes(v)|
    decreases v
  {
    if u >= 128 { LargerIsLonger(u / 128, v / 128); }
  }

  /** Reading 32 bits takes at least the bytes of writing them, and at least five for a value of 32 bits. */
  lemma Read32(data: Bytes)
    ensures match ReadVarint32(data)
      case None => true
      case Some((v, rest)) => |VarintBytes(v)| <= |data| - |rest| && (v >= TWO31 ==> |data| - |rest| >= 5)
  {
    hide VarintBytes, ReadVarint;
    ReadAtLeastWritten(data, MAX_VARINT_BYTES);
    if ReadVarint(data, MAX_VARINT_BYTES).Some? {
      var w := ReadVarint(data, MAX_VARINT_BYTES).value.0;
      LargerIsLonger(w % TWO32, w);
      if w % TWO32 >= TWO31 {
        VarintSizeIsLength(TWO31);
        LargerIsLonger(TWO31, w % TWO32);
      }
    }
  }

  lemma Read64(data: Bytes)
    ensures match ReadVarint64(data)
      case None => true
      case Some((v, rest)) => |VarintBytes(v)| <= |data| - |rest|
  {
    hide VarintBytes, ReadVarint;
    ReadAtLeastWritten(data, MAX_VARINT_BYTES);
    if ReadVarint(data, MAX_VARINT_BYTES).Some? {
      var w := ReadVarint(data, MAX_VARINT_BYTES).value.0;
      LargerIsLonger(w % TWO64, w);
    }
  }

  lemma ReadSigned(data: Bytes)
    ensures match ReadVarint32(data)
      case None => true
      case Some((v, rest)) => |VarintBytes(SignExtended(Signed32(v)))| <= 2 * (|data| - |rest|)
  {
    hide VarintBytes, ReadVarint32, VarintSize;
    Read32(data);
    if ReadVarint32(data).Some? {
      var v := ReadVarint32(data).value.0;
      SignedResidue(Signed32(v));
      if v >= TWO31 { TenBytes(SignExtended(Signed32(v))); }
    }
  }

  lemma TenBytes(v: nat)
    requires v < TWO64
    ensures |VarintBytes(v)| <= 10
  {
    VarintSizeIsLength(v);
  }

  /** A tag that names a wire type is written as it was read, in no more bytes. */
  lemma ReadTagBytes(data: Bytes)
    ensures var t := ReadTag(data);
      t.tag != 0 && TypeOf(t.tag) != Invalid ==>
        MakeTag(NumberOf(t.tag), TypeOf(t.tag)) == t.tag && |VarintBytes(t.tag)| <= |data| - |t.rest|
  {
    hide VarintBytes, ReadVarint32;
    Read32(data);
  }

  lemma ReadStringBytes(data: Bytes, was: Bytes)
    ensures var s := ReadString(data, was); s.ok ==> |StringBytes(s.value)| <= |data| - |s.rest|
  {
    hide VarintBytes, ReadVarint32;
    Read32(data);
  }

  // ---------- unknown fields ----------

  lemma {:induction false} GroupIsList(u: Unknown, i: nat)
    requires u.UGroup? && i <= |u.fields|
    ensures GroupBytes(u, i) == UnknownsBytes(u.fields[i..])
    decreases |u.fields| - i
  {
    hide UnknownBytes;
    if i < |u.fields| {
      GroupIsList(u, i + 1);
      assert u.fields[i..][1..] == u.fields[i + 1..];
    }
  }

  lemma {:induction false} UnknownsAdd(us: seq<Unknown>, u: Unknown)
    ensures |UnknownsBytes(us + [u])| == |UnknownsBytes(us)| + |UnknownBytes(u)|
    decreases us
  {
    hide UnknownBytes;
    if us == [] {
      assert [u][1..] == [] && us + [u] == [u];
    } else {
      UnknownsAdd(us[1..], u);
      assert (us + [u])[0] == us[0] && (us + [u])[1..] == us[1..] + [u];
    }
  }

  lemma UnknownsAddSkipped(us: seq<Unknown>, fields: seq<Unknown>)
    requires |fields| == 1
    ensures var u := fields[0];
      |UnknownsBytes(us + fields)| == |UnknownsBytes(us)| + |VarintBytes(MakeTag(u.number, WireTypeOf(u)))| + |BodyBytes(u)|
  {
    hide BodyBytes, UnknownsBytes, VarintBytes;
    assert fields == [fields[0]];
    UnknownsAdd(us, fields[0]);
  }

  /** The field stored has the number and wire type of the tag, and behind its tag it is written in no more bytes than
      it was read from. */
  ghost predicate Compact(s: Skipped, tag: nat, data: Bytes) {
    s.ok ==>
      && |s.fields| == 1 && s.fields[0].number == NumberOf(tag) && WireTypeOf(s.fields[0]) == TypeOf(tag)
      && |BodyBytes(s.fields[0])| <= |data| - |s.rest|
  }

  lemma {:induction false} SkipCompact(data: Bytes, tag: nat, depth: nat)
    ensures Compact(SkipField(data, tag, depth), tag, data)
    decreases |data|, 1
  {
    hide VarintBytes, ReadVarint64, ReadVarint32, ReadFixed, SkipMessage, GroupBytes;
    match TypeOf(tag)
    case Varint => Read64(data);
    case Fixed64 =>
    case Delimited => Read32(data);
    case StartGroup =>
      if depth < RECURSION_LIMIT {
        SkipMessageCompact(data, depth + 1, []);
        var g := SkipMessage(data, depth + 1, []);
        GroupIsList(UGroup(NumberOf(tag), g.fields), 0);
        TagNotZero(NumberOf(tag));
        assert UnknownsBytes([]) == [] && g.fields[0..] == g.fields;
      }
    case EndGroup =>
    case Fixed32 =>
    case Invalid =>
  }

  lemma TagNotZero(number: nat)
    ensures MakeTag(number, EndGroup) != 0
  {
  }

  lemma {:induction false} SkipMessageCompact(data: Bytes, depth: nat, fields: seq<Unknown>)
    ensures var g := SkipMessage(data, depth, fields);
      g.ok && g.lastTag != 0 ==>
        |UnknownsBytes(g.fields)| + |VarintBytes(g.lastTag)| <= |UnknownsBytes(fields)| + |data| - |g.rest|
    decreases |data|, 0
  {
    hide SkipField, ReadTag, VarintBytes, BodyBytes, UnknownsBytes, MakeTag;
    var t := ReadTag(data);
    ReadTagBytes(data);
    if t.tag != 0 && TypeOf(t.tag) != EndGroup {
      var s := SkipField(t.rest, t.tag, depth);
      SkipCompact(t.rest, t.tag, depth);
      if s.ok {
        UnknownsAddSkipped(fields, s.fields);
        SkipMessageCompact(s.rest, depth, fields + s.fields);
      }
    }
  }

  // ---------- phone numbers ----------

  /** A field read from `read` bytes, tag included, adds at most twice as many to the encoding. */
  ghost predicate PhoneDoubles(m: Phone, s: Step<Phone>, read: int) {
    s.More? ==> |PhoneBytes(s.msg)| <= |PhoneBytes(m)| + 2 * (read - |s.rest|)
  }

  lemma SmallTag(number: nat, t: WireType)
    requires number < 16 && t != Invalid
    ensures |TagBytes(number, t)| == 1
  {
  }

  lemma NumberDoubles(m: Phone, data: Bytes)
    ensures PhoneDoubles(m, PhoneNumberField(m, data), |data| + 1)
  {
    hide ReadString, TagBytes, StringBytes, IntField, UnknownsBytes;
    ReadStringBytes(data, OrEmpty(m.number));
    SmallTag(1, Delimited);
  }

  lemma TypeDoubles(m: Phone, data: Bytes)
    ensures PhoneDoubles(m, PhoneTypeField(m, data), |data| + 1)
  {
    hide ReadVarint32, TagBytes, VarintBytes, StringField, UnknownsBytes, Signed32;
    ReadSigned(data);
    SmallTag(2, Varint);
    match ReadVarint32(data)
    case None =>
    case Some((v, rest)) => UnknownsAdd(m.unknown, UVarint(2, SignExtended(Signed32(v))));
  }

  lemma OtherDoubles(m: Phone, data: Bytes, depth: nat)
    ensures var t := ReadTag(data); t.tag != 0 ==> PhoneDoubles(m, PhoneOtherField(m, t.tag, t.rest, depth), |data|)
  {
    hide ReadTag, SkipField, StringField, IntField, UnknownsBytes, BodyBytes, MakeTag, VarintBytes;
    var t := ReadTag(data);
    ReadTagBytes(data);
    SkipCompact(t.rest, t.tag, depth);
    var s := SkipField(t.rest, t.tag, depth);
    if s.ok { UnknownsAddSkipped(m.unknown, s.fields); }
  }

  lemma {:induction false} PhoneGrowth(m: Phone, data: Bytes, depth: nat)
    ensures var r := ParsePhone(m, data, depth); r.ok ==> |PhoneBytes(r.msg)| <= |PhoneBytes(m)| + 2 * |data|
    decreases |data|
  {
    hide PhoneNumberField, PhoneTypeField, PhoneOtherField, PhoneBytes, ReadTag;
    var t := ReadTag(data);
    if t.tag != 0 {
      NumberDoubles(m, t.rest);
      TypeDoubles(m, t.rest);
      OtherDoubles(m, data, depth);
      OtherStops(m, t.tag, t.rest, depth);
      match PhoneField(m, t.tag, t.rest, depth)
      case More(m', rest) => PhoneGrowth(m', rest, depth);
      case Stop(ok, m') =>
    }
  }

  lemma OtherStops(m: Phone, tag: nat, data: Bytes, depth: nat)
    ensures var s := PhoneField(m, tag, data, depth); s.Stop? && s.ok ==> s.msg == m
  {
    hide ReadString, ReadVarint32, SkipField;
  }

  // ---------- persons ----------

  ghost predicate PersonDoubles(m: Person, s: Step<Person>, read: int) {
    s.More? ==> |PersonBytes(s.msg)| <= |PersonBytes(m)| + 2 * (read - |s.rest|)
  }

  lemma NameDoubles(m: Person, data: Bytes)
    ensures PersonDoubles(m, NameField(m, data), |data| + 1)
  {
    hide ReadString, TagBytes, StringBytes, IntField, PhonesBytes, UnknownsBytes;
    ReadStringBytes(data, OrEmpty(m.name));
    SmallTag(1, Delimited);
  }

  lemma IdDoubles(m: Person, data: Bytes)
    ensures PersonDoubles(m, IdField(m, data), |data| + 1)
  {
    hide ReadVarint32, TagBytes, VarintBytes, StringField, PhonesBytes, UnknownsBytes, Signed32;
    ReadSigned(data);
    SmallTag(2, Varint);
  }

  lemma EmailDoubles(m: Person, data: Bytes)
    ensures PersonDoubles(m, EmailField(m, data), |data| + 1)
  {
    hide ReadString, TagBytes, StringBytes, IntField, PhonesBytes, UnknownsBytes;
    ReadStringBytes(data, OrEmpty(m.email));
    SmallTag(3, Delimited);
  }

  lemma {:induction false} PhonesAdd(phones: seq<Phone>, p: Phone)
    ensures |PhonesBytes(phones + [p])| == |PhonesBytes(phones)| + |TagBytes(4, Delimited)| + |StringBytes(PhoneBytes(p))|
    decreases phones
  {
    hide TagBytes, StringBytes, PhoneBytes;
    if phones == [] {
      assert [p][1..] == [] && phones + [p] == [p];
    } else {
      PhonesAdd(phones[1..], p);
      assert (phones + [p])[0] == phones[0] && (phones + [p])[1..] == phones[1..] + [p];
    }
  }

  /** Twice the bytes behind a length need at most one more byte of length. */
  lemma LengthDoubles(size: nat, read: nat)
    requires size <= 2 * read
    ensures |VarintBytes(size)| <= |VarintBytes(read)| + 1
  {
    LargerIsLonger(size, 128 * read);
  }

  lemma PhoneNumberDoubles(m: Person, data: Bytes, depth: nat)
    ensures PersonDoubles(m, PhoneFieldOf(m, data, depth), |data| + 1)
  {
    hide ReadVarint32, ParsePhone, TagBytes, VarintBytes, PhoneBytes, StringField, IntField, UnknownsBytes, PhonesBytes;
    Read32(data);
    SmallTag(4, Delimited);
    if ReadVarint32(data).Some? && depth < RECURSION_LIMIT {
      var (length, rest) := ReadVarint32(data).value;
      var n := if length <= |rest| then length else |rest|;
      var p := ParsePhone(NO_PHONE, rest[..n], depth + 1);
      EmptyPhone();
      PhoneGrowth(NO_PHONE, rest[..n], depth + 1);
      PhonesAdd(m.phones, p.msg);
      LargerIsLonger(n, length);
      if p.ok { LengthDoubles(|PhoneBytes(p.msg)|, n); }
    }
  }

  lemma EmptyPhone()
    ensures PhoneBytes(NO_PHONE) == []
  {
  }

  lemma PersonOtherDoubles(m: Person, data: Bytes, depth: nat)
    ensures var t := ReadTag(data); t.tag != 0 ==> PersonDoubles(m, PersonOtherField(m, t.tag, t.rest, depth), |data|)
  {
    hide ReadTag, SkipField, StringField, IntField, PhonesBytes, UnknownsBytes, BodyBytes, MakeTag, VarintBytes;
    var t := ReadTag(data);
    ReadTagBytes(data);
    SkipCompact(t.rest, t.tag, depth);
    var s := SkipField(t.rest, t.tag, depth);
    if s.ok { UnknownsAddSkipped(m.unknown, s.fields); }
  }

  lemma PersonStops(m: Person, tag: nat, data: Bytes, depth: nat)
    ensures var s := PersonField(m, tag, data, depth); s.Stop? && s.ok ==> s.msg == m
  {
    hide ReadString, ReadVarint32, SkipField, ParsePhone;
  }

  /** A parsed message takes at most twice the bytes it was read from. */
  lemma {:induction false} PersonGrowth(m: Person, data: Bytes, depth: nat)
    ensures var r := ParsePerson(m, data, depth); r.ok ==> |PersonBytes(r.msg)| <= |PersonBytes(m)| + 2 * |data|
    decreases |data|
  {
    hide NameField, IdField, EmailField, PhoneFieldOf, PersonOtherField, PersonBytes, ReadTag;
    var t := ReadTag(data);
    if t.tag != 0 {
      NameDoubles(m, t.rest);
      IdDoubles(m, t.rest);
      EmailDoubles(m, t.rest);
      PhoneNumberDoubles(m, t.rest, depth);
      PersonOtherDoubles(m, data, depth);
      PersonStops(m, t.tag, t.rest, depth);
      match PersonField(m, t.tag, t.rest, depth)
      case More(m', rest) => PersonGrowth(m', rest, depth);
      case Stop(ok, m') =>
    }
  }
}
