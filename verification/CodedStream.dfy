/** CodedInputStream over one buffer of bytes: the position, the limit in force, and the flags the message parsers
    look at.  The total-bytes limit of 64 MB is not modelled. */
module CodedStream {
  import opened Prelude
  import opened WireFormat

  function Pow128(n: nat): nat { if n == 0 then 1 else 128 * Pow128(n - 1) }

  /** A varint of which `count` bytes worth `low` have been read already. */
  function Continued(low: nat, count: nat, r: Option<(nat, Bytes)>): Option<(nat, Bytes)> {
    match r
    case None => None
    case Some((v, rest)) => Some((low + Pow128(count) * v, rest))
  }

  /** What one more byte does to a varint that is being read. */
  lemma ContinuedStep(low: nat, count: nat, data: Bytes, n: nat)
    requires n > 0 && data != []
    ensures var b := data[0]; var low' := low + Pow128(count) * (b % 128);
      Continued(low, count, ReadVarint(data, n)) ==
        if b < 128 then Some((low', data[1..])) else Continued(low', count + 1, ReadVarint(data[1..], n - 1))
  {
    hide ReadVarint;
    var f, b := Pow128(count), data[0];
    VarintStep(data, n);
    if b >= 128 && ReadVarint(data[1..], n - 1).Some? {
      Distribute(f, b - 128, ReadVarint(data[1..], n - 1).value.0);
    }
  }

  lemma Distribute(f: nat, b: nat, v: nat)
    ensures f * (b + 128 * v) == f * b + (128 * f) * v
  {
  }

  lemma VarintStep(data: Bytes, n: nat)
    requires n > 0 && data != []
    ensures data[0] < 128 ==> ReadVarint(data, n).Some? && ReadVarint(data, n).value == (data[0], data[1..])
    ensures data[0] >= 128 ==>
      match ReadVarint(data[1..], n - 1)
      case None => ReadVarint(data, n).None?
      case Some((v, rest)) => ReadVarint(data, n).Some? && ReadVarint(data, n).value == (data[0] - 128 + 128 * v, rest)
  {
  }

  lemma ContinuedEnds(low: nat, count: nat, data: Bytes, n: nat)
    requires n == 0 || data == []
    ensures Continued(low, count, ReadVarint(data, n)) == None
  {
  }

  lemma ContinuedStarts(r: Option<(nat, Bytes)>)
    ensures Continued(0, 0, r) == r && Pow128(0) == 1
  {
  }

  lemma NextFactor(count: nat)
    ensures Pow128(count + 1) == Pow128(count) * 128
  {
  }

  lemma SliceSteps(buffer: Bytes, pos: nat, limit: nat)
    requires pos < limit <= |buffer|
    ensures buffer[pos..limit][0] == buffer[pos] && buffer[pos..limit][1..] == buffer[pos + 1..limit]
  {
  }

  lemma SliceParts(buffer: Bytes, pos: nat, limit: nat, n: nat)
    requires pos + n <= limit <= |buffer|
    ensures buffer[pos..limit][..n] == buffer[pos..pos + n] && buffer[pos..limit][n..] == buffer[pos + n..limit]
  {
  }

  class CodedInputStream {
    const buffer: Bytes
    var pos: nat
    var limit: nat
    var legitimateMessageEnd: bool
    var lastTag: nat
    var depth: nat

    ghost predicate Valid()
      reads this
    {
      pos <= limit <= |buffer| < TWO31
    }

    /** The bytes up to the limit that have not been read. */
    ghost function Rest(): Bytes
      requires Valid()
      reads this
    {
      buffer[pos..limit]
    }

    constructor (buffer: Bytes)
      requires |buffer| < TWO31
      ensures Valid() && Rest() == buffer && !legitimateMessageEnd && depth == 0
    {
      this.buffer := buffer;
      pos, limit, legitimateMessageEnd, lastTag, depth := 0, |buffer|, false, 0, 0;
    }

    /** The value of a varint, not yet cut to a width. */
    method RawVarint() returns (value: Option<nat>)
      requires Valid()
      modifies this`pos
      ensures Valid() && pos >= old(pos)
      ensures match ReadVarint(old(Rest()), MAX_VARINT_BYTES)
        case None => value == None
        case Some((v, rest)) => value == Some(v) && Rest() == rest
    {
      hide ReadVarint, Continued, Pow128;
      var count: nat, low: nat, factor: nat := 0, 0, 1;
      ghost var data := Rest();
      ContinuedStarts(ReadVarint(data, MAX_VARINT_BYTES));
      while true
        invariant 0 <= count <= MAX_VARINT_BYTES && factor == Pow128(count) && Valid() && pos >= old(pos)
        invariant ReadVarint(data, MAX_VARINT_BYTES) == Continued(low, count, ReadVarint(Rest(), MAX_VARINT_BYTES - count))
        decreases MAX_VARINT_BYTES - count
      {
        if count == MAX_VARINT_BYTES || pos == limit {
          ContinuedEnds(low, count, Rest(), MAX_VARINT_BYTES - count);
          return None;
        }
        var b: nat := buffer[pos];
        SliceSteps(buffer, pos, limit);
        ContinuedStep(low, count, Rest(), MAX_VARINT_BYTES - count);
        low := low + factor * (b % 128);
        pos := pos + 1;
        if b < 128 {
          return Some(low);
        }
        NextFactor(count);
        factor := factor * 128;
        count := count + 1;
      }
    }

    /** At the end of the data the message may end here; a varint cut off is malformed. */
    method TakeVarint32() returns (value: Option<nat>)
      requires Valid()
      modifies this`pos, this`legitimateMessageEnd
      ensures Valid() && pos >= old(pos)
      ensures match ReadVarint32(old(Rest()))
        case None => value == None && legitimateMessageEnd == (old(legitimateMessageEnd) || old(Rest()) == [])
        case Some((v, rest)) => value == Some(v) && Rest() == rest && legitimateMessageEnd == old(legitimateMessageEnd)
    {
      if pos == limit {
        legitimateMessageEnd := true;
        return None;
      }
      value := RawVarint();
      if value.Some? {
        value := Some(value.value % TWO32);
      }
    }

    method TakeVarint64() returns (value: Option<nat>)
      requires Valid()
      modifies this`pos
      ensures Valid() && pos >= old(pos)
      ensures match ReadVarint64(old(Rest()))
        case None => value == None
        case Some((v, rest)) => value == Some(v) && Rest() == rest
    {
      value := RawVarint();
      if value.Some? {
        value := Some(value.value % TWO64);
      }
    }

    method TakeTag() returns (tag: nat)
      requires Valid() && !legitimateMessageEnd
      modifies this`pos, this`legitimateMessageEnd, this`lastTag
      ensures Valid() && pos >= old(pos) && lastTag == tag
      ensures var t := ReadTag(old(Rest()));
        tag == t.tag && legitimateMessageEnd == t.atEnd && (tag != 0 ==> Rest() == t.rest)
        && (t.atEnd ==> pos == limit)
    {
      var v := TakeVarint32();
      tag := if v.Some? then v.value else 0;
      lastTag := tag;
    }

    /** Takes a tag of one or two bytes if it is the next one; free to miss it, and bound to if it is larger. */
    method ExpectTag(expected: nat) returns (hit: bool)
      requires Valid()
      modifies this`pos
      ensures Valid() && pos >= old(pos)
      ensures hit ==> ReadTag(old(Rest())) == TagRead(expected, Rest(), false) && |Rest()| < |old(Rest())|
      ensures !hit ==> pos == old(pos)
    {
      hit := false;
      if * {
        return;
      }
      if expected < 128 {
        if pos < limit && buffer[pos] == expected {
          SliceSteps(buffer, pos, limit);
          pos := pos + 1;
          hit := true;
        }
      } else if expected < 128 * 128 {
        if pos + 2 <= limit && buffer[pos] == expected % 128 + 128 && buffer[pos + 1] == expected / 128 {
          SliceSteps(buffer, pos, limit);
          SliceSteps(buffer, pos + 1, limit);
          pos := pos + 2;
          hit := true;
        }
      }
    }

    /** Says that the limit is reached; free to miss it. */
    method ExpectAtEnd() returns (hit: bool)
      requires Valid() && !legitimateMessageEnd
      modifies this`legitimateMessageEnd, this`lastTag
      ensures hit ==> old(Rest()) == [] && legitimateMessageEnd && pos == limit && lastTag == 0
      ensures !hit ==> !legitimateMessageEnd && lastTag == old(lastTag)
    {
      hit := false;
      if * {
        if pos == limit {
          lastTag := 0;
          legitimateMessageEnd := true;
          hit := true;
        }
      }
    }

    /** `length` is cast to int: from 2^31 on it is negative, and the limit in force stays. */
    method PushLimit(length: nat) returns (oldLimit: nat)
      requires Valid() && length < TWO32
      modifies this`limit
      ensures Valid() && oldLimit == old(limit)
      ensures var n := if length <= |old(Rest())| then length else |old(Rest())|;
        limit == pos + n && Rest() == old(Rest())[..n]
    {
      oldLimit := limit;
      var byteLimit := Signed32(length);
      if byteLimit >= 0 && byteLimit <= TWO31 - 1 - pos {
        if pos + byteLimit < limit {
          limit := pos + byteLimit;
        }
      }
    }

    method PopLimit(oldLimit: nat)
      requires Valid() && limit <= oldLimit <= |buffer|
      modifies this`limit, this`legitimateMessageEnd
      ensures Valid() && limit == oldLimit && !legitimateMessageEnd
    {
      limit := oldLimit;
      legitimateMessageEnd := false;
    }

    method IncrementRecursionDepth() returns (ok: bool)
      modifies this`depth
      ensures depth == old(depth) + 1 && ok == (old(depth) < RECURSION_LIMIT)
    {
      depth := depth + 1;
      ok := depth <= RECURSION_LIMIT;
    }

    method DecrementRecursionDepth()
      modifies this`depth
      ensures depth == if old(depth) > 0 then old(depth) - 1 else 0
    {
      if depth > 0 {
        depth := depth - 1;
      }
    }

    /** ReadString with a length from the wire. */
    method RawString(length: nat, was: Bytes) returns (ok: bool, value: Bytes)
      requires Valid() && length < TWO32
      modifies this`pos
      ensures Valid() && pos >= old(pos)
      ensures var s := TakeString(length, was, old(Rest())); ok == s.ok && value == s.value && (ok ==> Rest() == s.rest)
    {
      if Signed32(length) < 0 {
        return false, was;
      }
      if length > limit - pos {
        value := buffer[pos..limit];
        pos := limit;
        return false, value;
      }
      SliceParts(buffer, pos, limit, length);
      value := buffer[pos..pos + length];
      pos := pos + length;
      ok := true;
    }

    method LengthAndString(was: Bytes) returns (ok: bool, value: Bytes)
      requires Valid()
      modifies this`pos, this`legitimateMessageEnd
      ensures Valid() && pos >= old(pos)
      ensures var s := ReadString(old(Rest()), was);
        ok == s.ok && value == s.value && (ok ==> Rest() == s.rest && legitimateMessageEnd == old(legitimateMessageEnd))
    {
      var length := TakeVarint32();
      if length.None? {
        return false, was;
      }
      ok, value := RawString(length.value, was);
    }

    method LittleEndian(n: nat) returns (value: Option<nat>)
      requires Valid()
      modifies this`pos
      ensures Valid() && pos >= old(pos)
      ensures match ReadFixed(old(Rest()), n)
        case None => value == None
        case Some((v, rest)) => value == Some(v) && Rest() == rest
      decreases n
    {
      if n == 0 {
        return Some(0);
      }
      if pos == limit {
        return None;
      }
      var b := buffer[pos];
      ghost var data := Rest();
      assert data[0] == b && data[1..] == buffer[pos + 1..limit];
      pos := pos + 1;
      var more := LittleEndian(n - 1);
      value := if more.None? then None else Some(b + 256 * more.value);
    }

    /** SkipField: what it read is handed back as the fields to append. */
    method SkipUnknown(tag: nat) returns (ok: bool, fields: seq<Unknown>)
      requires Valid() && !legitimateMessageEnd
      modifies this
      ensures Valid() && pos >= old(pos) && limit == old(limit)
      ensures var s := SkipField(old(Rest()), tag, old(depth));
        ok == s.ok && fields == s.fields && (ok ==> Rest() == s.rest && depth == old(depth) && !legitimateMessageEnd)
      decreases |Rest()|, 1
    {
      hide ReadVarint, ReadFixed, SkipMessage, ReadTag;
      var number := NumberOf(tag);
      match TypeOf(tag) {
        case Varint =>
          var v := TakeVarint64();
          if v.None? {
            return false, [];
          }
          return true, [UVarint(number, v.value)];
        case Fixed64 =>
          var v := LittleEndian(8);
          if v.None? {
            return false, [];
          }
          return true, [UFixed64(number, v.value)];
        case Delimited =>
          var length := TakeVarint32();
          if length.None? {
            return false, [];
          }
          var value;
          ok, value := RawString(length.value, []);
          return ok, [UDelimited(number, value)];
        case StartGroup =>
          ok, fields := SkipGroup(number);
        case EndGroup =>
          return false, [];
        case Fixed32 =>
          var v := LittleEndian(4);
          if v.None? {
            return false, [];
          }
          return true, [UFixed32(number, v.value)];
        case Invalid =>
          return false, [];
      }
    }

    /** The start-group case of SkipField. */
    method SkipGroup(number: nat) returns (ok: bool, fields: seq<Unknown>)
      requires Valid() && !legitimateMessageEnd
      modifies this
      ensures Valid() && pos >= old(pos) && limit == old(limit)
      ensures if old(depth) >= RECURSION_LIMIT then !ok && fields == []
        else
          var g := SkipMessage(old(Rest()), old(depth) + 1, []);
          && ok == (g.ok && g.lastTag == MakeTag(number, EndGroup)) && fields == [UGroup(number, g.fields)]
          && (ok ==> Rest() == g.rest && depth == old(depth) && !legitimateMessageEnd)
      decreases |Rest()|, 0, 1
    {
      hide SkipMessage, ReadTag;
      var deeper := IncrementRecursionDepth();
      if !deeper {
        return false, [];
      }
      var members;
      ok, members := SkipMembers();
      if !ok {
        return false, [UGroup(number, members)];
      }
      DecrementRecursionDepth();
      ok := lastTag == MakeTag(number, EndGroup);
      fields := [UGroup(number, members)];
    }

    /** SkipMessage: up to an end-group tag, or to where no tag can be read. */
    method SkipMembers() returns (ok: bool, fields: seq<Unknown>)
      requires Valid() && !legitimateMessageEnd
      modifies this
      ensures Valid() && pos >= old(pos) && limit == old(limit)
      ensures var g := SkipMessage(old(Rest()), old(depth), []);
        && ok == g.ok && fields == g.fields
        && (ok ==> lastTag == g.lastTag && depth == old(depth) && (g.lastTag != 0 ==> Rest() == g.rest && !legitimateMessageEnd))
      decreases |Rest()|, 0, 0
    {
      hide SkipField, ReadTag;
      fields := [];
      ghost var data, d := Rest(), depth;
      while true
        invariant Valid() && pos >= old(pos) && limit == old(limit) && depth == d && !legitimateMessageEnd
        invariant SkipMessage(data, d, []) == SkipMessage(Rest(), d, fields)
        decreases |Rest()|
      {
        ghost var here := Rest();
        var tag := TakeTag();
        if tag == 0 {
          return true, fields;
        }
        if TypeOf(tag) == EndGroup {
          return true, fields;
        }
        var more;
        ok, more := SkipUnknown(tag);
        fields := fields + more;
        if !ok {
          return false, fields;
        }
      }
    }
  }
}
