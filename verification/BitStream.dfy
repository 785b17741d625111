/** WorstStreamEver: a byte sink of fixed capacity with a 32-bit bit buffer in front of it. */
module BitStream {
  import opened Bits

  // ---------- what a series of bit writes means ----------

  /** The bytes stored so far, capacity aside, and the bits not yet stored. */
  datatype Sink = Sink(bytes: seq<byte>, pending: seq<bool>)

  function PutBit(s: Sink, bit: bool): Sink {
    if |s.pending| == 31 then Sink(s.bytes + Coded(s.pending + [bit]), [])
    else Sink(s.bytes, s.pending + [bit])
  }

  function PutAll(s: Sink, bits: seq<bool>): Sink {
    if bits == [] then s else PutBit(PutAll(s, bits[..|bits| - 1]), bits[|bits| - 1])
  }

  lemma {:induction false} PutAllConcat(s: Sink, a: seq<bool>, b: seq<bool>)
    ensures PutAll(s, a + b) == PutAll(PutAll(s, a), b)
  {
    if b == [] {
      assert a + b == a;
    } else {
      var n := |b| - 1;
      assert (a + b)[..|a + b| - 1] == a + b[..n];
      PutAllConcat(s, a, b[..n]);
    }
  }

  /** How many of n bits fill whole 32-bit words. */
  function Words(n: nat): (q: nat)
    ensures q <= n < q + 32 && q % 8 == 0
  {
    if n < 32 then 0 else Words(n - 32) + 32
  }

  lemma {:induction false} WordsStep(n: nat)
    ensures Words(n + 1) == if n - Words(n) == 31 then n + 1 else Words(n)
  {
    if n >= 32 { WordsStep(n - 32); }
  }

  /** Bits as they are stored: packed into bytes and stuffed. */
  function Coded(bits: seq<bool>): seq<byte>
    requires |bits| % 8 == 0
  {
    Stuff(Pack(bits))
  }

  lemma CodedConcat(bytes: seq<byte>, a: seq<bool>, b: seq<bool>)
    requires |a| % 8 == 0 && |b| % 8 == 0
    ensures (bytes + Coded(a)) + Coded(b) == bytes + Coded(a + b)
  {
    PackConcat(a, b);
    StuffConcat(Pack(a), Pack(b));
  }

  /** The sink after `bits` on top of `bytes`: whole words are stored, the remainder is pending. */
  function Split(bytes: seq<byte>, bits: seq<bool>): Sink {
    var q := Words(|bits|);
    Sink(bytes + Coded(bits[..q]), bits[q..])
  }

  lemma SnocSlices<T>(s: seq<T>, q: nat, x: T)
    requires q <= |s|
    ensures var all := s + [x];
      && all[..q] == s[..q] && all[q..] == s[q..] + [x]
      && all[..q] + all[q..] == all && all[..|all|] == all && all[|all|..] == []
  {
  }

  lemma SplitStep(bytes: seq<byte>, bits: seq<bool>, b: bool)
    ensures PutBit(Split(bytes, bits), b) == Split(bytes, bits + [b])
  {
    var q, all := Words(|bits|), bits + [b];
    WordsStep(|bits|);
    SnocSlices(bits, q, b);
    if |bits[q..]| == 31 { CodedConcat(bytes, all[..q], all[q..]); }
  }

  lemma {:induction false} PutAllSplits(bytes: seq<byte>, bits: seq<bool>)
    ensures PutAll(Sink(bytes, []), bits) == Split(bytes, bits)
  {
    if bits == [] {
      assert Coded([]) == [] && bytes + [] == bytes;
    } else {
      var n := |bits| - 1;
      PutAllSplits(bytes, bits[..n]);
      SplitStep(bytes, bits[..n], bits[n]);
      assert bits[..n] + [bits[n]] == bits;
    }
  }

  /** FlushLastBits always writes the 32-bit buffer, so it pads with 1 to 32 zero bits. */
  function Flush(s: Sink): seq<byte>
    requires |s.pending| < 32
  {
    s.bytes + Coded(s.pending + Zeros(32 - |s.pending|))
  }

  /** Zero bits that complete the last word, a whole word of them when there is no remainder. */
  function Padding(n: nat): (p: nat)
    ensures 1 <= p <= 32 && (n + p) % 8 == 0
  {
    32 - (n - Words(n))
  }

  /** The entropy-coded segment for a string of bits: padded to whole words, packed and stuffed. */
  function Segment(bits: seq<bool>): seq<byte> {
    Coded(bits + Zeros(Padding(|bits|)))
  }

  /** The bits behind the last whole word: the flush stores them but does not clear them. */
  function LeftOver(bits: seq<bool>): seq<bool> { bits[Words(|bits|)..] }

  lemma TakeDropAppend<T>(s: seq<T>, q: nat, z: seq<T>)
    requires q <= |s|
    ensures s[..q] + (s[q..] + z) == s + z
  {
  }

  lemma FlushSplit(bytes: seq<byte>, bits: seq<bool>)
    ensures Flush(Split(bytes, bits)) == bytes + Segment(bits)
  {
    FlushOnto(bytes, bits, Words(|bits|), Zeros(Padding(|bits|)));
  }

  lemma FlushOnto(bytes: seq<byte>, bits: seq<bool>, q: nat, zeros: seq<bool>)
    requires q <= |bits| && q % 8 == 0 && (|bits| + |zeros|) % 8 == 0
    ensures (bytes + Coded(bits[..q])) + Coded(bits[q..] + zeros) == bytes + Coded(bits + zeros)
  {
    TakeDropAppend(bits, q, zeros);
    CodedConcat(bytes, bits[..q], bits[q..] + zeros);
  }

  lemma PendingAlone(s: Sink)
    requires |s.pending| < 32
    ensures PutAll(Sink(s.bytes, []), s.pending) == s
  {
    PutAllSplits(s.bytes, s.pending);
    assert Coded(s.pending[..0]) == [] && s.bytes + [] == s.bytes;
  }

  /** Whatever was written since the last stored word ends up in one segment, bits left over from before included. */
  lemma FlushStoresSegment(s: Sink, bits: seq<bool>)
    requires |s.pending| < 32
    ensures PutAll(s, bits).pending == LeftOver(s.pending + bits)
    ensures Flush(PutAll(s, bits)) == s.bytes + Segment(s.pending + bits)
  {
    PendingAlone(s);
    PutAllConcat(Sink(s.bytes, []), s.pending, bits);
    PutAllSplits(s.bytes, s.pending + bits);
    FlushSplit(s.bytes, s.pending + bits);
  }

  /** A decoder that un-stuffs up to the next marker gets the bits back, followed by zero bits only. */
  lemma SegmentRecovered(bits: seq<bool>, tail: seq<byte>)
    requires tail == [] || (|tail| > 1 && tail[0] == 0xff && tail[1] != 0x00)
    ensures Unpack(Unstuff(Segment(bits) + tail)) == bits + Zeros(Padding(|bits|))
  {
    var padded := bits + Zeros(Padding(|bits|));
    UnstuffStuff(Pack(padded), tail);
    UnpackPack(padded);
  }

  // ---------- a stream that is used again ----------

  predicate NoOnes(bits: seq<bool>) { forall i :: 0 <= i < |bits| ==> !bits[i] }

  /** Bits that come back every k places and end with k zeros are all zeros. */
  lemma {:induction false} PeriodicZeros(t: seq<bool>, k: nat, i: nat)
    requires 0 < k <= |t| && i < |t|
    requires forall j :: 0 <= j < |t| - k ==> t[j] == t[j + k]
    requires forall j :: |t| - k <= j < |t| ==> !t[j]
    ensures !t[i]
    decreases |t| - i
  {
    if i < |t| - k { PeriodicZeros(t, k, i + k); }
  }

  lemma PaddedSame(p: seq<bool>, bits: seq<bool>, a: nat, b: nat)
    requires p != [] && p + bits + Zeros(a) == bits + Zeros(b)
    ensures NoOnes(p + bits)
  {
    var t := bits + Zeros(b);
    assert |t| == |p| + |bits| + a;
    forall j | 0 <= j < |t| - |p| ensures t[j] == t[j + |p|] {
      assert t[j + |p|] == (p + bits + Zeros(a))[j + |p|];
    }
    forall i | 0 <= i < |p + bits| ensures !(p + bits)[i] {
      PeriodicZeros(t, |p|, i);
      assert (p + bits)[i] == t[i];
    }
  }

  lemma ZerosThroughout(bits: seq<bool>, n: nat)
    requires NoOnes(bits)
    ensures bits + Zeros(n) == Zeros(|bits| + n)
  {
  }

  function Padded(bits: seq<bool>): seq<bool> { bits + Zeros(Padding(|bits|)) }

  lemma SegmentsDiffer(a: seq<bool>, b: seq<bool>)
    ensures Segment(a) == Segment(b) <==> Padded(a) == Padded(b)
  {
    hide Unstuff, Unpack, Coded, Padding;
    SegmentRecovered(a, []);
    SegmentRecovered(b, []);
    assert Segment(a) + [] == Segment(a) && Segment(b) + [] == Segment(b);
  }

  lemma PaddedLength(bits: seq<bool>)
    ensures |Padded(bits)| == Words(|bits|) + 32
  {
  }

  lemma PaddedNoOnes(bits: seq<bool>)
    requires NoOnes(bits)
    ensures Padded(bits) == Zeros(Words(|bits|) + 32)
  {
    hide Words, Padding, Zeros, NoOnes;
    PaddedCount(|bits|);
    ZerosThroughout(bits, Padding(|bits|));
  }

  lemma PaddedCount(n: nat)
    ensures n + Padding(n) == Words(n) + 32
  {
  }

  lemma NoOnesBehind(p: seq<bool>, bits: seq<bool>)
    requires NoOnes(p + bits)
    ensures NoOnes(bits)
  {
    forall i | 0 <= i < |bits| ensures !bits[i] { assert bits[i] == (p + bits)[|p| + i]; }
  }

  /** Bits left over from before change the segment that is stored, unless neither they nor the new bits have a one in
      them and they do not fill another word. */
  lemma LeftOverBitsHarmlessIff(p: seq<bool>, bits: seq<bool>)
    ensures Segment(p + bits) == Segment(bits) <==> p == [] || (NoOnes(p + bits) && Words(|p| + |bits|) == Words(|bits|))
  {
    hide Words, Segment, Padding, NoOnes;
    SegmentsDiffer(p + bits, bits);
    if p == [] {
      assert p + bits == bits;
    } else if Padded(p + bits) == Padded(bits) {
      PaddedSame(p, bits, Padding(|p + bits|), Padding(|bits|));
      PaddedLength(p + bits);
      PaddedLength(bits);
    } else if NoOnes(p + bits) && Words(|p| + |bits|) == Words(|bits|) {
      NoOnesBehind(p, bits);
      PaddedNoOnes(p + bits);
      PaddedNoOnes(bits);
    }
  }

  // ---------- the class ----------

  /** 0x01 << offset. */
  function Mask(offset: nat): byte
    requires offset < 8
  {
    match offset
    case 0 => 0x01 case 1 => 0x02 case 2 => 0x04 case 3 => 0x08
    case 4 => 0x10 case 5 => 0x20 case 6 => 0x40 case 7 => 0x80
  }

  lemma MaskSetsBit(b: byte, offset: nat, other: nat)
    requires offset < 8 && other < 8
    ensures (b | Mask(offset)) & Mask(other) != 0 <==> offset == other || b & Mask(other) != 0
  {
    match offset
    case 0 => case 1 => case 2 => case 3 => case 4 => case 5 => case 6 => case 7 =>
  }

  lemma ByteBitAt(b: byte, k: nat)
    requires k < 8
    ensures ByteBits(b)[k] <==> b & Mask(7 - k) != 0
  {
  }

  lemma SetBitInByte(b: byte, offset: nat)
    requires offset < 8
    ensures ByteBits(b | Mask(offset)) == ByteBits(b)[7 - offset := true]
  {
    hide ByteBits, Mask;
    var l, r := ByteBits(b | Mask(offset)), ByteBits(b)[7 - offset := true];
    forall k | 0 <= k < 8 ensures l[k] == r[k] {
      ByteBitAt(b, k);
      ByteBitAt(b | Mask(offset), k);
      MaskSetsBit(b, offset, 7 - k);
    }
  }

  function Bits32(b: seq<byte>): (r: seq<bool>)
    requires |b| == 4
    ensures |r| == 32
  {
    Join(ByteBits(b[0]), ByteBits(b[1]), ByteBits(b[2]), ByteBits(b[3]))
  }

  function Join(w0: seq<bool>, w1: seq<bool>, w2: seq<bool>, w3: seq<bool>): seq<bool> {
    w0 + w1 + w2 + w3
  }

  lemma JoinUpdate(w0: seq<bool>, w1: seq<bool>, w2: seq<bool>, w3: seq<bool>, a: nat, i: nat)
    requires |w0| == |w1| == |w2| == |w3| == 8 && a < 4 && i < 8
    ensures Join(w0, w1, w2, w3)[8 * a + i := true] ==
      if a == 0 then Join(w0[i := true], w1, w2, w3)
      else if a == 1 then Join(w0, w1[i := true], w2, w3)
      else if a == 2 then Join(w0, w1, w2[i := true], w3)
      else Join(w0, w1, w2, w3[i := true])
  {
  }

  lemma SetBitInWord(b: seq<byte>, a: nat, offset: nat, b': seq<byte>)
    requires |b| == 4 && a < 4 && offset < 8 && b' == b[a := b[a] | Mask(offset)]
    ensures Bits32(b') == Bits32(b)[8 * a + (7 - offset) := true]
  {
    hide ByteBits, Mask, Join;
    SetBitInByte(b[a], offset);
    JoinUpdate(ByteBits(b[0]), ByteBits(b[1]), ByteBits(b[2]), ByteBits(b[3]), a, 7 - offset);
  }

  lemma PackOne(w: seq<bool>)
    requires |w| == 8
    ensures Pack(w) == [ByteOf(w)]
  {
    assert w[..8] == w && w[8..] == [];
  }

  lemma PackJoin(w0: seq<bool>, w1: seq<bool>, w2: seq<bool>, w3: seq<bool>)
    requires |w0| == |w1| == |w2| == |w3| == 8
    ensures Pack(Join(w0, w1, w2, w3)) == [ByteOf(w0), ByteOf(w1), ByteOf(w2), ByteOf(w3)]
  {
    PackOne(w0); PackOne(w1); PackOne(w2); PackOne(w3);
    PackConcat(w0, w1);
    PackConcat(w0 + w1, w2);
    PackConcat(w0 + w1 + w2, w3);
  }

  lemma PackBits32(b: seq<byte>)
    requires |b| == 4
    ensures Pack(Bits32(b)) == b
  {
    PackJoin(ByteBits(b[0]), ByteBits(b[1]), ByteBits(b[2]), ByteBits(b[3]));
    ByteOfByteBits(b[0]); ByteOfByteBits(b[1]); ByteOfByteBits(b[2]); ByteOfByteBits(b[3]);
  }

  /** Writing the next bit into a buffer that is clear from position k on. */
  lemma BufferStep(word: seq<bool>, k: nat, bit: bool)
    requires |word| == 32 && k < 32 && word[k..] == Zeros(32 - k)
    ensures var w := if bit then word[k := true] else word;
      w[..k + 1] == word[..k] + [bit] && w[k + 1..] == Zeros(31 - k)
  {
    assert word[k..][0] == word[k];
    assert word[k + 1..] == word[k..][1..];
  }

  lemma BitLocation(l: nat)
    requires l < 32
    ensures 0 <= 3 - l / 8 < 4 && 8 * (3 - l / 8) + (7 - l % 8) == 31 - l
  {
  }

  lemma ZeroWord()
    ensures Bits32([0, 0, 0, 0]) == Zeros(32)
  {
  }

  class WorstStreamEver {
    const putbuf: array<byte>
    var putbufCurBit: int
    const memory: array<byte>
    var memloc: nat
    ghost var requested: seq<byte>   // every byte PutByte was given, stored or not

    /** The stored bytes are the requested ones, cut at the capacity. */
    ghost predicate Stored()
      reads this, memory
    {
      && putbuf.Length == 4 && putbuf != memory
      && memloc == (if |requested| <= memory.Length then |requested| else memory.Length)
      && memory[..memloc] == requested[..memloc]
    }

    /** Bit positions from putbufCurBit down are still clear. */
    ghost predicate Valid()
      reads this, putbuf, memory
    {
      && Stored()
      && 0 <= putbufCurBit <= 31
      && Bits32(putbuf[..])[31 - putbufCurBit..] == Zeros(putbufCurBit + 1)
    }

    ghost function Contents(): (s: Sink)
      requires Valid()
      reads this, putbuf, memory
      ensures |s.pending| < 32
    {
      Sink(requested, Bits32(putbuf[..])[..31 - putbufCurBit])
    }

    constructor (maxsize: nat)
      ensures Valid() && fresh(putbuf) && fresh(memory) && memory.Length == maxsize
      ensures Contents() == Sink([], [])
    {
      memory := new byte[maxsize];
      memloc := 0;
      putbuf := new byte[4](_ => 0);
      putbufCurBit := 31;
      requested := [];
      new;
      assert putbuf[..] == [0, 0, 0, 0];
      ZeroWord();
    }

    /** What is stored is a prefix of what was requested, cut at the capacity. */
    method GetBuffer() returns (data: seq<byte>)
      requires Stored()
      ensures data == if |requested| <= memory.Length then requested else requested[..memory.Length]
    {
      data := memory[..memloc];
    }

    method PutByte(b: byte)
      requires Stored()
      modifies this`memloc, this`requested, memory
      ensures Stored() && requested == old(requested) + [b]
    {
      requested := requested + [b];
      if memloc >= memory.Length {
        return;
      }
      memory[memloc] := b;
      memloc := memloc + 1;
    }

    method PutBytes(data: seq<byte>)
      requires Stored()
      modifies this`memloc, this`requested, memory
      ensures Stored() && requested == old(requested) + data
    {
      var i := 0;
      while i < |data|
        invariant 0 <= i <= |data|
        invariant Stored() && requested == old(requested) + data[..i]
      {
        PutByte(data[i]);
        i := i + 1;
      }
    }

    method SetBit(bit: bool, bitlocation: nat)
      requires putbuf.Length == 4 && bitlocation < 32
      modifies putbuf
      ensures Bits32(putbuf[..]) ==
        if bit then old(Bits32(putbuf[..]))[31 - bitlocation := true] else old(Bits32(putbuf[..]))
    {
      var arrloc := 3 - bitlocation / 8;
      var offset := bitlocation % 8;
      BitLocation(bitlocation);
      if bit {
        ghost var w := putbuf[..];
        putbuf[arrloc] := putbuf[arrloc] | Mask(offset);
        SetBitInWord(w, arrloc, offset, putbuf[..]);
      }
    }

    /** The loop shared by Put and FlushLastBits: the four buffered bytes, stuffed. */
    method PutBuffered()
      requires Stored()
      modifies this`memloc, this`requested, memory
      ensures Stored() && requested == old(requested) + Stuff(putbuf[..])
    {
      var i := 0;
      while i < 4
        invariant 0 <= i <= 4
        invariant Stored() && requested == old(requested) + Stuff(putbuf[..i])
      {
        ghost var before := requested;
        PutByte(putbuf[i]);
        if putbuf[i] == 0xff {
          PutByte(0x00);
        }
        assert requested == before + Stuff([putbuf[i]]) by { assert [putbuf[i]][1..] == []; }
        StuffConcat(putbuf[..i], [putbuf[i]]);
        assert putbuf[..i + 1] == putbuf[..i] + [putbuf[i]];
        i := i + 1;
      }
      assert putbuf[..4] == putbuf[..];
    }

    method ClearBuffer()
      requires putbuf.Length == 4
      modifies putbuf
      ensures Bits32(putbuf[..]) == Zeros(32)
    {
      putbuf[0], putbuf[1], putbuf[2], putbuf[3] := 0, 0, 0, 0;
      assert putbuf[..] == [0, 0, 0, 0];
      ZeroWord();
    }

    /** One round of the loop in Put. */
    method PutOne(bit: bool)
      requires Valid()
      modifies this, putbuf, memory
      ensures Valid() && Contents() == PutBit(old(Contents()), bit)
    {
      ghost var k := 31 - putbufCurBit;
      ghost var word := Bits32(putbuf[..]);
      BufferStep(word, k, bit);
      if bit {
        SetBit(true, putbufCurBit);
      }
      ghost var word' := Bits32(putbuf[..]);
      assert word' == if bit then word[k := true] else word;
      if putbufCurBit == 0 {
        putbufCurBit := 31;
        assert word'[..32] == word';
        StoreWord();
      } else {
        putbufCurBit := putbufCurBit - 1;
      }
    }

    method StoreWord()
      requires Stored() && putbufCurBit == 31
      modifies this`memloc, this`requested, putbuf, memory
      ensures Valid() && Contents() == Sink(old(requested) + Coded(old(Bits32(putbuf[..]))), [])
    {
      PackBits32(putbuf[..]);
      PutBuffered();
      ClearBuffer();
    }

    /** Put writes the low `bits` bits of val, most significant first. */
    method Put(val: int, bits: nat)
      requires Valid() && bits < 32
      modifies this, putbuf, memory
      ensures Valid() && Contents() == PutAll(old(Contents()), Low(val, bits))
    {
      ghost var all := Low(val, bits);
      var i := bits - 1;
      while i >= 0
        invariant -1 <= i < bits
        invariant Valid() && Contents() == PutAll(old(Contents()), all[..bits - 1 - i])
      {
        LowBit(val, bits, i);
        assert all[..bits - i] == all[..bits - 1 - i] + [all[bits - 1 - i]];
        PutOne(Shr(val, i) % 2 == 1);
        i := i - 1;
      }
      assert all[..bits] == all;
    }

    /** The buffer is written as it stands and not cleared. */
    method FlushLastBits()
      requires Valid()
      modifies this`memloc, this`requested, memory
      ensures Valid() && requested == Flush(old(Contents()))
    {
      ghost var word := Bits32(putbuf[..]);
      assert word == word[..31 - putbufCurBit] + word[31 - putbufCurBit..];
      PackBits32(putbuf[..]);
      PutBuffered();
    }
  }
}
