/** Bit strings, most significant bit first, and their byte and integer readings. */
module Bits {
  import opened Prelude

  type byte = bv8

  function Pow2(n: nat): (p: nat)
    ensures p >= 1
  {
    if n == 0 then 1 else 2 * Pow2(n - 1)
  }

  lemma {:induction false} Pow2Monotonic(n: nat, m: nat)
    requires n <= m
    ensures Pow2(n) <= Pow2(m)
  {
    if n < m { Pow2Monotonic(n, m - 1); }
  }

  lemma Pow2Known()
    ensures Pow2(11) == 0x800 && Pow2(16) == 0x1_0000
  {
    assert Pow2(4) == 0x10 && Pow2(6) == 0x40 && Pow2(8) == 0x100 && Pow2(10) == 0x400;
    assert Pow2(12) == 0x1000 && Pow2(14) == 0x4000;
  }

  /** val >> i of C, for any sign: i halvings rounding down. */
  function Shr(val: int, i: nat): int
    decreases i
  {
    if i == 0 then val else Shr(val / 2, i - 1)
  }

  /** The low n bits of val in two's complement. */
  function Low(val: int, n: nat): (b: seq<bool>)
    ensures |b| == n
    decreases n
  {
    if n == 0 then [] else Low(val / 2, n - 1) + [val % 2 == 1]
  }

  function Value(b: seq<bool>): nat {
    if b == [] then 0 else 2 * Value(b[..|b| - 1]) + (if b[|b| - 1] then 1 else 0)
  }

  lemma {:induction false} LowBit(val: int, n: nat, i: nat)
    requires i < n
    ensures Low(val, n)[n - 1 - i] <==> Shr(val, i) % 2 == 1
    decreases i
  {
    if i > 0 { LowBit(val / 2, n - 1, i - 1); }
  }

  lemma {:induction false} ValueBound(b: seq<bool>)
    ensures Value(b) < Pow2(|b|)
  {
    if b != [] { ValueBound(b[..|b| - 1]); }
  }

  lemma {:induction false} ValueOfLow(v: nat, n: nat)
    requires v < Pow2(n)
    ensures Value(Low(v, n)) == v
  {
    if n > 0 {
      ValueOfLow(v / 2, n - 1);
      assert Low(v, n)[..n - 1] == Low(v / 2, n - 1);
    }
  }

  lemma {:induction false} LowOfValue(b: seq<bool>)
    ensures Low(Value(b), |b|) == b
  {
    if b != [] {
      LowOfValue(b[..|b| - 1]);
      assert b == b[..|b| - 1] + [b[|b| - 1]];
    }
  }

  /** Only the residue modulo 2^n reaches the low n bits. */
  lemma {:induction false} LowPeriodic(val: int, n: nat)
    ensures Low(val + Pow2(n), n) == Low(val, n)
    decreases n
  {
    if n > 0 {
      assert (val + Pow2(n)) / 2 == val / 2 + Pow2(n - 1);
      LowPeriodic(val / 2, n - 1);
    }
  }

  function Zeros(n: nat): seq<bool> { seq(n, _ => false) }

  lemma {:induction false} LowZero(n: nat)
    ensures Low(0, n) == Zeros(n)
  {
    if n > 0 { LowZero(n - 1); }
  }

  // ---------- bytes ----------

  function ByteBits(b: byte): (r: seq<bool>)
    ensures |r| == 8
  {
    [b & 0x80 != 0, b & 0x40 != 0, b & 0x20 != 0, b & 0x10 != 0, b & 0x08 != 0, b & 0x04 != 0, b & 0x02 != 0, b & 0x01 != 0]
  }

  function Bit(b: bool, v: byte): byte { if b then v else 0 }

  function ByteOf(b: seq<bool>): byte
    requires |b| == 8
  {
    Bit(b[0], 0x80) | Bit(b[1], 0x40) | Bit(b[2], 0x20) | Bit(b[3], 0x10) |
    Bit(b[4], 0x08) | Bit(b[5], 0x04) | Bit(b[6], 0x02) | Bit(b[7], 0x01)
  }

  lemma ByteOfByteBits(b: byte)
    ensures ByteOf(ByteBits(b)) == b
  {
  }

  lemma ByteBitsOfByte(b: seq<bool>)
    requires |b| == 8
    ensures ByteBits(ByteOf(b)) == b
  {
  }

  function Unpack(bytes: seq<byte>): (r: seq<bool>)
    ensures |r| == 8 * |bytes|
  {
    if bytes == [] then [] else ByteBits(bytes[0]) + Unpack(bytes[1..])
  }

  function Pack(b: seq<bool>): (r: seq<byte>)
    requires |b| % 8 == 0
    ensures 8 * |r| == |b|
  {
    if b == [] then [] else [ByteOf(b[..8])] + Pack(b[8..])
  }

  lemma {:induction false} UnpackPack(b: seq<bool>)
    requires |b| % 8 == 0
    ensures Unpack(Pack(b)) == b
  {
    if b != [] {
      UnpackPack(b[8..]);
      ByteBitsOfByte(b[..8]);
      assert Pack(b)[1..] == Pack(b[8..]);
    }
  }

  lemma {:induction false} PackConcat(a: seq<bool>, b: seq<bool>)
    requires |a| % 8 == 0 && |b| % 8 == 0
    ensures Pack(a + b) == Pack(a) + Pack(b)
  {
    if a == [] {
      assert a + b == b;
    } else {
      assert (a + b)[..8] == a[..8] && (a + b)[8..] == a[8..] + b;
      PackConcat(a[8..], b);
    }
  }

  // ---------- byte stuffing ----------

  /** T.81 section B.1.1.5: a zero byte follows every 0xFF of the entropy-coded data. */
  function Stuff(bytes: seq<byte>): seq<byte> {
    if bytes == [] then [] else (if bytes[0] == 0xff then [0xff, 0x00] else [bytes[0]]) + Stuff(bytes[1..])
  }

  /** What a decoder reads: a stuffed zero is dropped, any other byte after 0xFF is a marker and ends the data. */
  function Unstuff(bytes: seq<byte>): seq<byte> {
    if bytes == [] then []
    else if bytes[0] != 0xff then [bytes[0]] + Unstuff(bytes[1..])
    else if |bytes| > 1 && bytes[1] == 0x00 then [0xff] + Unstuff(bytes[2..])
    else []
  }

  lemma {:induction false} StuffConcat(a: seq<byte>, b: seq<byte>)
    ensures Stuff(a + b) == Stuff(a) + Stuff(b)
  {
    if a == [] {
      assert a + b == b;
    } else {
      assert (a + b)[1..] == a[1..] + b;
      StuffConcat(a[1..], b);
    }
  }

  lemma UnstuffStep(b: byte, rest: seq<byte>)
    ensures Unstuff(Stuff([b]) + rest) == [b] + Unstuff(rest)
  {
    var first: seq<byte> := if b == 0xff then [0xff, 0x00] else [b];
    assert [b][1..] == [] && Stuff([b]) == first;
    assert (first + rest)[|first|..] == rest;
  }

  /** Un-stuffing recovers the data, up to the first marker behind it. */
  lemma {:induction false} UnstuffStuff(a: seq<byte>, tail: seq<byte>)
    requires tail == [] || (|tail| > 1 && tail[0] == 0xff && tail[1] != 0x00)
    ensures Unstuff(Stuff(a) + tail) == a
  {
    if a == [] {
      assert Stuff(a) + tail == tail;
    } else {
      var b, r := a[0], a[1..];
      assert a == [b] + r;
      StuffConcat([b], r);
      Assoc(Stuff([b]), Stuff(r), tail);
      UnstuffStep(b, Stuff(r) + tail);
      UnstuffStuff(r, tail);
    }
  }

  /** No marker can appear in stuffed data: every 0xFF is followed by a zero byte. */
  lemma {:induction false} NoMarker(a: seq<byte>, i: nat)
    requires i < |Stuff(a)| && Stuff(a)[i] == 0xff
    ensures i + 1 < |Stuff(a)| && Stuff(a)[i + 1] == 0x00
  {
    var n := if a[0] == 0xff then 2 else 1;
    if i >= n { NoMarker(a[1..], i - n); }
  }
}
