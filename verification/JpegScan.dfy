/** The entropy-coded scan of WriteImage: blocks in scan order with DC prediction per component, and the
    T.81 decoder that recovers them. */
module JpegScan {
  import opened Prelude
  import opened Bits
  import opened Huffman
  import opened BitStream
  import opened HuffmanTables
  import opened JpegBlock
  import opened JpegTables

  /** The coefficients of a block in zig-zag order. */
  function Zigzagged(block: seq<int>): (zz: seq<int>)
    requires |block| == 64
    ensures |zz| == 64
  {
    seq(64, j requires 0 <= j < 64 => block[Zigzag(j)])
  }

  function Unzigzagged(zz: seq<int>): (block: seq<int>)
    requires |zz| == 64
    ensures |block| == 64
  {
    seq(64, i requires 0 <= i < 64 => zz[Visited(i)])
  }

  lemma UnzigzagZigzag(block: seq<int>)
    requires |block| == 64
    ensures Unzigzagged(Zigzagged(block)) == block
  {
    var l := Unzigzagged(Zigzagged(block));
    forall i | 0 <= i < 64 ensures l[i] == block[i] {
      ZigzagVisits(i);
    }
  }

  /** Huffman tables for the luma component and for the two chroma components. */
  datatype Tables = Tables(dc: Spec, ac: Spec)

  predicate Complete(t: Tables) {
    DcComplete(t.dc) && AcComplete(t.ac)
  }

  /** A quantized block and the component it belongs to. */
  datatype Unit = Unit(comp: nat, block: seq<int>)

  function TableOf(comp: nat, luma: Tables, chroma: Tables): Tables {
    if comp > 0 then chroma else luma
  }

  /** What the assertions of the coder demand: categories at most 11 for the DC difference and 10 for AC. */
  predicate UnitCodable(u: Unit, pred: seq<int>) {
    && |pred| == 3 && u.comp < 3 && |u.block| == 64
    && Category(u.block[0] - pred[u.comp]) <= 11
    && AcCodable(Zigzagged(u.block))
  }

  predicate ScanCodable(units: seq<Unit>, pred: seq<int>) {
    units != [] ==> UnitCodable(units[0], pred) && ScanCodable(units[1..], pred[units[0].comp := units[0].block[0]])
  }

  function UnitBits(t: Tables, u: Unit, pred: seq<int>, extra: nat := 0): seq<bool>
    requires Complete(t) && UnitCodable(u, pred)
  {
    DcBits(t.dc, u.block[0] - pred[u.comp]) + AcBits(t.ac, Zigzagged(u.block), 1, 0, extra)
  }

  /** The coded scan, with extra zero runs at the ends of the blocks. */
  function ScanBits(units: seq<Unit>, luma: Tables, chroma: Tables, pred: seq<int>, extras: seq<nat> := []): seq<bool>
    requires Complete(luma) && Complete(chroma) && ScanCodable(units, pred)
  {
    if units == [] then []
    else
      var next := pred[units[0].comp := units[0].block[0]];
      UnitBits(TableOf(units[0].comp, luma, chroma), units[0], pred, First(extras))
        + ScanBits(units[1..], luma, chroma, next, Rest(extras))
  }

  function First(extras: seq<nat>): nat { if extras == [] then 0 else extras[0] }

  function Rest(extras: seq<nat>): seq<nat> { if extras == [] then [] else extras[1..] }

  // ---------- the decoder ----------

  /** One block, T.81 section F.2.2: the DC difference on top of the prediction, then the AC coefficients. */
  function DecodeBlock(t: Tables, bits: seq<bool>, pred: int): (r: Option<(seq<int>, seq<bool>)>)
    requires |t.dc.vals| == Total(t.dc.counts) && |t.ac.vals| == Total(t.ac.counts)
  {
    match DecodeDc(t.dc, bits)
    case None => None
    case Some((diff, rest)) =>
      match DecodeAc(t.ac, rest, 1)
      case None => None
      case Some((ac, rest')) => if |ac| != 63 then None else Some((Unzigzagged([pred + diff] + ac), rest'))
  }

  /** The decoder is told the components of the blocks by the frame header. */
  function DecodeScan(comps: seq<nat>, bits: seq<bool>, luma: Tables, chroma: Tables, pred: seq<int>)
    : Option<(seq<seq<int>>, seq<bool>)>
    requires Complete(luma) && Complete(chroma) && |pred| == 3
  {
    if comps == [] then Some(([], bits))
    else if comps[0] >= 3 then None
    else match DecodeBlock(TableOf(comps[0], luma, chroma), bits, pred[comps[0]])
      case None => None
      case Some((block, rest)) =>
        if |block| != 64 then None
        else match DecodeScan(comps[1..], rest, luma, chroma, pred[comps[0] := block[0]])
          case None => None
          case Some((blocks, rest')) => Some(([block] + blocks, rest'))
  }

  lemma ZigzaggedParts(block: seq<int>)
    requires |block| == 64
    ensures Zigzagged(block) == [block[0]] + Zigzagged(block)[1..]
  {
  }

  lemma DecodeUnitBits(t: Tables, u: Unit, pred: seq<int>, rest: seq<bool>, extra: nat)
    requires Complete(t) && UnitCodable(u, pred)
    ensures DecodeBlock(t, UnitBits(t, u, pred, extra) + rest, pred[u.comp]) == Some((u.block, rest))
  {
    hide DcBits, AcBits, DecodeDc, DecodeAc, Category, Zigzagged, Unzigzagged, AcComplete, DcComplete, AcCodable;
    var diff, zz := u.block[0] - pred[u.comp], Zigzagged(u.block);
    Assoc(DcBits(t.dc, diff), AcBits(t.ac, zz, 1, 0, extra), rest);
    DecodeDcBits(t.dc, diff, AcBits(t.ac, zz, 1, 0, extra) + rest);
    DecodeAcBits(t.ac, zz, 1, 0, rest, extra);
    ZigzaggedParts(u.block);
    UnzigzagZigzag(u.block);
  }

  function Comps(units: seq<Unit>): seq<nat> { seq(|units|, k requires 0 <= k < |units| => units[k].comp) }

  function Blocks(units: seq<Unit>): seq<seq<int>> { seq(|units|, k requires 0 <= k < |units| => units[k].block) }

  /** Every block is recovered, in order and with its DC prediction resolved, and no bit too many is read. */
  lemma {:induction false} DecodeScanBits(units: seq<Unit>, luma: Tables, chroma: Tables, pred: seq<int>, rest: seq<bool>,
      extras: seq<nat> := [])
    requires Complete(luma) && Complete(chroma) && |pred| == 3 && ScanCodable(units, pred)
    ensures DecodeScan(Comps(units), ScanBits(units, luma, chroma, pred, extras) + rest, luma, chroma, pred)
      == Some((Blocks(units), rest))
  {
    hide UnitBits, DecodeBlock, Complete;
    if units == [] {
      assert ScanBits(units, luma, chroma, pred, extras) + rest == rest;
    } else {
      var u, t := units[0], TableOf(units[0].comp, luma, chroma);
      var next := pred[u.comp := u.block[0]];
      var later := ScanBits(units[1..], luma, chroma, next, Rest(extras));
      Assoc(UnitBits(t, u, pred, First(extras)), later, rest);
      DecodeUnitBits(t, u, pred, later + rest, First(extras));
      DecodeScanBits(units[1..], luma, chroma, next, rest, Rest(extras));
      assert Comps(units)[1..] == Comps(units[1..]);
      assert Blocks(units) == [u.block] + Blocks(units[1..]);
    }
  }

  /** From the stored bytes, up to the EOI marker, the decoder recovers the scan and is left with zero bits only. */
  lemma ScanRecovered(units: seq<Unit>, luma: Tables, chroma: Tables)
    requires Complete(luma) && Complete(chroma) && ScanCodable(units, [0, 0, 0])
    ensures var bits := ScanBits(units, luma, chroma, [0, 0, 0]);
      DecodeScan(Comps(units), Unpack(Unstuff(Segment(bits) + EOI)), luma, chroma, [0, 0, 0])
        == Some((Blocks(units), Zeros(Padding(|bits|))))
  {
    hide Unpack, Unstuff, Segment, ScanBits, DecodeScan, Complete, ScanCodable, Padding;
    var bits := ScanBits(units, luma, chroma, [0, 0, 0]);
    SegmentRecovered(bits, EOI);
    DecodeScanBits(units, luma, chroma, [0, 0, 0], Zeros(Padding(|bits|)));
  }

  const EOI: seq<byte> := [0xff, 0xd9]
}
