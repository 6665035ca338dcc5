/**
 * A bulk IN transfer as the chip writes it, octet by octet, from frames and their flags: an encoder
 * that shares nothing with the decoder but the record layout the two agree on.
 */
module ChipFrames {
  import opened Bits
  import opened Bytes
  import opened Codec
  import opened RxRecords

  /**
   * A frame with its CRC; bits 30 and 31 of its status word, of which bit 30 is the filter's verdict;
   * bits 0 to 15, of which bit 15 sums up the errors; and the padding that follows it.
   */
  datatype ChipFrame = ChipFrame(payload: seq<Byte>, crc: seq<Byte>, top: nat, low: nat, pad: seq<Byte>)

  /** The 14 bits of the length hold the frame and its CRC. */
  predicate Legal(f: ChipFrame)
  {
    |f.crc| == 4 && |f.payload| + 4 < 0x4000 && f.top < 4 && f.low < 0x1_0000
  }

  /** The status word, low octet first, then the frame, its CRC and the padding. */
  function FrameBytes(f: ChipFrame): seq<Byte>
    requires Legal(f)
  {
    var len := |f.payload| + 4;
    [f.low % 0x100, f.low / 0x100, len % 0x100, f.top * 0x40 + len / 0x100] + f.payload + f.crc + f.pad
  }

  function TransferBytes(fs: seq<ChipFrame>): seq<Byte>
    requires forall i :: 0 <= i < |fs| ==> Legal(fs[i])
  {
    if fs == [] then [] else FrameBytes(fs[0]) + TransferBytes(fs[1..])
  }

  /** The padding a frame's place in the transfer asks for. */
  predicate PaddedAt(f: ChipFrame, last: bool)
  {
    if last then |f.pad| <= (4 - |f.payload| % 4) % 4
    else |f.pad| < 4 && (|f.payload| + |f.pad|) % 4 == 0
  }

  /** Each frame is padded to the next multiple of four; the padding of the last may be cut short. */
  predicate Padded(fs: seq<ChipFrame>)
  {
    forall i :: 0 <= i < |fs| ==> PaddedAt(fs[i], i == |fs| - 1)
  }

  /** What the stack is owed: no error, meant for this station, and neither empty nor oversize. */
  predicate Wanted(f: ChipFrame)
  {
    f.low < 0x8000 && f.top % 2 == 0 && 1 <= |f.payload| <= 1518
  }

  function WantedPayloads(fs: seq<ChipFrame>): seq<seq<Byte>>
  {
    if fs == [] then [] else (if Wanted(fs[0]) then [fs[0].payload] else []) + WantedPayloads(fs[1..])
  }

  // ---- the frames as slots -------------------------------------------------------------

  function StatusOf(f: ChipFrame): Word
    requires Legal(f)
  {
    f.top * 0x4000_0000 + (|f.payload| + 4) * 0x1_0000 + f.low
  }

  function SlotOf(f: ChipFrame): Slot
    requires Legal(f)
  {
    Slot(Record(StatusOf(f), f.payload + f.crc), f.pad)
  }

  function SlotsOf(fs: seq<ChipFrame>): (slots: seq<Slot>)
    requires forall i :: 0 <= i < |fs| ==> Legal(fs[i])
    ensures |slots| == |fs|
  {
    if fs == [] then [] else [SlotOf(fs[0])] + SlotsOf(fs[1..])
  }

  /** The fields of a status word. */
  lemma StatusFields(top: nat, len: nat, low: nat)
    requires top < 4 && len < 0x4000 && low < 0x1_0000
    ensures var w := top * 0x4000_0000 + len * 0x1_0000 + low;
      w / 0x1_0000 % 0x4000 == len && w / 0x8000 % 2 == low / 0x8000 && w / 0x4000_0000 == top
  {
    var w := top * 0x4000_0000 + len * 0x1_0000 + low;
    QuotientIs(w, 0x1_0000, top * 0x4000 + len, low);
    QuotientIs(top * 0x4000 + len, 0x4000, top, len);
    QuotientIs(w, 0x8000, top * 0x8000 + len * 2 + low / 0x8000, low % 0x8000);
    QuotientIs(top * 0x8000 + len * 2 + low / 0x8000, 2, top * 0x4000 + len, low / 0x8000);
    QuotientIs(w, 0x4000_0000, top, len * 0x1_0000 + low);
  }

  /** The octets of a status word. */
  lemma StatusOctets(top: nat, len: nat, low: nat)
    requires top < 4 && len < 0x4000 && low < 0x1_0000
    ensures var w := top * 0x4000_0000 + len * 0x1_0000 + low;
      && w % 0x100 == low % 0x100 && w / 0x100 % 0x100 == low / 0x100
      && w / 0x100 / 0x100 % 0x100 == len % 0x100
      && w / 0x100 / 0x100 / 0x100 % 0x100 == top * 0x40 + len / 0x100
  {
    var w := top * 0x4000_0000 + len * 0x1_0000 + low;
    var high := top * 0x4000 + len;
    QuotientIs(w, 0x100, high * 0x100 + low / 0x100, low % 0x100);
    QuotientIs(w / 0x100, 0x100, high, low / 0x100);
    QuotientIs(high, 0x100, top * 0x40 + len / 0x100, len % 0x100);
  }

  lemma SlotIsFrame(f: ChipFrame)
    requires Legal(f)
    ensures PackSlot(SlotOf(f)) == FrameBytes(f) && WellFormed(SlotOf(f).rec)
    ensures Good(SlotOf(f).rec) <==> Wanted(f)
    ensures Payload(SlotOf(f).rec) == f.payload
  {
    hide Le32, LenField, HasBit, Power2;
    var w := StatusOf(f);
    StatusFields(f.top, |f.payload| + 4, f.low);
    StatusOctets(f.top, |f.payload| + 4, f.low);
    LenFieldIsQuotient(w);
    Places();
    HasBitIsDigit(w, 15);
    HasBitIsDigit(w, 30);
    OctetsSpelledOut(w);
    assert (f.payload + f.crc)[..|f.payload|] == f.payload;
  }

  lemma PaddingOf(n: nat, pad: nat)
    ensures PadLen(4 + (n + 4)) == (4 - n % 4) % 4
    ensures pad < 4 && (n + pad) % 4 == 0 ==> pad == (4 - n % 4) % 4
  {
  }

  lemma SlotFitsAt(f: ChipFrame, last: bool)
    requires Legal(f) && PaddedAt(f, last)
    ensures SlotFits(SlotOf(f), last)
  {
    hide WellFormed, StatusOf, PackSlot, FrameBytes, PadLen;
    SlotIsFrame(f);
    PaddingOf(|f.payload|, |f.pad|);
    assert |SlotOf(f).rec.body| == |f.payload| + 4;
  }

  lemma {:induction false} TransferIsPacked(fs: seq<ChipFrame>)
    requires (forall i :: 0 <= i < |fs| ==> Legal(fs[i])) && Padded(fs)
    ensures ChipLayout(SlotsOf(fs)) && Pack(SlotsOf(fs)) == TransferBytes(fs)
  {
    hide PackSlot, FrameBytes, WellFormed, StatusOf, SlotFits, PaddedAt, SlotOf;
    if fs != [] {
      SlotIsFrame(fs[0]);
      SlotFitsAt(fs[0], |fs| == 1);
      TransferIsPacked(fs[1..]);
      assert SlotsOf(fs)[1..] == SlotsOf(fs[1..]);
    }
  }

  lemma TransferIsNotEmpty(fs: seq<ChipFrame>)
    requires fs != [] && forall i :: 0 <= i < |fs| ==> Legal(fs[i])
    ensures |TransferBytes(fs)| > 0
  {
  }

  lemma {:induction false} WantedAreGood(fs: seq<ChipFrame>)
    requires forall i :: 0 <= i < |fs| ==> Legal(fs[i])
    ensures GoodPayloads(Records(SlotsOf(fs))) == WantedPayloads(fs)
  {
    hide Good, Payload, Wanted, SlotOf;
    if fs != [] {
      SlotIsFrame(fs[0]);
      WantedAreGood(fs[1..]);
      assert SlotsOf(fs)[1..] == SlotsOf(fs[1..]);
      assert Records(SlotsOf(fs))[1..] == Records(SlotsOf(fs[1..]));
    }
  }

  /** The walk finds, in any transfer the chip writes, exactly its frames, each with its CRC. */
  lemma WalkFindsTheFrames(fs: seq<ChipFrame>)
    requires (forall i :: 0 <= i < |fs| ==> Legal(fs[i])) && Padded(fs)
    ensures var data := TransferBytes(fs); var hits := Walk(data, 0);
      && InBounds(data, hits) && |hits| == |fs|
      && forall i :: 0 <= i < |fs| ==> Read(data, hits)[i].body == fs[i].payload + fs[i].crc
  {
    hide TransferBytes, Walk, ChipLayout, Pack, Padded;
    TransferIsPacked(fs);
    WalkInvertsPack(SlotsOf(fs));
    forall i | 0 <= i < |fs| ensures SlotsOf(fs)[i] == SlotOf(fs[i]) {
      SlotAtIndex(fs, i);
    }
  }

  lemma {:induction false} SlotAtIndex(fs: seq<ChipFrame>, i: nat)
    requires (forall j :: 0 <= j < |fs| ==> Legal(fs[j])) && i < |fs|
    ensures SlotsOf(fs)[i] == SlotOf(fs[i])
  {
    if i > 0 {
      SlotAtIndex(fs[1..], i - 1);
    }
  }
}
