/**
 * The two wire formats of common/smsc95xx_proto.c: the records the chip packs into one bulk IN
 * transfer, and the command header that precedes a frame on the bulk OUT endpoint.
 */
module Codec {
  import opened Bits
  import opened Bytes

  const RX_HEADER_LEN := 4
  const RX_CRC_LEN := 4
  const RX_LEN_MASK: Word := 0x3FFF_0000
  const RX_ERROR_SUM: Word := 0x8000
  const RX_FILTER_FAIL: Word := 0x4000_0000

  const TX_HEADER_LEN := 8
  const TX_LEN_MASK: Word := 0x7FF
  const TX_LAST_SEG: Word := 0x1000
  const TX_FIRST_SEG: Word := 0x2000
  const FRAME_MIN := 42
  const FRAME_MAX := 1514

  // ---- receive: the record walk --------------------------------------------------------

  /** Bits 16..29 of a status word: the record's length, CRC included. */
  function LenField(status: Word): nat
  {
    Shr(And(status, RX_LEN_MASK), 16)
  }

  lemma LenFieldIsQuotient(status: Word)
    ensures LenField(status) == status / 0x1_0000 % 0x4000
  {
    hide And, Shl, Shr, Power2;
    Places();
    ShlIsProduct(0x3FFF, 16);
    AndShifted(status, 0x3FFF, 16);
    ShrIsQuotient(status, 16);
    AndLow(status / 0x1_0000, 14);
    ShlIsProduct(status / 0x1_0000 % 0x4000, 16);
    ShrIsQuotient(And(status, RX_LEN_MASK), 16);
  }

  /** Octets from the end of a record of `used` octets to the next 4-octet boundary. */
  function PadLen(used: nat): nat
  {
    (4 - used % 4) % 4
  }

  /** One decoded record: its status word, where its frame lies, and where the walk resumes. */
  datatype Hit = Hit(status: Word, from: nat, len: nat, next: nat)

  /** What one call of smsc95xx_rx_next finds at offset `at`. */
  function Next(data: seq<Byte>, at: nat): Option<Hit>
  {
    if at + RX_HEADER_LEN > |data| then
      None
    else
      var status := FromLe32(data[at..at + 4]);
      var len := LenField(status);
      if len < RX_CRC_LEN || at + RX_HEADER_LEN + len > |data| then
        None
      else
        Some(Hit(status, at + 4, len, at + 4 + len + PadLen(4 + len)))
  }

  /** All the records that repeated calls decode, from offset `at` until one answers false. */
  function Walk(data: seq<Byte>, at: nat): seq<Hit>
    decreases |data| + 4 - at
  {
    match Next(data, at)
    case None => []
    case Some(hit) => [hit] + Walk(data, hit.next)
  }

  /** The C function: `offset`, `frame`, `frameLen` and `status` are its in-out pointers. */
  method RxNext(buf: array<Byte>, len: nat, offset0: nat, frame0: nat, frameLen0: nat, status0: Word)
    returns (ok: bool, offset: nat, frame: nat, frameLen: nat, status: Word)
    requires len <= buf.Length
    ensures ok <==> Next(buf[..len], offset0).Some?
    ensures ok ==> Next(buf[..len], offset0) == Some(Hit(status, frame, frameLen, offset))
    ensures !ok ==> offset == offset0 && frame == frame0 && frameLen == frameLen0 && status == status0
  {
    offset, frame, frameLen, status := offset0, frame0, frameLen0, status0;
    ghost var data := buf[..len];
    if offset + RX_HEADER_LEN > len {
      return false, offset, frame, frameLen, status;
    }
    var sts: Word := FromOctets(buf[offset], buf[offset + 1], buf[offset + 2], buf[offset + 3]);
    assert data[offset..offset + 4] == [buf[offset], buf[offset + 1], buf[offset + 2], buf[offset + 3]];
    var flen := Shr(And(sts, RX_LEN_MASK), 16);
    if flen < RX_CRC_LEN {
      return false, offset, frame, frameLen, status;
    }
    if offset + RX_HEADER_LEN + flen > len {
      return false, offset, frame, frameLen, status;
    }
    frame, frameLen, status := offset + RX_HEADER_LEN, flen, sts;
    var used := RX_HEADER_LEN + flen;
    offset := offset + used + (4 - used % 4) % 4;
    ok := true;
  }

  // ---- receive: the encoder the walk inverts -------------------------------------------

  /** A frame as the chip hands it over: a status word and the octets, CRC included. */
  datatype Record = Record(status: Word, body: seq<Byte>)

  /** A record with the padding that follows it in the transfer. */
  datatype Slot = Slot(rec: Record, pad: seq<Byte>)

  /** The length field counts the body; every other bit of the status word is free. */
  predicate WellFormed(r: Record)
  {
    4 <= |r.body| == LenField(r.status)
  }

  /** A slot is padded to 4 octets; the padding of the last one may be cut short. */
  predicate SlotFits(s: Slot, last: bool)
  {
    var pad := PadLen(4 + |s.rec.body|);
    WellFormed(s.rec) && if last then |s.pad| <= pad else |s.pad| == pad
  }

  /** Slots as the chip lays them out in one transfer. */
  predicate ChipLayout(slots: seq<Slot>)
  {
    slots != [] ==> SlotFits(slots[0], |slots| == 1) && ChipLayout(slots[1..])
  }

  function PackSlot(s: Slot): seq<Byte>
  {
    Le32(s.rec.status) + s.rec.body + s.pad
  }

  function Pack(slots: seq<Slot>): seq<Byte>
  {
    if slots == [] then [] else PackSlot(slots[0]) + Pack(slots[1..])
  }

  function Records(slots: seq<Slot>): (rs: seq<Record>)
    ensures |rs| == |slots|
    ensures forall i :: 0 <= i < |rs| ==> rs[i] == slots[i].rec
  {
    if slots == [] then [] else [slots[0].rec] + Records(slots[1..])
  }

  /** Hits whose frames lie inside the transfer. */
  predicate InBounds(data: seq<Byte>, hits: seq<Hit>)
  {
    forall i :: 0 <= i < |hits| ==> hits[i].from + hits[i].len <= |data|
  }

  /** The records that the hits point at. */
  function Read(data: seq<Byte>, hits: seq<Hit>): (rs: seq<Record>)
    requires InBounds(data, hits)
    ensures |rs| == |hits|
  {
    if hits == [] then []
    else [Record(hits[0].status, data[hits[0].from..hits[0].from + hits[0].len])] + Read(data, hits[1..])
  }

  /**
   * On any octets whatever: frames lie in bounds, in order and apart by a whole header, the offset
   * stays 4-aligned and at most 3 past the end, and there are at most len/8 records.
   */
  lemma {:induction false} WalkGeometry(data: seq<Byte>, at: nat)
    requires at % 4 == 0
    ensures var hits := Walk(data, at);
      && InBounds(data, hits)
      && (forall i :: 0 <= i < |hits| ==>
            && at + 4 <= hits[i].from
            && 4 <= hits[i].len == LenField(hits[i].status)
            && hits[i].next % 4 == 0
            && hits[i].from + hits[i].len <= hits[i].next <= |data| + 3)
      && (forall i, j :: 0 <= i < j < |hits| ==> hits[i].next + 4 <= hits[j].from)
      && (hits != [] ==> at + 8 * |hits| <= |data|)
    decreases |data| + 4 - at
  {
    match Next(data, at)
    case None =>
    case Some(hit) =>
      WalkGeometry(data, hit.next);
  }

  /** A well-formed record is the next thing the walk decodes, whatever surrounds it. */
  lemma NextFindsRecord(pre: seq<Byte>, r: Record, rest: seq<Byte>)
    requires WellFormed(r)
    ensures var data := pre + (Le32(r.status) + r.body + rest); var n := |r.body|;
      && Next(data, |pre|) == Some(Hit(r.status, |pre| + 4, n, |pre| + 4 + n + PadLen(4 + n)))
      && data[|pre| + 4..|pre| + 4 + n] == r.body
  {
    var data := pre + (Le32(r.status) + r.body + rest);
    assert data[|pre|..|pre| + 4] == Le32(r.status);
    FromLe32InvertsLe32(r.status);
  }

  /** The offset past the octets that remain ends the walk. */
  lemma WalkEnds(data: seq<Byte>, at: nat)
    requires |data| < at + 4
    ensures Walk(data, at) == []
  {
  }

  lemma PackPrefix(pre: seq<Byte>, slots: seq<Slot>)
    requires slots != []
    ensures var s := slots[0];
      && pre + Pack(slots) == pre + PackSlot(s) + Pack(slots[1..])
      && pre + Pack(slots) == pre + (Le32(s.rec.status) + s.rec.body + (s.pad + Pack(slots[1..])))
  {
    hide PackSlot;
    var s, rest := slots[0], Pack(slots[1..]);
    Regroup(pre, PackSlot(s), rest);
    assert PackSlot(s) + rest == Le32(s.rec.status) + s.rec.body + (s.pad + rest) by {
      PackSlotIs(s);
      Regroup(Le32(s.rec.status) + s.rec.body, s.pad, rest);
    }
  }

  lemma Regroup<T>(a: seq<T>, b: seq<T>, c: seq<T>)
    ensures a + b + c == a + (b + c)
  {
  }

  lemma PackSlotIs(s: Slot)
    ensures PackSlot(s) == Le32(s.rec.status) + s.rec.body + s.pad
  {
  }

  /** The first slot packed after `pre` is the first hit of the walk from there. */
  lemma FirstHit(pre: seq<Byte>, slots: seq<Slot>)
    requires slots != [] && WellFormed(slots[0].rec)
    ensures var data := pre + Pack(slots); var r := slots[0].rec; var n := |r.body|;
      var next := |pre| + 4 + n + PadLen(4 + n);
      && |pre| + 4 + n <= |data| && data[|pre| + 4..|pre| + 4 + n] == r.body
      && Walk(data, |pre|) == [Hit(r.status, |pre| + 4, n, next)] + Walk(data, next)
  {
    hide Le32, FromLe32, LenField, PadLen, PackSlot, WellFormed, Next;
    PackPrefix(pre, slots);
    NextFindsRecord(pre, slots[0].rec, slots[0].pad + Pack(slots[1..]));
  }

  lemma ReadCons(data: seq<Byte>, hit: Hit, hits: seq<Hit>)
    requires hit.from + hit.len <= |data| && InBounds(data, hits)
    ensures InBounds(data, [hit] + hits)
    ensures Read(data, [hit] + hits) == [Record(hit.status, data[hit.from..hit.from + hit.len])] + Read(data, hits)
  {
    var all := [hit] + hits;
    assert all[0] == hit && all[1..] == hits;
    assert Read(data, all)
        == [Record(all[0].status, data[all[0].from..all[0].from + all[0].len])] + Read(data, all[1..]);
  }

  /** The walk of what the chip packed is exactly the records it packed, after any prefix. */
  lemma {:induction false} WalkInvertsPackAfter(pre: seq<Byte>, slots: seq<Slot>)
    requires ChipLayout(slots)
    ensures var data := pre + Pack(slots); var hits := Walk(data, |pre|);
      InBounds(data, hits) && Read(data, hits) == Records(slots)
    decreases |slots|
  {
    hide Le32, FromLe32, LenField, PadLen, Walk;
    var data := pre + Pack(slots);
    if slots == [] {
      WalkEnds(data, |pre|);
    } else {
      var s, n := slots[0], |slots[0].rec.body|;
      FirstHit(pre, slots);
      PackPrefix(pre, slots);
      var next := |pre| + 4 + n + PadLen(4 + n);
      if |slots| == 1 {
        WalkEnds(data, next);
      } else {
        WalkInvertsPackAfter(pre + PackSlot(s), slots[1..]);
      }
      ReadCons(data, Hit(s.rec.status, |pre| + 4, n, next), Walk(data, next));
    }
  }

  /** The walk inverts the encoder. */
  lemma WalkInvertsPack(slots: seq<Slot>)
    requires ChipLayout(slots)
    ensures var hits := Walk(Pack(slots), 0);
      InBounds(Pack(slots), hits) && Read(Pack(slots), hits) == Records(slots)
  {
    assert [] + Pack(slots) == Pack(slots);
    WalkInvertsPackAfter([], slots);
  }

  /** The slot that `hit` points at: its record and the octets between it and the next offset. */
  function SlotAt(data: seq<Byte>, hit: Hit): Slot
    requires hit.from + hit.len <= |data| && hit.from + hit.len <= hit.next
  {
    var end := hit.from + hit.len;
    Slot(Record(hit.status, data[hit.from..end]), data[end..if hit.next <= |data| then hit.next else |data|])
  }

  /** What the walk decodes from `at` on, as slots: the records with the octets that pad them. */
  function Unpack(data: seq<Byte>, at: nat): seq<Slot>
    decreases |data| + 4 - at
  {
    match Next(data, at)
    case None => []
    case Some(hit) => [SlotAt(data, hit)] + Unpack(data, hit.next)
  }

  lemma SlotAtIsChipLayout(data: seq<Byte>, at: nat)
    requires Next(data, at).Some?
    ensures var hit := Next(data, at).value; var s := SlotAt(data, hit);
      && SlotFits(s, true)
      && (hit.next <= |data| ==> SlotFits(s, false))
      && data[at..if hit.next <= |data| then hit.next else |data|] == PackSlot(s)
  {
    hide Le32, FromLe32;
    var hit := Next(data, at).value;
    var s, end := SlotAt(data, hit), hit.from + hit.len;
    Le32InvertsFromLe32(data[at..at + 4]);
    assert |s.rec.body| == hit.len == LenField(s.rec.status);
    assert hit.next == end + PadLen(4 + hit.len);
  }

  lemma SlotFitsAnywhere(s: Slot)
    requires SlotFits(s, false)
    ensures SlotFits(s, true)
  {
  }

  /** Unpacking and walking decode the same records. */
  lemma {:induction false} UnpackDecodesTheWalk(data: seq<Byte>, at: nat)
    ensures InBounds(data, Walk(data, at)) && Records(Unpack(data, at)) == Read(data, Walk(data, at))
    decreases |data| + 4 - at
  {
    hide FromLe32, LenField, PadLen;
    match Next(data, at)
    case None =>
    case Some(hit) =>
      UnpackDecodesTheWalk(data, hit.next);
      assert Walk(data, at)[1..] == Walk(data, hit.next);
      assert Unpack(data, at)[1..] == Unpack(data, hit.next);
  }

  /**
   * Conversely, whatever the octets, they are a chip layout of exactly the decoded records
   * followed by a tail that holds no record: nothing decodable is skipped or invented.
   */
  lemma {:induction false} UnpackAccountsForEveryOctet(data: seq<Byte>, at: nat) returns (tail: seq<Byte>)
    requires at <= |data|
    ensures ChipLayout(Unpack(data, at))
    ensures data[at..] == Pack(Unpack(data, at)) + tail
    ensures Next(tail, 0).None?
    decreases |data| - at
  {
    hide Le32, FromLe32, LenField, PadLen, PackSlot, SlotFits;
    match Next(data, at)
    case None =>
      tail := data[at..];
      if |tail| >= 4 {
        assert tail[0..4] == data[at..at + 4];
      }
    case Some(hit) =>
      SlotAtIsChipLayout(data, at);
      var s := SlotAt(data, hit);
      assert Unpack(data, at) == [s] + Unpack(data, hit.next);
      if hit.next <= |data| {
        tail := UnpackAccountsForEveryOctet(data, hit.next);
        assert data[at..] == data[at..hit.next] + data[hit.next..];
        assert Unpack(data, at)[1..] == Unpack(data, hit.next);
        SlotFitsAnywhere(s);
      } else {
        tail := [];
        WalkEnds(data, hit.next);
        assert Unpack(data, at) == [s];
        assert Pack([s]) == PackSlot(s) + Pack([]);
      }
  }

  // ---- transmit: the command header ----------------------------------------------------

  /** The 8 octets smsc95xx_tx_prepend writes for a frame of `n` octets. */
  function TxHeader(n: nat): (h: seq<Byte>)
    ensures |h| == TX_HEADER_LEN
  {
    Le32(CommandA(n)) + Le32(CommandB(n))
  }

  /** The first command word: the length, and the marks of a segment that is both first and last. */
  function CommandA(n: nat): (w: Word)
    ensures w == n % 0x800 + TX_FIRST_SEG + TX_LAST_SEG
  {
    CommandsAreSums(n);
    Or(Or(And(n, TX_LEN_MASK), TX_FIRST_SEG), TX_LAST_SEG)
  }

  function CommandB(n: nat): (w: Word)
    ensures w == n % 0x800
  {
    CommandsAreSums(n);
    And(n, TX_LEN_MASK)
  }

  lemma CommandsAreSums(n: nat)
    ensures And(n, TX_LEN_MASK) == n % 0x800
    ensures Or(Or(And(n, TX_LEN_MASK), TX_FIRST_SEG), TX_LAST_SEG) == n % 0x800 + TX_FIRST_SEG + TX_LAST_SEG
  {
    hide And, Or, Power2;
    Places();
    AndLow(n, 11);
    var len := n % 0x800;
    OrBit(len, 13);
    OrBit(len + TX_FIRST_SEG, 12);
    assert len / 0x2000 == 0 && (len + 0x2000) / 0x1000 == 2;
  }

  /** The chip's reading of a bulk OUT transfer: one whole-frame segment whose lengths agree. */
  function ChipDecodes(bytes: seq<Byte>): Option<seq<Byte>>
  {
    if |bytes| < TX_HEADER_LEN then
      None
    else
      var a, b := FromLe32(bytes[..4]), FromLe32(bytes[4..8]);
      if HasBit(a, TX_FIRST_SEG) && HasBit(a, TX_LAST_SEG) && a % 0x800 == b % 0x800 == |bytes| - TX_HEADER_LEN then
        Some(bytes[TX_HEADER_LEN..])
      else
        None
  }

  predicate LegalFrameLen(n: nat)
  {
    FRAME_MIN <= n <= FRAME_MAX
  }

  lemma SegmentFlagsAreSet(n: nat)
    requires n < 0x800
    ensures var a := n + TX_FIRST_SEG + TX_LAST_SEG;
      HasBit(a, TX_FIRST_SEG) && HasBit(a, TX_LAST_SEG) && a % 0x800 == n
  {
    hide HasBit, Power2;
    var a := n + TX_FIRST_SEG + TX_LAST_SEG;
    Places();
    HasBitIsDigit(a, 13);
    HasBitIsDigit(a, 12);
    assert a / TX_FIRST_SEG == 1 && a / TX_LAST_SEG == 3;
  }

  /** The header, octet by octet. */
  lemma HeaderOctets(n: nat)
    requires n < 0x800
    ensures TxHeader(n) == [n % 0x100, 0x30 + n / 0x100, 0, 0, n % 0x100, n / 0x100, 0, 0]
  {
    hide Le32, CommandA, CommandB;
    var a, b := CommandA(n), CommandB(n);
    OctetsSpelledOut(a);
    OctetsSpelledOut(b);
    QuotientIs(a, 0x100, 0x30 + n / 0x100, n % 0x100);
  }

  /** A framed transfer reads back as exactly its frame. */
  lemma ChipDecodesFramed(frame: seq<Byte>)
    requires LegalFrameLen(|frame|)
    ensures ChipDecodes(TxHeader(|frame|) + frame) == Some(frame)
  {
    hide Le32, FromLe32, HasBit;
    var n := |frame|;
    var bytes := TxHeader(n) + frame;
    SegmentFlagsAreSet(n);
    assert bytes[..4] == Le32(n + TX_FIRST_SEG + TX_LAST_SEG);
    assert bytes[4..8] == Le32(n);
    FromLe32InvertsLe32(n + TX_FIRST_SEG + TX_LAST_SEG);
    FromLe32InvertsLe32(n);
    assert bytes[TX_HEADER_LEN..] == frame;
  }

  method PutLe32(buf: array<Byte>, at: nat, w: Word)
    requires at + 4 <= buf.Length
    modifies buf
    ensures buf[..] == old(buf[..at]) + Le32(w) + old(buf[at + 4..])
  {
    hide Le32, OctetAt;
    Le32IsShifts(w);
    buf[at] := OctetAt(w, 0);
    buf[at + 1] := OctetAt(w, 8);
    buf[at + 2] := OctetAt(w, 16);
    buf[at + 3] := OctetAt(w, 24);
  }

  method TxPrepend(buf: array<Byte>, buflen: nat, frameLen: nat) returns (n: nat)
    requires buflen <= buf.Length
    modifies buf
    ensures n == if TX_HEADER_LEN <= buflen && LegalFrameLen(frameLen) then TX_HEADER_LEN else 0
    ensures buf[..] == if n == 0 then old(buf[..]) else TxHeader(frameLen) + old(buf[TX_HEADER_LEN..])
  {
    if buflen < TX_HEADER_LEN {
      return 0;
    }
    if frameLen < FRAME_MIN || frameLen > FRAME_MAX {
      return 0;
    }
    PutLe32(buf, 0, CommandA(frameLen));
    PutLe32(buf, 4, CommandB(frameLen));
    return TX_HEADER_LEN;
  }
}
