/**
 * What RxComplete does with the records of one transfer: which are dropped and why, where receive
 * buffers come from, and what reaches the stack -- on values, one record at a time.
 */
module RxRecords {
  import opened Bytes
  import opened Codec
  import opened Packets

  const RX_MAX_PAYLOAD := 1518

  datatype Counters = Counters(
    records: nat, frames: nat, dropped: nat,
    dropErrSum: nat, dropShort: nat, dropOversize: nat, dropNoBuffer: nat, dropBadAddr: nat, dropBadFit: nat,
    dropSetLen: nat, dropEnqueue: nat,
    enqueueFailures: nat, submitDequeued: nat, submitEmpty: nat, poolFailures: nat, lost: nat)

  const ZERO := Counters(0, 0, 0, 0, 0, 0, 0, 0, 0, 0, 0, 0, 0, 0, 0, 0)

  /** A packet the stack accepted, as it was acquired, and the payload it was filled with. */
  datatype Delivery = Delivery(packet: Packet, payload: seq<Byte>)

  /** Packets acquired, delivered to the stack, and handed to deallocatePacket. */
  datatype Log = Log(acquired: seq<Packet>, delivered: seq<Delivery>, freed: seq<Packet>)

  datatype Books = Books(n: Counters, log: Log)

  /** The environment's answers while one record is handled. */
  datatype Answer = Answer(fromQueue: Option<Packet>, fromPool: Option<Packet>, setLenOk: bool, enqueueOk: bool,
                           freeOk: bool)

  /** After the script is over there are no buffers. */
  const DRY := Answer(None, None, false, false, false)

  // ---- the records the stack is owed ---------------------------------------------------

  predicate Damaged(r: Record)
  {
    HasBit(r.status, RX_ERROR_SUM) || HasBit(r.status, RX_FILTER_FAIL)
  }

  predicate Good(r: Record)
  {
    !Damaged(r) && RX_CRC_LEN < |r.body| <= RX_CRC_LEN + RX_MAX_PAYLOAD
  }

  /** The frame without the CRC the hardware leaves in place. */
  function Payload(r: Record): seq<Byte>
  {
    if |r.body| < RX_CRC_LEN then [] else r.body[..|r.body| - RX_CRC_LEN]
  }

  function GoodPayloads(rs: seq<Record>): seq<seq<Byte>>
  {
    if rs == [] then [] else (if Good(rs[0]) then [Payload(rs[0])] else []) + GoodPayloads(rs[1..])
  }

  // ---- one record ----------------------------------------------------------------------

  /** The packet a record gets: the submission queue's if it has one, otherwise the pool's. */
  function Supplied(a: Answer, submitQueue: bool): Option<Packet>
  {
    if submitQueue && a.fromQueue.Some? then a.fromQueue else a.fromPool
  }

  /** rxAcquirePacket: one packet off the submission queue, or failing that one the pool allocates. */
  function Acquire(b: Books, a: Answer, submitQueue: bool): (r: (Books, Option<Packet>))
    ensures var (c, p) := r;
      && c.log == b.log.(acquired := b.log.acquired + if p.Some? then [p.value] else [])
      && c.n.submitDequeued + c.n.submitEmpty == b.n.submitDequeued + b.n.submitEmpty + 1
      && c.n.poolFailures == b.n.poolFailures + (if p.None? then 1 else 0)
      && p == Supplied(a, submitQueue)
      && c.n.submitDequeued == b.n.submitDequeued + (if submitQueue && a.fromQueue.Some? then 1 else 0)
      && c.n == b.n.(submitDequeued := c.n.submitDequeued, submitEmpty := c.n.submitEmpty,
                     poolFailures := c.n.poolFailures)
  {
    if submitQueue && a.fromQueue.Some? then
      (Books(b.n.(submitDequeued := b.n.submitDequeued + 1),
             b.log.(acquired := b.log.acquired + [a.fromQueue.value])), a.fromQueue)
    else
      var n := b.n.(submitEmpty := b.n.submitEmpty + 1);
      if a.fromPool.Some? then
        (Books(n, b.log.(acquired := b.log.acquired + [a.fromPool.value])), a.fromPool)
      else
        (Books(n.(poolFailures := n.poolFailures + 1), b.log), None)
  }

  function Drop(n: Counters): Counters
  {
    n.(dropped := n.dropped + 1)
  }

  function Free(log: Log, p: Packet): Log
  {
    log.(freed := log.freed + [p])
  }

  /** deliverPacket, for a packet filled with `payload`. */
  function Deliver(b: Books, p: Packet, payload: seq<Byte>, a: Answer): Books
  {
    if a.enqueueOk then
      Books(b.n.(frames := b.n.frames + 1), b.log.(delivered := b.log.delivered + [Delivery(p, payload)]))
    else
      Books(Drop(b.n).(dropEnqueue := b.n.dropEnqueue + 1, enqueueFailures := b.n.enqueueFailures + 1,
                       lost := if a.freeOk then b.n.lost else b.n.lost + 1),
            Free(b.log, p))
  }

  /** A good record and a packet to put it in: the books, and whether the walk goes on. */
  function Fill(b: Books, p: Packet, payload: seq<Byte>, a: Answer): (r: (Books, bool))
    ensures var (n, m) := (b.n, r.0.n);
      && m == n.(frames := m.frames, dropped := m.dropped, dropBadAddr := m.dropBadAddr, dropBadFit := m.dropBadFit,
                 dropSetLen := m.dropSetLen, dropEnqueue := m.dropEnqueue, enqueueFailures := m.enqueueFailures,
                 lost := m.lost)
      && m.frames + m.dropped == n.frames + n.dropped + 1
      && m.dropped - n.dropped == |r.0.log.freed| - |b.log.freed|
      && m.dropped - n.dropped == (m.dropBadAddr - n.dropBadAddr) + (m.dropBadFit - n.dropBadFit)
                                  + (m.dropSetLen - n.dropSetLen) + (m.dropEnqueue - n.dropEnqueue)
      && m.dropEnqueue - n.dropEnqueue == m.enqueueFailures - n.enqueueFailures
  {
    if p.base < LOWEST_MAPPED then
      (Books(Drop(b.n).(dropBadAddr := b.n.dropBadAddr + 1), Free(b.log, p)), false)
    else if p.dataOff + |payload| > POOL_BUFFER_SIZE then
      (Books(Drop(b.n).(dropBadFit := b.n.dropBadFit + 1), Free(b.log, p)), true)
    else if !a.setLenOk then
      (Books(Drop(b.n).(dropSetLen := b.n.dropSetLen + 1, lost := if a.freeOk then b.n.lost else b.n.lost + 1),
             Free(b.log, p)), true)
    else
      (Deliver(b, p, payload, a), true)
  }

  /** The body of the record loop: the books, and whether the walk goes on. */
  function Handle(b0: Books, r: Record, a: Answer, submitQueue: bool): (Books, bool)
    requires RX_CRC_LEN <= |r.body|
  {
    var b := b0.(n := b0.n.(records := b0.n.records + 1));
    if Damaged(r) then
      (b.(n := Drop(b.n).(dropErrSum := b.n.dropErrSum + 1)), true)
    else if |r.body| <= RX_CRC_LEN then
      (b.(n := Drop(b.n).(dropShort := b.n.dropShort + 1)), true)
    else if |r.body| - RX_CRC_LEN > RX_MAX_PAYLOAD then
      (b.(n := Drop(b.n).(dropOversize := b.n.dropOversize + 1)), true)
    else
      var (c, packet) := Acquire(b, a, submitQueue);
      if packet.None? then
        (c.(n := Drop(c.n).(dropNoBuffer := c.n.dropNoBuffer + 1)), false)
      else
        Fill(c, packet.value, Payload(r), a)
  }

  function Head(script: seq<Answer>): Answer
  {
    if script == [] then DRY else script[0]
  }

  function Tail(script: seq<Answer>): seq<Answer>
  {
    if script == [] then [] else script[1..]
  }

  predicate HaveCrc(rs: seq<Record>)
  {
    forall i :: 0 <= i < |rs| ==> RX_CRC_LEN <= |rs[i].body|
  }

  /** The record loop of RxComplete. */
  function HandleAll(b: Books, rs: seq<Record>, script: seq<Answer>, submitQueue: bool): Books
    requires HaveCrc(rs)
    decreases |rs|
  {
    if rs == [] then
      b
    else
      var (c, on) := Handle(b, rs[0], Head(script), submitQueue);
      if on then HandleAll(c, rs[1..], Tail(script), submitQueue) else c
  }

  // ---- accounting ----------------------------------------------------------------------

  function DeliveredPacket(d: Delivery): Packet
  {
    d.packet
  }

  function DeliveredPackets(ds: seq<Delivery>): (ps: seq<Packet>)
    ensures |ps| == |ds|
  {
    PacketsOf(ds, DeliveredPacket)
  }

  /** The identities the counters promise. */
  predicate Balanced(n: Counters)
  {
    && n.records == n.frames + n.dropped
    && n.dropped == n.dropErrSum + n.dropShort + n.dropOversize + n.dropNoBuffer + n.dropBadAddr + n.dropBadFit
                    + n.dropSetLen + n.dropEnqueue
    && n.records == n.dropErrSum + n.dropShort + n.dropOversize + n.submitDequeued + n.submitEmpty
    && n.dropNoBuffer == n.poolFailures
    && n.dropEnqueue == n.enqueueFailures
  }

  /** Every packet acquired was delivered or freed, exactly once. */
  predicate NoneLeaked(log: Log)
  {
    multiset(log.acquired) == multiset(DeliveredPackets(log.delivered)) + multiset(log.freed)
  }

  predicate Ledger(b: Books)
  {
    && Balanced(b.n)
    && NoneLeaked(b.log)
    && b.n.frames == |b.log.delivered|
    && |b.log.freed| == b.n.dropBadAddr + b.n.dropBadFit + b.n.dropSetLen + b.n.dropEnqueue
    && forall i :: 0 <= i < |b.log.delivered| ==> Landed(b.log.delivered[i])
  }

  /** The copy fits the packet's buffer, which is mapped, and the stack reads the payload back. */
  predicate Landed(d: Delivery)
  {
    && LOWEST_MAPPED <= d.packet.base
    && d.packet.dataOff + |d.payload| <= POOL_BUFFER_SIZE
    && FrameOf(Filled(d.packet, d.payload)) == d.payload
  }

  lemma NothingLeaked(log: Log)
    requires |log.acquired| == |log.delivered| == |log.freed| == 0
    ensures NoneLeaked(log)
  {
    hide DeliveredPackets;
    assert log.acquired == DeliveredPackets(log.delivered) + log.freed;
  }

  lemma ZeroIsBalanced(n: Counters)
    requires n == ZERO
    ensures Balanced(n)
    ensures n.frames == n.dropBadAddr == n.dropBadFit == n.dropSetLen == n.dropEnqueue == 0
  {
  }

  lemma NothingLogged(b: Books)
    requires b.n == ZERO && |b.log.acquired| == |b.log.delivered| == |b.log.freed| == 0
    ensures Ledger(b)
  {
    hide NoneLeaked, Landed, Balanced;
    NothingLeaked(b.log);
    ZeroIsBalanced(b.n);
  }

  lemma AppendDelivery(ds: seq<Delivery>, d: Delivery)
    ensures DeliveredPackets(ds + [d]) == DeliveredPackets(ds) + [d.packet]
  {
    PacketsOfMore(ds, d, DeliveredPacket);
  }

  /** What handling one record adds to the logs. */
  lemma HandleEffect(b: Books, r: Record, a: Answer, submitQueue: bool)
    requires RX_CRC_LEN <= |r.body|
    ensures var (c, on) := Handle(b, r, a, submitQueue);
      || (c.log == b.log && c.n.frames == b.n.frames)
      || (exists p :: c.log == Log(b.log.acquired + [p], b.log.delivered, b.log.freed + [p])
            && c.n.frames == b.n.frames)
      || (exists p :: Good(r) && on && Landed(Delivery(p, Payload(r))) && c.n.frames == b.n.frames + 1
            && c.log == Log(b.log.acquired + [p], b.log.delivered + [Delivery(p, Payload(r))], b.log.freed))
  {
    hide HasBit, FrameOf, Filled;
    var b1 := b.(n := b.n.(records := b.n.records + 1));
    if Good(r) {
      var (c1, packet) := Acquire(b1, a, submitQueue);
      var (c, on) := Handle(b, r, a, submitQueue);
      if packet.Some? {
        var p := packet.value;
        if LOWEST_MAPPED <= p.base && p.dataOff + |Payload(r)| <= POOL_BUFFER_SIZE && a.setLenOk && a.enqueueOk {
          assert c.log == Log(b.log.acquired + [p], b.log.delivered + [Delivery(p, Payload(r))], b.log.freed);
        } else {
          assert c.log == Log(b.log.acquired + [p], b.log.delivered, b.log.freed + [p]);
        }
      }
    }
  }

  function One(c: bool): nat
  {
    if c then 1 else 0
  }

  /** A packet is supplied, and it is mapped. */
  predicate Mapped(a: Answer, submitQueue: bool)
  {
    Supplied(a, submitQueue).Some? && 0x10_0000 <= Supplied(a, submitQueue).value.base
  }

  /** A mapped packet has room for the payload at its offset. */
  predicate HasRoom(r: Record, a: Answer, submitQueue: bool)
  {
    Mapped(a, submitQueue) && Supplied(a, submitQueue).value.dataOff + |Payload(r)| <= 2048
  }

  /**
   * The fate of a record: each counter moves exactly for its own reason, one reason at most, and the
   * loop stops only where no packet is supplied or the packet is unmapped.
   */
  lemma FateOfRecord(b: Books, r: Record, a: Answer, submitQueue: bool)
    requires RX_CRC_LEN <= |r.body|
    ensures var (c, on) := Handle(b, r, a, submitQueue); var (n, m) := (b.n, c.n);
      var good, mapped, room := Good(r), Mapped(a, submitQueue), HasRoom(r, a, submitQueue);
      && m.records - n.records == 1
      && m.dropErrSum - n.dropErrSum == One(Damaged(r))
      && m.dropShort - n.dropShort == One(!Damaged(r) && |r.body| <= 4)
      && m.dropOversize - n.dropOversize == One(!Damaged(r) && |r.body| > 1522)
      && m.submitDequeued - n.submitDequeued == One(good && submitQueue && a.fromQueue.Some?)
      && m.submitEmpty - n.submitEmpty == One(good && !(submitQueue && a.fromQueue.Some?))
      && m.dropNoBuffer - n.dropNoBuffer == One(good && Supplied(a, submitQueue).None?)
      && m.dropBadAddr - n.dropBadAddr == One(good && Supplied(a, submitQueue).Some? && !mapped)
      && m.dropBadFit - n.dropBadFit == One(good && mapped && !room)
      && m.dropSetLen - n.dropSetLen == One(good && room && !a.setLenOk)
      && m.dropEnqueue - n.dropEnqueue == One(good && room && a.setLenOk && !a.enqueueOk)
      && m.frames - n.frames == One(good && room && a.setLenOk && a.enqueueOk)
      && m.lost - n.lost == One(good && room && !(a.setLenOk && a.enqueueOk) && !a.freeOk)
      && (on <==> good ==> mapped)
  {
    hide Damaged, FrameOf, Filled;
  }

  lemma HandleKeepsCounts(b: Books, r: Record, a: Answer, submitQueue: bool)
    requires RX_CRC_LEN <= |r.body|
    requires Balanced(b.n) && |b.log.freed| == b.n.dropBadAddr + b.n.dropBadFit + b.n.dropSetLen + b.n.dropEnqueue
    ensures var c := Handle(b, r, a, submitQueue).0;
      Balanced(c.n) && |c.log.freed| == c.n.dropBadAddr + c.n.dropBadFit + c.n.dropSetLen + c.n.dropEnqueue
  {
    hide Damaged, Acquire, Fill, Payload;
  }

  lemma HandleKeepsLedger(b: Books, r: Record, a: Answer, submitQueue: bool)
    requires RX_CRC_LEN <= |r.body| && Ledger(b)
    ensures Ledger(Handle(b, r, a, submitQueue).0)
  {
    hide Handle, Balanced, Landed, DeliveredPackets;
    var c := Handle(b, r, a, submitQueue).0;
    HandleEffect(b, r, a, submitQueue);
    HandleKeepsCounts(b, r, a, submitQueue);
    if |c.log.delivered| > |b.log.delivered| {
      var d := c.log.delivered[|b.log.delivered|];
      assert c.log.delivered == b.log.delivered + [d];
      AppendDelivery(b.log.delivered, d);
    }
  }

  lemma {:induction false} HandleAllKeepsLedger(b: Books, rs: seq<Record>, script: seq<Answer>, submitQueue: bool)
    requires HaveCrc(rs) && Ledger(b)
    ensures Ledger(HandleAll(b, rs, script, submitQueue))
    decreases |rs|
  {
    hide Handle, Ledger;
    if rs != [] {
      HandleKeepsLedger(b, rs[0], Head(script), submitQueue);
      var (c, on) := Handle(b, rs[0], Head(script), submitQueue);
      if on {
        HandleAllKeepsLedger(c, rs[1..], Tail(script), submitQueue);
      }
    }
  }

  // ---- where the loop stops ------------------------------------------------------------

  /** The environment's answers to record `i` of a transfer. */
  function AnswerTo(script: seq<Answer>, i: nat): Answer
  {
    if i < |script| then script[i] else DRY
  }

  /** A good record for which there is no packet, or only an unmapped one. */
  predicate Stops(r: Record, a: Answer, submitQueue: bool)
  {
    Good(r) && !Mapped(a, submitQueue)
  }

  /** The records are handled up to the first that stops the loop, that one included, and no further. */
  lemma {:induction false} LoopStopsAtTheFirst(b: Books, rs: seq<Record>, script: seq<Answer>, submitQueue: bool)
    returns (k: nat)
    requires HaveCrc(rs)
    ensures k <= |rs| && HandleAll(b, rs, script, submitQueue).n.records == b.n.records + k
    ensures forall i :: 0 <= i < k - 1 ==> !Stops(rs[i], AnswerTo(script, i), submitQueue)
    ensures k < |rs| ==> k > 0 && Stops(rs[k - 1], AnswerTo(script, k - 1), submitQueue)
    decreases |rs|
  {
    hide Handle, Good, Mapped;
    k := 0;
    if rs != [] {
      FateOfRecord(b, rs[0], Head(script), submitQueue);
      var (c, on) := Handle(b, rs[0], Head(script), submitQueue);
      if on {
        var n := LoopStopsAtTheFirst(c, rs[1..], Tail(script), submitQueue);
        forall i | 0 <= i < n ensures AnswerTo(script, i + 1) == AnswerTo(Tail(script), i) {
        }
        k := n + 1;
      } else {
        k := 1;
      }
    }
  }

  // ---- what reaches the stack ----------------------------------------------------------

  function Payloads(ds: seq<Delivery>): (ps: seq<seq<Byte>>)
    ensures |ps| == |ds|
  {
    if ds == [] then [] else [ds[0].payload] + Payloads(ds[1..])
  }

  /** `xs` is what is left of `ys` when some elements are struck out. */
  predicate Subsequence<T(==)>(xs: seq<T>, ys: seq<T>)
    decreases |ys|
  {
    if xs == [] then true
    else if ys == [] then false
    else if xs[0] == ys[0] && Subsequence(xs[1..], ys[1..]) then true
    else Subsequence(xs, ys[1..])
  }

  lemma EmptyIsSubsequence<T>(ys: seq<T>)
    ensures Subsequence([], ys)
  {
  }

  lemma SubsequenceOfMore<T>(xs: seq<T>, y: T, ys: seq<T>)
    requires Subsequence(xs, ys)
    ensures Subsequence(xs, [y] + ys) && Subsequence([y] + xs, [y] + ys)
  {
    assert ([y] + ys)[1..] == ys && ([y] + xs)[1..] == xs;
  }

  /** What a transfer delivers: whatever the answers, good records' payloads, in order, none twice. */
  lemma {:induction false} DeliversSubsequence(b: Books, rs: seq<Record>, script: seq<Answer>, submitQueue: bool)
    returns (ds: seq<Delivery>)
    requires HaveCrc(rs)
    ensures HandleAll(b, rs, script, submitQueue).log.delivered == b.log.delivered + ds
    ensures Subsequence(Payloads(ds), GoodPayloads(rs))
    decreases |rs|
  {
    hide Handle, Damaged, Landed, Subsequence;
    ds := [];
    if rs != [] {
      HandleEffect(b, rs[0], Head(script), submitQueue);
      var (c, on) := Handle(b, rs[0], Head(script), submitQueue);
      var more: seq<Delivery> := [];
      EmptyIsSubsequence(GoodPayloads(rs[1..]));
      if on {
        more := DeliversSubsequence(c, rs[1..], Tail(script), submitQueue);
      }
      if c.log.delivered == b.log.delivered {
        ds := more;
        EmptyIsSubsequence(GoodPayloads(rs));
        assert c.log.delivered + more == b.log.delivered + ds;
        if !Good(rs[0]) {
          assert GoodPayloads(rs) == GoodPayloads(rs[1..]);
        } else {
          assert GoodPayloads(rs) == [Payload(rs[0])] + GoodPayloads(rs[1..]);
          SubsequenceOfMore(Payloads(more), Payload(rs[0]), GoodPayloads(rs[1..]));
        }
      } else {
        var d := c.log.delivered[|b.log.delivered|];
        ds := [d] + more;
        assert c.log.delivered == b.log.delivered + [d];
        assert ds[1..] == more;
        assert b.log.delivered + [d] + more == b.log.delivered + ds;
        assert d.payload == Payload(rs[0]) && GoodPayloads(rs) == [Payload(rs[0])] + GoodPayloads(rs[1..]);
        assert Payloads(ds) == [Payload(rs[0])] + Payloads(more);
        SubsequenceOfMore(Payloads(more), Payload(rs[0]), GoodPayloads(rs[1..]));
      }
    } else {
      EmptyIsSubsequence(GoodPayloads(rs));
    }
  }

  /** A packet that is mapped and takes the largest payload at its offset. */
  predicate Roomy(p: Packet)
  {
    LOWEST_MAPPED <= p.base && p.dataOff + RX_MAX_PAYLOAD <= POOL_BUFFER_SIZE
  }

  /** Buffers, offsets, lengths and enqueues all succeed. */
  predicate Benign(a: Answer, submitQueue: bool)
  {
    && (a.fromPool.Some? || (submitQueue && a.fromQueue.Some?))
    && (a.fromQueue.Some? ==> Roomy(a.fromQueue.value))
    && (a.fromPool.Some? ==> Roomy(a.fromPool.value))
    && a.setLenOk && a.enqueueOk
  }

  lemma HandleDelivers(b: Books, r: Record, a: Answer, submitQueue: bool)
    requires RX_CRC_LEN <= |r.body| && Benign(a, submitQueue)
    ensures var (c, on) := Handle(b, r, a, submitQueue);
      && on
      && (!Good(r) ==> c.log.delivered == b.log.delivered)
      && (Good(r) ==> (
            && |c.log.delivered| == |b.log.delivered| + 1
            && c.log.delivered == b.log.delivered + [c.log.delivered[|b.log.delivered|]]
            && c.log.delivered[|b.log.delivered|].payload == Payload(r)))
  {
    hide HasBit;
    if Good(r) {
      var b1 := b.(n := b.n.(records := b.n.records + 1));
      var (c1, packet) := Acquire(b1, a, submitQueue);
      assert packet == a.fromQueue || packet == a.fromPool;
    }
  }

  /** When everything succeeds, the transfer delivers the payload of every good record. */
  lemma {:induction false} DeliversEveryGoodRecord(b: Books, rs: seq<Record>, script: seq<Answer>, submitQueue: bool)
    returns (ds: seq<Delivery>)
    requires HaveCrc(rs) && |rs| <= |script|
    requires forall i :: 0 <= i < |rs| ==> Benign(script[i], submitQueue)
    ensures HandleAll(b, rs, script, submitQueue).log.delivered == b.log.delivered + ds
    ensures Payloads(ds) == GoodPayloads(rs)
    decreases |rs|
  {
    hide Handle, Damaged, Benign;
    ds := [];
    if rs != [] {
      HandleDelivers(b, rs[0], script[0], submitQueue);
      var c := Handle(b, rs[0], script[0], submitQueue).0;
      ds := DeliversEveryGoodRecord(c, rs[1..], script[1..], submitQueue);
      if Good(rs[0]) {
        var d := c.log.delivered[|b.log.delivered|];
        assert ([d] + ds)[1..] == ds;
        ds := [d] + ds;
      }
    }
  }

  lemma {:induction false} PackedHaveCrc(slots: seq<Slot>)
    requires ChipLayout(slots)
    ensures HaveCrc(Records(slots))
  {
    hide LenField;
    if slots != [] {
      PackedHaveCrc(slots[1..]);
      assert forall i :: 0 < i < |slots| ==> Records(slots)[i] == Records(slots[1..])[i - 1];
    }
  }

  /** End to end: of whatever the chip packed into a transfer, exactly the good frames arrive, in order. */
  lemma FramesArriveAsPacked(b: Books, slots: seq<Slot>, script: seq<Answer>, submitQueue: bool)
    returns (ds: seq<Delivery>)
    requires ChipLayout(slots) && |slots| <= |script|
    requires forall i :: 0 <= i < |slots| ==> Benign(script[i], submitQueue)
    ensures InBounds(Pack(slots), Walk(Pack(slots), 0)) && Records(slots) == Read(Pack(slots), Walk(Pack(slots), 0))
    ensures HaveCrc(Records(slots))
    ensures HandleAll(b, Records(slots), script, submitQueue).log.delivered == b.log.delivered + ds
    ensures Payloads(ds) == GoodPayloads(Records(slots))
  {
    hide Benign, Walk, Pack, HandleAll, ChipLayout, HaveCrc, GoodPayloads;
    WalkInvertsPack(slots);
    PackedHaveCrc(slots);
    ds := DeliversEveryGoodRecord(b, Records(slots), script, submitQueue);
  }

  predicate AllGood(slots: seq<Slot>)
  {
    forall i :: 0 <= i < |slots| ==> Good(slots[i].rec)
  }

  /** Of good records none is struck out: each frame packed is a frame that arrives. */
  lemma {:induction false} AllGoodPayloads(slots: seq<Slot>)
    requires AllGood(slots)
    ensures HaveCrc(Records(slots)) && |GoodPayloads(Records(slots))| == |slots|
    ensures forall i :: 0 <= i < |slots| ==> GoodPayloads(Records(slots))[i] == Payload(slots[i].rec)
  {
    hide Damaged, Payload;
    if slots != [] {
      assert Records(slots)[1..] == Records(slots[1..]);
      AllGoodPayloads(slots[1..]);
    }
  }
}
