/**
 * The transmit half of the datapath as a state machine on values: the driver's fields, the stack's
 * submission queue and doorbell, and logs of everything that crossed either boundary.
 */
module TxSpec {
  import opened Bytes
  import opened Codec
  import opened Packets

  const TX_MAX_FRAME := 1518
  const TX_BUFFER_LEN := TX_HEADER_LEN + TX_MAX_FRAME

  type Scratch = s: seq<Byte> | |s| == TX_BUFFER_LEN witness seq(TX_BUFFER_LEN, _ => 0)

  datatype Counters = Counters(
    doorbells: nat, drains: nat, dequeued: nat, submitted: nat, completions: nat, returned: nat, lost: nat,
    bytesSent: nat, rejected: nat, submitFailures: nat, stalls: nat, aborted: nat, deferred: nat,
    frames: nat, errors: nat)

  /** A packet taken off the submission queue, and whether AsyncIO accepted its transfer. */
  datatype Taken = Taken(packet: Packet, accepted: bool)

  /** A packet handed back: to the stack, or lost because the stack refused it. */
  datatype Disposal = Disposal(packet: Packet, returned: bool)

  /** Which foreign objects are held. */
  datatype Objects = Objects(pipeOut: bool, action: bool, dataQueue: bool, submitQueue: bool, completeQueue: bool)

  /** What crossed the boundaries: offered by the stack, taken, disposed of, put on the wire. */
  datatype Log = Log(offered: seq<Packet>, taken: seq<Taken>, disposed: seq<Disposal>, wire: seq<seq<Byte>>)

  datatype State = State(
    o: Objects,
    // the transmit buffer, while it exists
    scratch: Option<Scratch>,
    // the driver's flags
    ready: bool, inFlight: bool, packet: Option<Packet>, n: Counters,
    // the stack's side: the submission queue, and a doorbell notification not yet delivered
    queue: seq<Packet>, bell: bool,
    log: Log,
    // transfers the USB stack accepted and has not completed
    outstanding: nat)

  /** The environment's part in one iteration of the drain loop. */
  datatype Round = Round(arrivals: seq<Packet>, nullPacket: bool, asyncOk: bool, returnOk: bool)

  /** After the script is over nobody interferes. */
  const CALM := Round([], false, true, true)

  // ---- the steps -----------------------------------------------------------------------

  /** The stack enqueues; the doorbell rings only when the queue becomes non-empty. */
  function Arrive(s: State, ps: seq<Packet>): (t: State)
    ensures SameGear(s, t) && SameFlight(s, t) && t.scratch == s.scratch && t.n == s.n
    ensures t.queue == s.queue + ps && (t.bell <==> s.bell || (s.queue == [] && ps != []))
  {
    s.(queue := s.queue + ps, bell := s.bell || (s.queue == [] && ps != []),
       log := s.log.(offered := s.log.offered + ps))
  }

  /** The objects held and the gate are untouched. */
  predicate SameGear(s: State, t: State)
  {
    t.o == s.o && t.ready == s.ready && t.scratch.Some? == s.scratch.Some?
  }

  /** The transfer in flight, if any, is untouched. */
  predicate SameFlight(s: State, t: State)
  {
    t.inFlight == s.inFlight && t.packet == s.packet && t.outstanding == s.outstanding && t.log.wire == s.log.wire
  }

  /** txReturnPacket. */
  function Return(s: State, packet: Option<Packet>, returnOk: bool): (t: State)
    ensures SameGear(s, t) && SameFlight(s, t) && t.scratch == s.scratch && t.queue == s.queue && t.bell == s.bell
    ensures packet.None? ==> t == s
    ensures packet.Some? ==>
      var returned := s.o.completeQueue && returnOk;
      && t.log == s.log.(disposed := s.log.disposed + [Disposal(packet.value, returned)])
      && t.n == if returned then s.n.(returned := s.n.returned + 1) else s.n.(lost := s.n.lost + 1)
  {
    match packet
    case None => s
    case Some(p) =>
      if !s.o.completeQueue then
        s.(n := s.n.(lost := s.n.lost + 1), log := s.log.(disposed := s.log.disposed + [Disposal(p, false)]))
      else if !returnOk then
        s.(n := s.n.(lost := s.n.lost + 1), log := s.log.(disposed := s.log.disposed + [Disposal(p, false)]))
      else
        s.(n := s.n.(returned := s.n.returned + 1), log := s.log.(disposed := s.log.disposed + [Disposal(p, true)]))
  }

  /** What a transfer of packet `p` carries. */
  function Framed(p: Packet): (bytes: seq<Byte>)
    requires Fits(p)
    ensures |bytes| == TX_HEADER_LEN + p.dataLen
  {
    TxHeader(p.dataLen) + FrameOf(p)
  }

  /** The packets the driver is willing to put on the wire. */
  predicate Transmittable(p: Packet): (b: bool)
    ensures b <==> 42 <= p.dataLen <= 1514 && 0x10_0000 <= p.base + p.dataOff && p.dataOff + p.dataLen <= 2048
  {
    LegalFrameLen(p.dataLen) && LOWEST_MAPPED <= p.base + p.dataOff && Fits(p)
  }

  /** The start of the scratch buffer, if it exists, is `bytes`. */
  predicate Holds(scratch: Option<Scratch>, bytes: seq<Byte>)
  {
    scratch.Some? && |bytes| <= TX_BUFFER_LEN && scratch.value[..|bytes|] == bytes
  }

  function Reject(s: State): State
  {
    s.(n := s.n.(rejected := s.n.rejected + 1))
  }

  /** The scratch buffer once `bytes` is written to its start. */
  function Overlay(scratch: Scratch, bytes: seq<Byte>): (t: Scratch)
    requires |bytes| <= TX_BUFFER_LEN
    ensures t[..|bytes|] == bytes
  {
    bytes + scratch[|bytes|..]
  }

  /** The end of txSubmitPacket: AsyncIO of what has been framed, undone if it is refused. */
  function Launch(s: State, p: Packet, asyncOk: bool): (r: (State, bool))
    requires s.scratch.Some? && Fits(p) && TX_HEADER_LEN + p.dataLen <= TX_BUFFER_LEN
  {
    if asyncOk then
      var transfer := s.scratch.value[..TX_HEADER_LEN + p.dataLen];
      (s.(inFlight := true, packet := Some(p), outstanding := s.outstanding + 1,
          n := s.n.(submitted := s.n.submitted + 1), log := s.log.(wire := s.log.wire + [transfer])), true)
    else
      (s.(inFlight := false, packet := None, n := s.n.(submitFailures := s.n.submitFailures + 1)), false)
  }

  /**
   * txSubmitPacket: the state after it, and whether the transfer was accepted -- which it is
   * exactly when the packet is transmittable, the objects are there and AsyncIO agrees.
   */
  function Submit(s: State, p: Packet, asyncOk: bool): (r: (State, bool))
    requires !s.inFlight
    ensures SameGear(s, r.0) && r.0.queue == s.queue && r.0.bell == s.bell
    ensures r.1 <==> Transmittable(p) && s.scratch.Some? && s.o.pipeOut && s.o.action && asyncOk
    ensures r.0.inFlight == r.1
    ensures r.1 ==>
      && r.0.packet == Some(p) && r.0.outstanding == s.outstanding + 1
      && r.0.log == s.log.(wire := s.log.wire + [Framed(p)]) && Holds(r.0.scratch, Framed(p))
      && r.0.n == s.n.(submitted := s.n.submitted + 1)
    ensures !r.1 ==>
      && r.0.log == s.log && r.0.outstanding == s.outstanding && (s.packet.None? ==> r.0.packet.None?)
      && r.0.n == if Transmittable(p) && s.scratch.Some? && s.o.pipeOut && s.o.action
                  then s.n.(submitFailures := s.n.submitFailures + 1) else s.n.(rejected := s.n.rejected + 1)
  {
    if p.dataLen == 0 || p.dataLen > TX_MAX_FRAME then
      (Reject(s), false)
    else if s.scratch.None? || !s.o.pipeOut || !s.o.action then
      (Reject(s), false)
    else if !LegalFrameLen(p.dataLen) then
      (Reject(s), false)
    else if p.base + p.dataOff < LOWEST_MAPPED || !Fits(p) then
      // the header is already in the scratch buffer when the address or the fit is refused
      (Reject(s.(scratch := Some(Overlay(s.scratch.value, TxHeader(p.dataLen))))), false)
    else
      Launch(s.(scratch := Some(Overlay(s.scratch.value, Framed(p)))), p, asyncOk)
  }

  /** One turn of the drain loop on a non-empty queue: take a packet, and send it or hand it back. */
  function Take(s: State, r: Round): (t: State)
    requires !s.inFlight && s.queue != []
    ensures SameGear(s, t) && t.queue == s.queue[1..] && t.bell == s.bell
  {
    var p := s.queue[0];
    var s1 := s.(queue := s.queue[1..], n := s.n.(dequeued := s.n.dequeued + 1));
    var (s2, ok) := Submit(s1, p, r.asyncOk);
    var s3 := s2.(log := s2.log.(taken := s2.log.taken + [Taken(p, ok)]));
    if ok then s3 else Return(s3, Some(p), r.returnOk)
  }

  function Head(script: seq<Round>): Round
  {
    if script == [] then CALM else script[0]
  }

  function Tail(script: seq<Round>): seq<Round>
  {
    if script == [] then [] else script[1..]
  }

  /** The loop of txDrainSubmission. It ends: an undisturbed turn shortens the queue. */
  function DrainLoop(s: State, script: seq<Round>): (t: State)
    ensures SameGear(s, t)
    ensures s.inFlight ==> t == s
    decreases |script|, |s.queue|
  {
    if s.inFlight then
      s
    else
      var r := Head(script);
      var s1 := Arrive(s, r.arrivals);
      if r.nullPacket then
        s1.(n := s1.n.(errors := s1.n.errors + 1))
      else if s1.queue == [] then
        s1
      else
        DrainLoop(Take(s1, r), Tail(script))
  }

  /** txDrainSubmission. */
  function Drain(s: State, script: seq<Round>): (t: State)
    ensures SameGear(s, t)
  {
    var s1 := s.(n := s.n.(drains := s.n.drains + 1));
    if !s.o.submitQueue || !s.o.completeQueue || !s.ready then
      s1
    else if s.inFlight then
      s1.(n := s1.n.(deferred := s1.n.deferred + 1))
    else
      DrainLoop(s1, script)
  }

  /** The doorbell notification is delivered: it is spent from here on. */
  function Answer(s: State): State
  {
    s.(bell := false, n := s.n.(doorbells := s.n.doorbells + 1))
  }

  /** TxDataAvailable. */
  function Bell(s: State, script: seq<Round>): State
  {
    if !s.o.submitQueue || !s.o.completeQueue then Answer(s) else Drain(Answer(s), script)
  }

  function CountCompletion(n: Counters, status: Status, bytes: nat, pipeOut: bool): Counters
  {
    var m := n.(completions := n.completions + 1);
    match status
    case Success => m.(frames := n.frames + 1, bytesSent := n.bytesSent + bytes)
    case Aborted => m.(aborted := n.aborted + 1)
    case Stalled => m.(errors := n.errors + 1, stalls := if pipeOut then n.stalls + 1 else n.stalls)
    case Failed => m.(errors := n.errors + 1)
  }

  /** The first lines of TxComplete: the transfer is over and its packet is the driver's to return. */
  function Land(s: State, status: Status, bytes: nat): State
  {
    s.(packet := None, inFlight := false, n := CountCompletion(s.n, status, bytes, s.o.pipeOut),
       outstanding := if s.outstanding > 0 then s.outstanding - 1 else 0)
  }

  /** TxComplete. */
  function Done(s: State, status: Status, bytes: nat, returnOk: bool, script: seq<Round>): State
  {
    Drain(Return(Land(s, status, bytes), s.packet, returnOk), script)
  }

  /** The transmit part of quiesceDatapath, before the pipe is aborted. */
  function Quiesce(s: State): State
  {
    s.(ready := false)
  }

  /** Everything the transmit path holds but the two packet queues. */
  function Dismantle(s: State): State
  {
    s.(o := s.o.(dataQueue := false, action := false, pipeOut := false), scratch := None,
       packet := None, inFlight := false)
  }

  /** The transmit part of releaseDatapath. */
  function ReleaseDatapath(s: State, returnOk: bool): State
  {
    if s.packet.None? && s.inFlight then
      var t := Dismantle(s);
      t.(n := t.n.(lost := t.n.lost + 1))
    else
      Return(Dismantle(s), s.packet, returnOk)
  }

  /** The transmit part of ReleaseResources: the datapath, then the packet queues. */
  function Release(s: State, returnOk: bool): State
  {
    var t := ReleaseDatapath(s, returnOk);
    t.(o := t.o.(submitQueue := false, completeQueue := false))
  }

  /** What can happen to the transmit path, in any order. */
  datatype Event =
    | Offer(packets: seq<Packet>)
    | DoorbellRings(script: seq<Round>)
    | Completes(status: Status, bytes: nat, returnOk: bool, rounds: seq<Round>)
    | Quiesces
    | Releases(reclaimOk: bool)

  function Step(s: State, e: Event): State
  {
    match e
    case Offer(ps) => Arrive(s, ps)
    case DoorbellRings(script) => Bell(s, script)
    case Completes(status, bytes, returnOk, script) => Done(s, status, bytes, returnOk, script)
    case Quiesces => Quiesce(s)
    case Releases(ok) => Release(s, ok)
  }

  function Run(s: State, es: seq<Event>): State
    decreases |es|
  {
    if es == [] then s else Run(Step(s, es[0]), es[1..])
  }

  const ZERO := Counters(0, 0, 0, 0, 0, 0, 0, 0, 0, 0, 0, 0, 0, 0, 0)

  /** The gate opens last: while it is open every object the transmit path uses is there. */
  predicate GateIsSafe(s: State)
  {
    s.ready ==> s.o.pipeOut && s.o.action && s.o.submitQueue && s.o.completeQueue && s.scratch.Some?
  }

  /** A path that has moved nothing yet, with any subset of its objects in place. */
  predicate Initial(s: State)
  {
    && s.n == ZERO && !s.inFlight && s.packet.None? && s.queue == [] && s.outstanding == 0
    && s.log.offered == [] && s.log.taken == [] && s.log.disposed == [] && s.log.wire == []
    && GateIsSafe(s)
  }

  // ---- the meaning of the logs ---------------------------------------------------------

  function TakenPacket(t: Taken): Packet
  {
    t.packet
  }

  function DisposedPacket(d: Disposal): Packet
  {
    d.packet
  }

  function TakenPackets(ts: seq<Taken>): (ps: seq<Packet>)
    ensures |ps| == |ts|
  {
    PacketsOf(ts, TakenPacket)
  }

  function DisposedPackets(ds: seq<Disposal>): (ps: seq<Packet>)
    ensures |ps| == |ds|
  {
    PacketsOf(ds, DisposedPacket)
  }

  function CountReturned(ds: seq<Disposal>): nat
  {
    if ds == [] then 0 else CountReturned(ds[..|ds| - 1]) + if ds[|ds| - 1].returned then 1 else 0
  }

  /** The packets whose transfer was accepted, in order. */
  function Accepted(ts: seq<Taken>): seq<Packet>
  {
    if ts == [] then [] else Accepted(ts[..|ts| - 1]) + if ts[|ts| - 1].accepted then [ts[|ts| - 1].packet] else []
  }

  /** The wire carries, in order, transfers that the chip decodes to the frames of `ps`. */
  predicate Carries(wire: seq<seq<Byte>>, ps: seq<Packet>)
  {
    |wire| == |ps| && forall i :: 0 <= i < |ps| ==> CarriesPacket(wire[i], ps[i])
  }

  predicate CarriesPacket(bytes: seq<Byte>, p: Packet)
  {
    Transmittable(p) && bytes == Framed(p) && ChipDecodes(bytes) == Some(FrameOf(p))
  }

  lemma AppendTaken(ts: seq<Taken>, t: Taken)
    ensures TakenPackets(ts + [t]) == TakenPackets(ts) + [t.packet]
    ensures Accepted(ts + [t]) == Accepted(ts) + if t.accepted then [t.packet] else []
  {
    assert (ts + [t])[..|ts|] == ts;
    PacketsOfMore(ts, t, TakenPacket);
  }

  lemma AppendDisposal(ds: seq<Disposal>, d: Disposal)
    ensures DisposedPackets(ds + [d]) == DisposedPackets(ds) + [d.packet]
    ensures CountReturned(ds + [d]) == CountReturned(ds) + if d.returned then 1 else 0
  {
    assert (ds + [d])[..|ds|] == ds;
    PacketsOfMore(ds, d, DisposedPacket);
  }

  lemma CarriesMore(wire: seq<seq<Byte>>, ps: seq<Packet>, bytes: seq<Byte>, p: Packet)
    ensures Carries(wire, ps) && CarriesPacket(bytes, p) ==> Carries(wire + [bytes], ps + [p])
  {
    hide CarriesPacket;
  }

  lemma FramedIsDecodable(p: Packet)
    requires Transmittable(p)
    ensures CarriesPacket(Framed(p), p)
  {
    hide ChipDecodes, TxHeader;
    ChipDecodesFramed(FrameOf(p));
  }

  // ---- what every run keeps ------------------------------------------------------------

  function InFlightPackets(s: State): seq<Packet>
  {
    if s.packet.Some? then [s.packet.value] else []
  }

  /** The counters mean what their comments say. */
  predicate Ledger(n: Counters, log: Log)
  {
    && n.dequeued == |log.taken|
    && n.returned == CountReturned(log.disposed)
    && n.returned + n.lost == |log.disposed|
    && n.submitted == |Accepted(log.taken)|
    && n.submitted + n.rejected + n.submitFailures == |log.taken|
  }

  /** Holds in every reachable state, whatever the environment answers or delivers twice. */
  predicate Inv(s: State)
  {
    && (s.inFlight <==> s.packet.Some?)
    // FIFO, and exactly once: all that was offered is disposed of, in flight or still queued
    && s.log.offered == TakenPackets(s.log.taken) + s.queue
    && TakenPackets(s.log.taken) == DisposedPackets(s.log.disposed) + InFlightPackets(s)
    && Ledger(s.n, s.log)
    && Carries(s.log.wire, Accepted(s.log.taken))
    && (s.packet.Some? ==> s.log.wire != [] && CarriesPacket(s.log.wire[|s.log.wire| - 1], s.packet.value))
    && GateIsSafe(s)
  }

  lemma ArriveKeepsInv(s: State, ps: seq<Packet>)
    requires Inv(s)
    ensures Inv(Arrive(s, ps))
  {
    hide CarriesPacket, Carries;
  }

  lemma GateKept(s: State, t: State)
    requires GateIsSafe(s) && SameGear(s, t)
    ensures GateIsSafe(t)
  {
  }

  /** A turn either puts the packet in flight or disposes of it; nothing else moves. */
  lemma TakeEffect(s: State, r: Round)
    requires !s.inFlight && s.packet.None? && s.queue != []
    ensures var t, p := Take(s, r), s.queue[0]; var ok := t.inFlight;
      && t.log.offered == s.log.offered
      && t.log.taken == s.log.taken + [Taken(p, ok)]
      && t.packet == (if ok then Some(p) else None)
      && t.outstanding == s.outstanding + (if ok then 1 else 0)
      && (ok ==> Transmittable(p) && Holds(t.scratch, Framed(p)))
      && t.log.wire == s.log.wire + (if ok then [Framed(p)] else [])
      && t.log.disposed == s.log.disposed + (if ok then [] else [Disposal(p, s.o.completeQueue && r.returnOk)])
      && t.n.dequeued == s.n.dequeued + 1
      && t.n.submitted == s.n.submitted + (if ok then 1 else 0)
      && t.n.rejected + t.n.submitFailures == s.n.rejected + s.n.submitFailures + (if ok then 0 else 1)
      && t.n.returned == s.n.returned + (if !ok && s.o.completeQueue && r.returnOk then 1 else 0)
      && t.n.returned + t.n.lost == s.n.returned + s.n.lost + (if ok then 0 else 1)
  {
    hide Submit, Return, Framed, Holds;
  }

  lemma TakeKeepsInv(s: State, r: Round)
    requires Inv(s) && !s.inFlight && s.queue != []
    ensures Inv(Take(s, r))
  {
    hide CarriesPacket, Framed, Holds, GateIsSafe, Take, Carries;
    hide TakenPackets, DisposedPackets, CountReturned, Accepted;
    var p, t := s.queue[0], Take(s, r);
    TakeEffect(s, r);
    GateKept(s, t);
    AppendTaken(s.log.taken, Taken(p, t.inFlight));
    assert s.queue == [p] + s.queue[1..];
    if t.inFlight {
      FramedIsDecodable(p);
      CarriesMore(s.log.wire, Accepted(s.log.taken), Framed(p), p);
      assert t.log.wire[|t.log.wire| - 1] == Framed(p);
      assert t.log.disposed == s.log.disposed && InFlightPackets(s) == [];
    } else {
      AppendDisposal(s.log.disposed, Disposal(p, s.o.completeQueue && r.returnOk));
      assert t.log.wire == s.log.wire && Accepted(t.log.taken) == Accepted(s.log.taken);
      assert InFlightPackets(t) == [] == InFlightPackets(s);
    }
  }

  /** Returning the packet that was in flight restores the invariant the landing broke. */
  lemma LandAndReturnKeepInv(s: State, t: State, returnOk: bool)
    requires Inv(s) && !t.inFlight && t.packet.None?
    requires t.log == s.log && t.queue == s.queue && Ledger(t.n, t.log) && GateIsSafe(t)
    ensures Inv(Return(t, s.packet, returnOk))
  {
    hide CarriesPacket, Carries;
    if s.packet.Some? {
      AppendDisposal(s.log.disposed, Disposal(s.packet.value, t.o.completeQueue && returnOk));
    }
  }

  lemma {:induction false} DrainLoopKeepsInv(s: State, script: seq<Round>)
    requires Inv(s)
    ensures Inv(DrainLoop(s, script))
    decreases |script|, |s.queue|
  {
    hide Take, Arrive, Carries, CarriesPacket;
    if !s.inFlight {
      var r := Head(script);
      var s1 := Arrive(s, r.arrivals);
      ArriveKeepsInv(s, r.arrivals);
      if !r.nullPacket && s1.queue != [] {
        TakeKeepsInv(s1, r);
        DrainLoopKeepsInv(Take(s1, r), Tail(script));
      }
    }
  }

  lemma DrainKeepsInv(s: State, script: seq<Round>)
    requires Inv(s)
    ensures Inv(Drain(s, script))
  {
    hide DrainLoop, Carries, CarriesPacket, TakenPackets, DisposedPackets, CountReturned, Accepted;
    DrainLoopKeepsInv(s.(n := s.n.(drains := s.n.drains + 1)), script);
  }

  lemma AnswerKeepsInv(s: State)
    requires Inv(s)
    ensures Inv(Answer(s))
  {
    hide Carries, CarriesPacket;
  }

  lemma LandEffect(s: State, status: Status, bytes: nat)
    requires Ledger(s.n, s.log) && GateIsSafe(s)
    ensures var t := Land(s, status, bytes);
      !t.inFlight && t.packet.None? && t.log == s.log && t.queue == s.queue && Ledger(t.n, t.log) && GateIsSafe(t)
  {
    hide CountReturned, Accepted;
  }

  lemma DismantleEffect(s: State)
    ensures var t := Dismantle(s);
      !t.inFlight && t.packet.None? && t.log == s.log && t.queue == s.queue && t.n == s.n && t.ready == s.ready
      && (!s.ready ==> GateIsSafe(t))
  {
  }

  lemma ClosingIsSafe(s: State)
    ensures GateIsSafe(Quiesce(s))
  {
  }

  lemma ClosedIsSafe(s: State)
    requires !s.ready
    ensures GateIsSafe(s)
  {
  }

  /** Both teardown paths quiesce the datapath before they release it. */
  predicate Ordered(s: State, e: Event)
  {
    e.Releases? ==> !s.ready
  }

  predicate OrderedRun(s: State, es: seq<Event>)
    decreases |es|
  {
    es != [] ==> Ordered(s, es[0]) && OrderedRun(Step(s, es[0]), es[1..])
  }

  lemma StepKeepsInv(s: State, e: Event)
    requires Inv(s) && Ordered(s, e)
    ensures Inv(Step(s, e))
  {
    hide Drain, Arrive, Return, Carries, CarriesPacket, Land, Dismantle, Ledger, GateIsSafe;
    match e
    case Offer(ps) =>
      ArriveKeepsInv(s, ps);
    case DoorbellRings(script) =>
      AnswerKeepsInv(s);
      DrainKeepsInv(Answer(s), script);
    case Completes(status, bytes, returnOk, script) =>
      LandEffect(s, status, bytes);
      LandAndReturnKeepInv(s, Land(s, status, bytes), returnOk);
      DrainKeepsInv(Return(Land(s, status, bytes), s.packet, returnOk), script);
    case Quiesces =>
      ClosingIsSafe(s);
    case Releases(ok) =>
      DismantleEffect(s);
      LandAndReturnKeepInv(s, Dismantle(s), ok);
      ClosedIsSafe(Step(s, e));
  }

  /**
   * Every run, against any environment (completions that never come or come twice included): the
   * packets the stack offered are, in order, disposed of exactly once, in flight, or still queued;
   * the wire carries the accepted ones' frames; and the accounting identities hold.
   */
  lemma {:induction false} RunKeepsInv(s: State, es: seq<Event>)
    requires Inv(s) && OrderedRun(s, es)
    ensures Inv(Run(s, es))
    decreases |es|
  {
    hide Inv, Step, Ordered;
    if es != [] {
      StepKeepsInv(s, es[0]);
      RunKeepsInv(Step(s, es[0]), es[1..]);
    }
  }

  lemma EmptyLog(log: Log)
    requires log.taken == [] && log.disposed == [] && log.wire == []
    ensures TakenPackets(log.taken) == [] == DisposedPackets(log.disposed)
    ensures Accepted(log.taken) == [] && CountReturned(log.disposed) == 0
    ensures Carries(log.wire, Accepted(log.taken))
  {
  }

  lemma InitialInv(s: State)
    requires Initial(s)
    ensures Inv(s) && Attentive(s) && Faithful(s)
  {
    hide TakenPackets, DisposedPackets, Accepted, CountReturned, Carries, CarriesPacket;
    EmptyLog(s.log);
  }

  /** What `Inv` says of a run from the start, spelled out. */
  lemma ExactlyOnceInOrder(s: State, es: seq<Event>)
    requires Initial(s) && OrderedRun(s, es)
    ensures var f := Run(s, es);
      && f.log.offered == DisposedPackets(f.log.disposed) + InFlightPackets(f) + f.queue
      && f.n.dequeued == f.n.returned + f.n.lost + (if f.inFlight then 1 else 0)
      && f.n.dequeued == f.n.submitted + f.n.rejected + f.n.submitFailures
      && Carries(f.log.wire, Accepted(f.log.taken))
  {
    hide Run, OrderedRun, Carries, Initial;
    InitialInv(s);
    RunKeepsInv(s, es);
  }

  // ---- no lost wakeup ------------------------------------------------------------------

  /** DequeuePackets never reports a count with a null packet. */
  predicate NoNull(script: seq<Round>)
  {
    forall i :: 0 <= i < |script| ==> !script[i].nullPacket
  }

  predicate NoNulls(e: Event)
  {
    match e
    case DoorbellRings(script) => NoNull(script)
    case Completes(_, _, _, script) => NoNull(script)
    case _ => true
  }

  /** Queued packets wait for a completion or a doorbell that is bound to come. */
  predicate Attentive(s: State)
  {
    s.ready && s.queue != [] ==> s.inFlight || s.bell
  }

  lemma {:induction false} DrainLoopLeavesNothingWaiting(s: State, script: seq<Round>)
    requires NoNull(script)
    ensures var d := DrainLoop(s, script); d.inFlight || d.queue == []
    decreases |script|, |s.queue|
  {
    hide Take, Arrive;
    if !s.inFlight {
      var r := Head(script);
      var s1 := Arrive(s, r.arrivals);
      if s1.queue != [] {
        DrainLoopLeavesNothingWaiting(Take(s1, r), Tail(script));
      }
    }
  }

  lemma DrainIsAttentive(s: State, script: seq<Round>)
    requires NoNull(script) && GateIsSafe(s)
    ensures Attentive(Drain(s, script))
  {
    hide DrainLoop;
    DrainLoopLeavesNothingWaiting(s.(n := s.n.(drains := s.n.drains + 1)), script);
  }

  lemma StepKeepsAttentive(s: State, e: Event)
    requires Inv(s) && Attentive(s) && NoNulls(e) && Ordered(s, e)
    ensures Attentive(Step(s, e))
  {
    hide Drain, Return, Carries, CarriesPacket, Ledger, CountCompletion;
    match e
    case Offer(ps) =>
    case DoorbellRings(script) =>
      DrainIsAttentive(Answer(s), script);
    case Completes(status, bytes, returnOk, script) =>
      DrainIsAttentive(Return(Land(s, status, bytes), s.packet, returnOk), script);
    case Quiesces =>
    case Releases(_) =>
  }

  /** No wakeup is lost, wherever the stack enqueues: between events or between two dequeues. */
  lemma {:induction false} NoLostWakeup(s: State, es: seq<Event>)
    requires Inv(s) && Attentive(s) && OrderedRun(s, es)
    requires forall i :: 0 <= i < |es| ==> NoNulls(es[i])
    ensures Attentive(Run(s, es))
    decreases |es|
  {
    hide Inv, Step, Attentive, NoNulls, Ordered;
    if es != [] {
      StepKeepsInv(s, es[0]);
      StepKeepsAttentive(s, es[0]);
      NoLostWakeup(Step(s, es[0]), es[1..]);
    }
  }

  /**
   * The proviso is needed: a null packet at the doorbell of any idle path with packets queued
   * leaves them queued with nothing in flight and no notification to come.
   */
  lemma NullPacketLosesTheWakeup(s: State, r: Round)
    requires s.ready && GateIsSafe(s) && !s.inFlight && s.queue != [] && r.nullPacket
    ensures !Attentive(Step(s, DoorbellRings([r])))
  {
    hide Take;
  }

  // ---- the scratch buffer --------------------------------------------------------------

  /** A transfer completes at most once, and only if it was accepted. */
  predicate Legal(s: State, e: Event)
  {
    Ordered(s, e) && (e.Completes? ==> s.outstanding > 0)
  }

  predicate LegalRun(s: State, es: seq<Event>)
    decreases |es|
  {
    es != [] ==> Legal(s, es[0]) && LegalRun(Step(s, es[0]), es[1..])
  }

  /** One transfer at a time, and while it is outstanding the scratch buffer still holds it. */
  predicate Faithful(s: State)
  {
    && s.outstanding <= 1
    && (s.inFlight ==> s.outstanding == 1)
    && (s.outstanding == 1 && s.scratch.Some? ==>
          s.inFlight && s.log.wire != [] && Holds(s.scratch, s.log.wire[|s.log.wire| - 1]))
  }

  lemma TakeKeepsFaithful(s: State, r: Round)
    requires Faithful(s) && !s.inFlight && s.queue != [] && s.scratch.Some?
    ensures Faithful(Take(s, r))
  {
    hide Holds, Submit, Return, Framed;
  }

  lemma {:induction false} DrainLoopKeepsFaithful(s: State, script: seq<Round>)
    requires Faithful(s) && s.scratch.Some?
    ensures Faithful(DrainLoop(s, script))
    decreases |script|, |s.queue|
  {
    hide Take, Arrive, Holds;
    if !s.inFlight {
      var r := Head(script);
      var s1 := Arrive(s, r.arrivals);
      if !r.nullPacket && s1.queue != [] {
        TakeKeepsFaithful(s1, r);
        DrainLoopKeepsFaithful(Take(s1, r), Tail(script));
      }
    }
  }

  lemma DrainKeepsFaithful(s: State, script: seq<Round>)
    requires Faithful(s) && GateIsSafe(s)
    ensures Faithful(Drain(s, script))
  {
    hide DrainLoop, Holds;
    if s.scratch.Some? {
      DrainLoopKeepsFaithful(s.(n := s.n.(drains := s.n.drains + 1)), script);
    }
  }

  lemma StepKeepsFaithful(s: State, e: Event)
    requires Inv(s) && Faithful(s) && Legal(s, e)
    ensures Faithful(Step(s, e))
  {
    hide Drain, Return, Arrive, Holds, Carries, CarriesPacket;
    match e
    case Offer(_) =>
    case DoorbellRings(script) =>
      DrainKeepsFaithful(Answer(s), script);
    case Completes(status, bytes, returnOk, script) =>
      DrainKeepsFaithful(Return(Land(s, status, bytes), s.packet, returnOk), script);
    case Quiesces =>
    case Releases(_) =>
  }

  /**
   * While a transfer is in flight, the octets the USB stack is sending are exactly the in-flight
   * packet's framed transfer, which the chip decodes to that packet's frame.
   */
  lemma {:induction false} BufferHoldsWhatIsBeingSent(s: State, es: seq<Event>)
    requires Inv(s) && Faithful(s) && LegalRun(s, es)
    ensures var f := Run(s, es);
      && Faithful(f)
      && (f.inFlight && f.scratch.Some? ==>
            && f.packet.Some? && Transmittable(f.packet.value)
            && var n := TX_HEADER_LEN + f.packet.value.dataLen;
               n <= TX_BUFFER_LEN && ChipDecodes(f.scratch.value[..n]) == Some(FrameOf(f.packet.value)))
    decreases |es|
  {
    hide Step, ChipDecodes, TxHeader, Carries;
    if es != [] {
      StepKeepsInv(s, es[0]);
      StepKeepsFaithful(s, es[0]);
      BufferHoldsWhatIsBeingSent(Step(s, es[0]), es[1..]);
    }
  }

  /** Only a completion or the release ends a transfer's hold on the buffer. */
  lemma NothingOverwritesATransferInFlight(s: State, e: Event)
    requires s.inFlight && !e.Completes? && !e.Releases?
    ensures var t := Step(s, e); SameFlight(s, t) && t.scratch == s.scratch && t.log.taken == s.log.taken
  {
    hide DrainLoop;
  }

  // ---- teardown ------------------------------------------------------------------------

  /** Once the gate is closed nothing more is taken from the stack or put on the wire. */
  lemma {:induction false} ClosedGateTakesNothing(s: State, es: seq<Event>)
    requires !s.ready
    ensures var f := Run(s, es); !f.ready && f.log.taken == s.log.taken && f.log.wire == s.log.wire
    decreases |es|
  {
    hide DrainLoop;
    if es != [] {
      ClosedGateTakesNothing(Step(s, es[0]), es[1..]);
    }
  }

  /** The release hands the in-flight packet back through the queue that is still there. */
  lemma ReleaseReclaims(s: State, ok: bool)
    requires Inv(s) && !s.ready
    ensures var f := Release(s, ok);
      && DisposedPackets(f.log.disposed) == TakenPackets(f.log.taken)
      && f.n.dequeued == f.n.returned + f.n.lost
      && (s.o.completeQueue && ok ==> f.n.lost == s.n.lost)
      && (forall again :: Release(f, again) == f)
  {
    hide Return, Carries, CarriesPacket, GateIsSafe, TakenPackets, DisposedPackets, CountReturned, Accepted;
    StepKeepsInv(s, Releases(ok));
  }

  // ---- the status counters -------------------------------------------------------------

  /**
   * Each completion is a frame sent, an abort or an error; only a null packet is an error besides.
   * Stalls are errors, and the path drains at most once for each doorbell or completion.
   */
  predicate StatusesAddUp(n: Counters)
  {
    && n.frames + n.aborted <= n.completions <= n.frames + n.aborted + n.errors
    && n.stalls <= n.errors
    && n.deferred <= n.drains <= n.doorbells + n.completions
  }

  predicate NoOtherErrors(n: Counters)
  {
    n.completions == n.frames + n.aborted + n.errors
  }

  /** Nothing but packets has been counted, and null packets as errors. */
  predicate SameStatuses(m: Counters, n: Counters)
  {
    && n.completions == m.completions && n.frames == m.frames && n.aborted == m.aborted && n.stalls == m.stalls
    && n.doorbells == m.doorbells && n.drains == m.drains && n.deferred == m.deferred && n.errors >= m.errors
  }

  lemma TakeCounts(s: State, r: Round)
    requires !s.inFlight && s.queue != []
    ensures var t := Take(s, r); SameStatuses(s.n, t.n) && t.n.errors == s.n.errors
    ensures var t := Take(s, r); t.n.submitted - s.n.submitted == t.outstanding - s.outstanding
  {
    hide Submit, Return, Framed;
  }

  lemma {:induction false} DrainLoopCounts(s: State, script: seq<Round>)
    ensures var t := DrainLoop(s, script); SameStatuses(s.n, t.n) && (NoNull(script) ==> t.n.errors == s.n.errors)
    ensures var t := DrainLoop(s, script); t.n.submitted - s.n.submitted == t.outstanding - s.outstanding
    decreases |script|, |s.queue|
  {
    hide Take;
    if !s.inFlight {
      var r := Head(script);
      var s1 := Arrive(s, r.arrivals);
      if !r.nullPacket && s1.queue != [] {
        TakeCounts(s1, r);
        DrainLoopCounts(Take(s1, r), Tail(script));
      }
    }
  }

  /** A drain counts itself, and is deferred exactly when it finds a transfer in flight behind open gates. */
  lemma DrainCounts(s: State, script: seq<Round>)
    ensures var t := Drain(s, script);
      && SameStatuses(s.n.(drains := t.n.drains, deferred := t.n.deferred), t.n)
      && t.n.drains == s.n.drains + 1
      && t.n.deferred == s.n.deferred + (if s.o.submitQueue && s.o.completeQueue && s.ready && s.inFlight then 1 else 0)
      && (NoNull(script) ==> t.n.errors == s.n.errors)
      && t.n.submitted - s.n.submitted == t.outstanding - s.outstanding
  {
    hide DrainLoop;
    DrainLoopCounts(s.(n := s.n.(drains := s.n.drains + 1)), script);
  }

  /** A completion counts itself, and itself once more by its status. */
  lemma LandCounts(s: State, status: Status, bytes: nat, returnOk: bool)
    ensures var n := Return(Land(s, status, bytes), s.packet, returnOk).n;
      && n.completions == s.n.completions + 1
      && n.frames == s.n.frames + (if status == Success then 1 else 0)
      && n.bytesSent == s.n.bytesSent + (if status == Success then bytes else 0)
      && n.aborted == s.n.aborted + (if status == Aborted then 1 else 0)
      && n.errors == s.n.errors + (if status == Success || status == Aborted then 0 else 1)
      && n.stalls == s.n.stalls + (if status == Stalled && s.o.pipeOut then 1 else 0)
      && n.doorbells == s.n.doorbells && n.drains == s.n.drains && n.deferred == s.n.deferred
      && n.submitted == s.n.submitted
  {
    hide Return;
    var t := Land(s, status, bytes);
    assert t.n == CountCompletion(s.n, status, bytes, s.o.pipeOut);
  }

  lemma CompletionCounts(s: State, status: Status, bytes: nat, returnOk: bool, script: seq<Round>)
    ensures var t := Done(s, status, bytes, returnOk, script);
      && (StatusesAddUp(s.n) ==> StatusesAddUp(t.n))
      && (NoNull(script) && NoOtherErrors(s.n) ==> NoOtherErrors(t.n))
      && (s.outstanding > 0 && s.n.submitted == s.n.completions + s.outstanding ==>
            t.n.submitted == t.n.completions + t.outstanding)
  {
    hide Drain, Return, Land, NoNull;
    LandCounts(s, status, bytes, returnOk);
    LandOutstanding(s, status, bytes);
    DrainCounts(Return(Land(s, status, bytes), s.packet, returnOk), script);
  }

  lemma LandOutstanding(s: State, status: Status, bytes: nat)
    ensures Land(s, status, bytes).outstanding == if s.outstanding > 0 then s.outstanding - 1 else 0
  {
  }

  lemma DoorbellCounts(s: State, script: seq<Round>)
    ensures var t := Bell(s, script);
      && (StatusesAddUp(s.n) ==> StatusesAddUp(t.n))
      && (NoNull(script) && NoOtherErrors(s.n) ==> NoOtherErrors(t.n))
      && t.n.submitted - s.n.submitted == t.outstanding - s.outstanding && t.n.completions == s.n.completions
      && t.n.doorbells == s.n.doorbells + 1 && (s.o.submitQueue && s.o.completeQueue ==> t.n.drains == s.n.drains + 1)
  {
    hide Drain, NoNull;
    DrainCounts(Answer(s), script);
  }

  lemma ReleaseCounts(s: State, ok: bool)
    ensures var t := Release(s, ok);
      && SameStatuses(s.n, t.n) && t.n.errors == s.n.errors
      && t.n.submitted == s.n.submitted && t.outstanding == s.outstanding
  {
    hide Return;
  }

  lemma StepCounts(s: State, e: Event)
    requires StatusesAddUp(s.n)
    ensures var t := Step(s, e); StatusesAddUp(t.n) && (NoNulls(e) && NoOtherErrors(s.n) ==> NoOtherErrors(t.n))
    ensures Legal(s, e) && s.n.submitted == s.n.completions + s.outstanding ==>
      var t := Step(s, e); t.n.submitted == t.n.completions + t.outstanding
  {
    hide Bell, Done, Release, NoNull;
    match e
    case Offer(_) =>
    case DoorbellRings(script) =>
      DoorbellCounts(s, script);
    case Completes(status, bytes, returnOk, script) =>
      CompletionCounts(s, status, bytes, returnOk, script);
    case Quiesces =>
    case Releases(ok) =>
      ReleaseCounts(s, ok);
  }

  /** Over every run, whatever completes, and however often: the status counters add up. */
  lemma {:induction false} RunCounts(s: State, es: seq<Event>)
    requires StatusesAddUp(s.n)
    ensures StatusesAddUp(Run(s, es).n)
    ensures (forall i :: 0 <= i < |es| ==> NoNulls(es[i])) && NoOtherErrors(s.n) ==> NoOtherErrors(Run(s, es).n)
    decreases |es|
  {
    hide Step, StatusesAddUp, NoOtherErrors, NoNulls;
    if es != [] {
      StepCounts(s, es[0]);
      RunCounts(Step(s, es[0]), es[1..]);
    }
  }

  /** When transfers complete once, those accepted are those completed and those outstanding. */
  lemma {:induction false} SubmittedIsCompletedOrOutstanding(s: State, es: seq<Event>)
    requires StatusesAddUp(s.n) && LegalRun(s, es) && s.n.submitted == s.n.completions + s.outstanding
    ensures var f := Run(s, es); f.n.submitted == f.n.completions + f.outstanding
    decreases |es|
  {
    hide Step, StatusesAddUp, Legal;
    if es != [] {
      StepCounts(s, es[0]);
      SubmittedIsCompletedOrOutstanding(Step(s, es[0]), es[1..]);
    }
  }
}
