/**
 * The transmit half of SMSC95xxDriver_datapath.cpp, in place over the driver's own fields. Every
 * method is proved to take the step of TxSpec that bears its name.
 */
module TxPath {
  import opened Bytes
  import opened Codec
  import opened Packets
  import Spec = TxSpec

  class TxPath {
    // the driver's fields
    var pipeOut: Foreign?
    var txAction: Foreign?
    var txDataQueue: Foreign?
    var txSubmit: Foreign?
    var txComplete: Foreign?
    var txBytes: array?<Byte>
    var txInFlight: bool
    var txPacket: Option<Packet>
    var txDatapathReady: bool
    var n: Spec.Counters
    // the stack's side of the submission queue
    var submission: seq<Packet>
    var notified: bool
    // logs
    ghost var log: Spec.Log
    ghost var outstanding: nat

    ghost predicate Valid()
      reads this, txBytes
    {
      txBytes != null ==> txBytes.Length == Spec.TX_BUFFER_LEN
    }

    ghost function Objects(): Spec.Objects
      reads this
    {
      Spec.Objects(pipeOut != null, txAction != null, txDataQueue != null, txSubmit != null, txComplete != null)
    }

    ghost function Scratch(): Option<Spec.Scratch>
      requires Valid()
      reads this, txBytes
    {
      if txBytes == null then None else Some(txBytes[..])
    }

    /** The value TxSpec speaks of. */
    ghost function View(): Spec.State
      requires Valid()
      reads this, txBytes
    {
      Spec.State(Objects(), Scratch(), txDatapathReady, txInFlight, txPacket, n,
                 submission, notified, log, outstanding)
    }

    /** Before setupDatapath: the two packet queues exist, nothing else does. */
    constructor (submitQueue: Foreign, completeQueue: Foreign)
      ensures Valid() && Spec.Initial(View()) && txSubmit == submitQueue && txComplete == completeQueue
      ensures txBytes == null && Objects() == Spec.Objects(false, false, false, true, true)
    {
      pipeOut, txAction, txDataQueue, txBytes := null, null, null, null;
      txSubmit, txComplete := submitQueue, completeQueue;
      txInFlight, txPacket, txDatapathReady := false, None, false;
      n := Spec.ZERO;
      submission, notified := [], false;
      log := Spec.Log([], [], [], []);
      outstanding := 0;
    }

    /** The stack enqueues: an edge-triggered notification. */
    method StackEnqueues(packets: seq<Packet>)
      requires Valid()
      modifies this`submission, this`notified, this`log
      ensures Valid()
      ensures View() == Spec.Arrive(old(View()), packets)
    {
      if submission == [] && packets != [] {
        notified := true;
      }
      submission := submission + packets;
      log := log.(offered := log.offered + packets);
    }

    method ReturnPacket(packet: Option<Packet>, returnOk: bool)
      requires Valid()
      modifies this`n, this`log
      ensures Valid()
      ensures View() == Spec.Return(old(View()), packet, returnOk)
    {
      if packet.None? {
        return;
      }
      if txComplete == null {
        n := n.(lost := n.lost + 1);
        log := log.(disposed := log.disposed + [Spec.Disposal(packet.value, false)]);
        return;
      }
      var ret := txComplete.Call(returnOk);
      if !ret {
        n := n.(lost := n.lost + 1);
        log := log.(disposed := log.disposed + [Spec.Disposal(packet.value, false)]);
        return;
      }
      n := n.(returned := n.returned + 1);
      log := log.(disposed := log.disposed + [Spec.Disposal(packet.value, true)]);
    }

    /** memcpy of the packet's frame behind the header: it reads and writes inside both buffers. */
    method CopyFrame(packet: Packet)
      requires Valid() && txBytes != null && Fits(packet)
      requires TX_HEADER_LEN + packet.dataLen <= Spec.TX_BUFFER_LEN
      modifies txBytes
      ensures txBytes[..]
           == old(txBytes[..TX_HEADER_LEN]) + FrameOf(packet) + old(txBytes[TX_HEADER_LEN + packet.dataLen..])
    {
      forall i | 0 <= i < packet.dataLen {
        txBytes[TX_HEADER_LEN + i] := packet.buffer[packet.dataOff + i];
      }
    }

    /** The middle of txSubmitPacket: header and frame into the scratch buffer, or a refusal. */
    method FramePacket(packet: Packet) returns (ok: bool)
      requires Valid() && txBytes != null && packet.dataLen <= Spec.TX_MAX_FRAME
      modifies txBytes
      ensures ok <==> Spec.Transmittable(packet)
      ensures ok ==> txBytes[..] == Spec.Overlay(old(txBytes[..]), Spec.Framed(packet))
      ensures !ok && LegalFrameLen(packet.dataLen) ==>
        txBytes[..] == Spec.Overlay(old(txBytes[..]), TxHeader(packet.dataLen))
      ensures !ok && !LegalFrameLen(packet.dataLen) ==> txBytes[..] == old(txBytes[..])
    {
      hide TxHeader;
      var frameAt := packet.base + packet.dataOff;
      var hdrLen := TxPrepend(txBytes, Spec.TX_BUFFER_LEN, packet.dataLen);
      if hdrLen != TX_HEADER_LEN {
        return false;
      }
      if frameAt < LOWEST_MAPPED || packet.dataOff + packet.dataLen > POOL_BUFFER_SIZE {
        return false;
      }
      CopyFrame(packet);
      return true;
    }

    method SubmitPacket(packet: Packet, asyncOk: bool) returns (ok: bool)
      requires Valid() && !txInFlight
      modifies this`n, this`log, this`txInFlight, this`txPacket, this`outstanding, txBytes
      ensures Valid()
      ensures ok == Spec.Submit(old(View()), packet, asyncOk).1
      ensures View() == Spec.Submit(old(View()), packet, asyncOk).0
    {
      hide TxHeader, Spec.Framed, Spec.Overlay, Spec.Launch;
      if packet.dataLen == 0 || packet.dataLen > Spec.TX_MAX_FRAME {
        n := n.(rejected := n.rejected + 1);
        return false;
      }
      if txBytes == null || pipeOut == null || txAction == null {
        n := n.(rejected := n.rejected + 1);
        return false;
      }
      var framed := FramePacket(packet);
      if !framed {
        n := n.(rejected := n.rejected + 1);
        return false;
      }
      ok := Launch(packet, asyncOk);
    }

    /** The flags are set before AsyncIO, and undone if it fails. */
    method Launch(packet: Packet, asyncOk: bool) returns (ok: bool)
      requires Valid() && txBytes != null && pipeOut != null
      requires Fits(packet) && TX_HEADER_LEN + packet.dataLen <= Spec.TX_BUFFER_LEN
      modifies this`n, this`log, this`txInFlight, this`txPacket, this`outstanding
      ensures Valid() && (View(), ok) == Spec.Launch(old(View()), packet, asyncOk)
    {
      txInFlight := true;
      txPacket := Some(packet);
      var ret := pipeOut.Call(asyncOk);
      if !ret {
        txInFlight := false;
        txPacket := None;
        n := n.(submitFailures := n.submitFailures + 1);
        return false;
      }
      outstanding := outstanding + 1;
      log := log.(wire := log.wire + [txBytes[..TX_HEADER_LEN + packet.dataLen]]);
      n := n.(submitted := n.submitted + 1);
      return true;
    }

    /** One turn of the drain loop, once DequeuePackets has yielded a packet. */
    method TakePacket(round: Spec.Round) returns (sent: bool)
      requires Valid() && !txInFlight && submission != []
      modifies this`n, this`log, this`txInFlight, this`txPacket, this`outstanding, this`submission, txBytes
      ensures Valid()
      ensures View() == Spec.Take(old(View()), round) && sent == txInFlight
    {
      hide Spec.Submit, Spec.Return;
      var packet := Dequeue();
      sent := SubmitPacket(packet, round.asyncOk);
      LogTaken(packet, sent);
      if !sent {
        ReturnPacket(Some(packet), round.returnOk);
      }
    }

    method Dequeue() returns (packet: Packet)
      requires Valid() && submission != []
      modifies this`submission, this`n
      ensures Valid() && packet == old(submission)[0]
      ensures View() == old(View()).(queue := old(submission)[1..], n := old(n).(dequeued := old(n).dequeued + 1))
    {
      packet := submission[0];
      submission := submission[1..];
      n := n.(dequeued := n.dequeued + 1);
    }

    ghost method LogTaken(packet: Packet, sent: bool)
      requires Valid()
      modifies this`log
      ensures Valid()
      ensures View() == old(View()).(log := old(log).(taken := old(log).taken + [Spec.Taken(packet, sent)]))
    {
      log := log.(taken := log.taken + [Spec.Taken(packet, sent)]);
    }

    method DrainSubmission(script: seq<Spec.Round>)
      requires Valid()
      modifies this`n, this`log, this`txInFlight, this`txPacket, this`outstanding
      modifies this`submission, this`notified, txBytes
      ensures Valid()
      ensures View() == Spec.Drain(old(View()), script)
    {
      hide Spec.Take, Spec.Arrive;
      n := n.(drains := n.drains + 1);
      if txSubmit == null || txComplete == null {
        return;
      }
      if !txDatapathReady {
        return;
      }
      ghost var entry := View();
      var rest := script;
      var sent := 0;
      while !txInFlight
        invariant Valid()
        invariant Spec.DrainLoop(View(), rest) == Spec.DrainLoop(entry, script)
        invariant if sent == 0 then txInFlight == entry.inFlight else txInFlight && !entry.inFlight
        decreases |rest|, |submission|, !txInFlight
      {
        var round := Spec.Head(rest);
        rest := Spec.Tail(rest);
        StackEnqueues(round.arrivals);
        var count := txSubmit.Call(if round.nullPacket || submission != [] then 1 else 0);
        if count == 0 {
          break;
        }
        if round.nullPacket {
          n := n.(errors := n.errors + 1);
          break;
        }
        var ok := TakePacket(round);
        if ok {
          sent := sent + 1;
        }
      }
      if txInFlight && sent == 0 {
        n := n.(deferred := n.deferred + 1);
      }
    }

    method TxDataAvailable(script: seq<Spec.Round>)
      requires Valid()
      modifies this`n, this`log, this`txInFlight, this`txPacket, this`outstanding
      modifies this`submission, this`notified, txBytes
      ensures Valid()
      ensures View() == Spec.Bell(old(View()), script)
    {
      notified := false;
      n := n.(doorbells := n.doorbells + 1);
      if txSubmit == null || txComplete == null {
        return;
      }
      DrainSubmission(script);
    }

    /** The status branches of TxComplete. */
    method CountCompletion(status: Status, actualByteCount: nat)
      requires Valid()
      modifies this`n
      ensures n == Spec.CountCompletion(old(n), status, actualByteCount, pipeOut != null)
    {
      n := n.(completions := n.completions + 1);
      if status == Success {
        n := n.(frames := n.frames + 1);
        n := n.(bytesSent := n.bytesSent + actualByteCount);
      } else if status == Aborted {
        n := n.(aborted := n.aborted + 1);
      } else {
        n := n.(errors := n.errors + 1);
        if status == Stalled {
          if pipeOut != null {
            var _ := pipeOut.Call(true);
            n := n.(stalls := n.stalls + 1);
          }
        }
      }
    }

    /** First of all: the transfer is over, and taking its packet makes a second completion harmless. */
    method LandTransfer(status: Status, actualByteCount: nat) returns (packet: Option<Packet>)
      requires Valid()
      modifies this`n, this`txInFlight, this`txPacket, this`outstanding
      ensures Valid() && packet == old(txPacket)
      ensures View() == Spec.Land(old(View()), status, actualByteCount)
    {
      hide Spec.CountCompletion;
      outstanding := if outstanding > 0 then outstanding - 1 else 0;
      packet := txPacket;
      txPacket := None;
      txInFlight := false;
      CountCompletion(status, actualByteCount);
    }

    method TxComplete(status: Status, actualByteCount: nat, returnOk: bool, script: seq<Spec.Round>)
      requires Valid()
      modifies this`n, this`log, this`txInFlight, this`txPacket, this`outstanding
      modifies this`submission, this`notified, txBytes
      ensures Valid()
      ensures View() == Spec.Done(old(View()), status, actualByteCount, returnOk, script)
    {
      hide Spec.Land, Spec.Drain, Spec.Return;
      var packet := LandTransfer(status, actualByteCount);
      ReturnPacket(packet, returnOk);
      DrainSubmission(script);
    }

    /** The transmit part of quiesceDatapath. */
    method CloseGate()
      requires Valid()
      modifies this`txDatapathReady
      ensures Valid() && View() == Spec.Quiesce(old(View()))
    {
      txDatapathReady := false;
    }

    method DropObjects()
      requires Valid()
      modifies this`txDataQueue, this`txAction, this`pipeOut, this`txBytes
      ensures Valid() && txBytes == null
      ensures var was := old(View());
        View() == was.(o := was.o.(dataQueue := false, action := false, pipeOut := false), scratch := None)
    {
      txDataQueue := null;
      txAction := null;
      pipeOut := null;
      txBytes := null;
    }

    /** The packet of a transfer that has not completed, taken before it is handed back. */
    method TakeInFlight() returns (packet: Option<Packet>)
      requires Valid()
      modifies this`txPacket, this`txInFlight, this`n
      ensures Valid() && packet == old(txPacket)
      ensures var was := old(View()); var lost := was.packet.None? && was.inFlight;
        View() == was.(packet := None, inFlight := false,
                       n := if lost then was.n.(lost := was.n.lost + 1) else was.n)
    {
      packet := txPacket;
      if txPacket.Some? {
        txPacket := None;
        txInFlight := false;
      } else if txInFlight {
        txInFlight := false;
        n := n.(lost := n.lost + 1);
      }
    }

    /** The transmit part of releaseDatapath. */
    method ReleaseDatapath(returnOk: bool)
      requires Valid()
      modifies this
      ensures Valid() && txBytes == null && txSubmit == old(txSubmit) && txComplete == old(txComplete)
      ensures View() == Spec.ReleaseDatapath(old(View()), returnOk)
    {
      hide Spec.Return;
      DropObjects();
      var packet := TakeInFlight();
      if packet.Some? {
        ReturnPacket(packet, returnOk);
      }
    }

    /** The packet queues go only after the datapath. */
    method ReleaseQueues()
      requires Valid()
      modifies this
      ensures Valid() && txBytes == old(txBytes)
      ensures View() == old(View()).(o := old(View()).o.(submitQueue := false, completeQueue := false))
    {
      txSubmit := null;
      txComplete := null;
    }
  }
}
