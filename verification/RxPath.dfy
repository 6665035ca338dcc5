/**
 * The receive half of SMSC95xxDriver_datapath.cpp, in place over the driver's own fields. Every
 * method is proved to take the step of RxSpec or RxRecords that bears its name.
 */
module RxPath {
  import opened Bytes
  import opened Codec
  import opened Packets
  import R = RxRecords
  import Spec = RxSpec

  /** The octets in the buffer, reads outstanding, the timer's deadline, the time, the last wake. */
  datatype Environment = Environment(memory: Spec.Memory, outstanding: nat, deadline: Option<nat>,
                                     clock: nat, lastWake: int, dead: bool)

  class RxPath {
    // the driver's fields
    var pipeIn: Foreign?
    var rxAction: Foreign?
    var rxBackoffTimer: Foreign?
    var pool: Foreign?
    var rxSubmit: Foreign?
    var rxComplete: Foreign?
    var rxBytes: array?<Byte>
    var rxArmed: bool
    var rxRunning: bool
    var stopping: bool
    var rxIdleRun: nat
    var rxBackoffActive: bool
    var n: Spec.Counters
    var records: R.Counters
    // the environment, and logs
    ghost var log: R.Log
    ghost var env: Environment

    ghost predicate Valid()
      reads this, rxBytes
    {
      rxBytes != null ==> rxBytes.Length == Spec.RX_BUFFER_LEN && rxBytes[..] == env.memory
    }

    ghost function Objects(): Spec.Objects
      reads this
    {
      Spec.Objects(pipeIn != null, rxAction != null, rxBytes != null, rxBackoffTimer != null, pool != null,
                   rxSubmit != null, rxComplete != null)
    }

    ghost function Books(): R.Books
      reads this
    {
      R.Books(records, log)
    }

    /** The value RxSpec speaks of. */
    ghost function View(): Spec.State
      reads this
    {
      Spec.State(Objects(), rxArmed, rxRunning, stopping, rxIdleRun, rxBackoffActive, n, Books(),
                 env.memory, env.outstanding, env.deadline, env.clock, env.lastWake, env.dead)
    }

    /** Before setupDatapath: the pool and the two packet queues exist, nothing else does. */
    constructor (thePool: Foreign, submitQueue: Foreign, completeQueue: Foreign)
      ensures Valid() && Spec.Initial(View()) && rxBytes == null
      ensures Objects() == Spec.Objects(false, false, false, false, true, true, true)
    {
      pipeIn, rxAction, rxBackoffTimer, rxBytes := null, null, null, null;
      pool, rxSubmit, rxComplete := thePool, submitQueue, completeQueue;
      rxArmed, rxRunning, stopping, rxIdleRun, rxBackoffActive := false, false, false, 0, false;
      n, records := Spec.ZERO, R.ZERO;
      log := R.Log([], [], []);
      env := Environment(seq(Spec.RX_BUFFER_LEN, _ => 0), 0, None, 0, -Spec.BACKOFF_NS, false);
    }

    // ---- the environment -----------------------------------------------------------------

    /** The device writes the octets of the transfer that is outstanding. */
    method DeviceWrites(data: seq<Byte>)
      requires Valid() && rxBytes != null && |data| <= Spec.RX_BUFFER_LEN
      modifies this`env, rxBytes
      ensures Valid() && View() == Spec.DeviceWrites(old(View()), data)
    {
      forall i | 0 <= i < |data| {
        rxBytes[i] := data[i];
      }
      env := env.(memory := data + env.memory[|data|..]);
    }

    // ---- the read loop -------------------------------------------------------------------

    method ArmRxRead(asyncOk: bool) returns (r: Spec.Result)
      requires Valid()
      modifies this`rxArmed, this`env, this`n
      ensures Valid()
      ensures View() == Spec.Arm(old(View()), asyncOk).0 && r == Spec.Arm(old(View()), asyncOk).1
    {
      if stopping {
        return Spec.Offline;
      }
      if pipeIn == null || rxAction == null || rxBytes == null {
        return Spec.NotAttached;
      }
      if rxArmed {
        return Spec.Armed;
      }
      var ret := pipeIn.Call(asyncOk);
      if !ret {
        n := n.(armFailures := n.armFailures + 1);
        return Spec.Refused;
      }
      env := env.(outstanding := env.outstanding + 1, dead := false);
      rxArmed := true;
      n := n.(armCount := n.armCount + 1);
      return Spec.Armed;
    }

    /** armRxRead where nobody is left to tell of a refusal. */
    method ArmOrDie(asyncOk: bool)
      requires Valid()
      modifies this`rxArmed, this`env, this`n
      ensures Valid() && View() == Spec.ArmOrDie(old(View()), asyncOk)
    {
      hide Spec.Arm;
      var aret := ArmRxRead(asyncOk);
      if aret == Spec.Refused {
        env := env.(dead := true);
      }
    }

    /** Past the idle limit the timer posts the next read. */
    method HandToTimer(wakeOk: bool)
      requires Valid()
      modifies this`env, this`n, this`rxBackoffActive
      ensures Valid()
      ensures View() == if rxBackoffTimer == null then old(View()) else Spec.BackOff(old(View()), wakeOk)
    {
      if rxBackoffTimer == null {
        return;
      }
      var tret := rxBackoffTimer.Call(wakeOk);
      if !tret {
        rxBackoffActive := false;
        env := env.(dead := true);
        return;
      }
      env := env.(deadline := Some(env.clock + Spec.BACKOFF_NS), dead := false);
      if !rxBackoffActive {
        rxBackoffActive := true;
        n := n.(episodes := n.episodes + 1);
      }
    }

    method EndIdleRun()
      requires Valid()
      modifies this`rxIdleRun, this`rxBackoffActive
      ensures Valid() && View() == old(View()).(idleRun := 0, backoffActive := false)
    {
      rxIdleRun, rxBackoffActive := 0, false;
    }

    method CountIdle()
      requires Valid()
      modifies this`rxIdleRun
      ensures Valid() && View() == old(View()).(idleRun := old(rxIdleRun) + 1) && rxIdleRun == old(rxIdleRun) + 1
    {
      rxIdleRun := rxIdleRun + 1;
    }

    method RearmRxRead(carriedData: bool, grant: Spec.Grant)
      requires Valid()
      modifies this`rxArmed, this`env, this`n, this`rxIdleRun, this`rxBackoffActive
      ensures Valid() && View() == Spec.Rearm(old(View()), carriedData, grant)
    {
      hide Spec.ArmOrDie, Spec.BackOff, Spec.Posts;
      if carriedData {
        EndIdleRun();
        ArmOrDie(grant.asyncOk);
        return;
      }
      CountIdle();
      if rxIdleRun <= Spec.IDLE_RUN_LIMIT {
        ArmOrDie(grant.asyncOk);
        return;
      }
      HandToTimer(grant.wakeOk);
    }

    method RxBackoffExpired(asyncOk: bool)
      requires Valid()
      modifies this`rxArmed, this`env, this`n
      ensures Valid() && View() == Spec.Wake(old(View()), asyncOk)
    {
      hide Spec.ArmOrDie;
      env := env.(deadline := None, lastWake := env.clock);
      n := n.(wakes := n.wakes + 1);
      if !rxRunning {
        return;
      }
      ArmOrDie(asyncOk);
    }

    // ---- one record ----------------------------------------------------------------------

    method AcquirePacket(answer: R.Answer) returns (packet: Option<Packet>)
      requires Valid() && pool != null
      modifies this`records, this`log
      ensures (Books(), packet) == R.Acquire(old(Books()), answer, rxSubmit != null)
    {
      if rxSubmit != null {
        packet := rxSubmit.Call(answer.fromQueue);
        if packet.Some? {
          records := records.(submitDequeued := records.submitDequeued + 1);
          log := log.(acquired := log.acquired + [packet.value]);
          return;
        }
        records := records.(submitEmpty := records.submitEmpty + 1);
      } else {
        records := records.(submitEmpty := records.submitEmpty + 1);
      }
      packet := pool.Call(answer.fromPool);
      if packet.None? {
        records := records.(poolFailures := records.poolFailures + 1);
        return;
      }
      log := log.(acquired := log.acquired + [packet.value]);
    }

    method DeallocatePacket(packet: Packet, freeOk: bool) returns (ok: bool)
      requires pool != null
      modifies this`log
      ensures ok == freeOk && log == R.Free(old(log), packet)
    {
      ok := pool.Call(freeOk);
      log := log.(freed := log.freed + [packet]);
    }

    method DeliverPacket(packet: Packet, payload: seq<Byte>, answer: R.Answer) returns (delivered: bool)
      requires pool != null && rxComplete != null
      requires packet.dataOff + |payload| <= POOL_BUFFER_SIZE
      modifies this`records, this`log
      ensures Books() == R.Deliver(old(Books()), packet, payload, answer)
    {
      var filled := Filled(packet, payload);
      delivered := rxComplete.Call(answer.enqueueOk);
      if delivered {
        log := log.(delivered := log.delivered + [R.Delivery(packet, FrameOf(filled))]);
        records := records.(frames := records.frames + 1);
        return;
      }
      records := records.(enqueueFailures := records.enqueueFailures + 1);
      var freed := DeallocatePacket(packet, answer.freeOk);
      if !freed {
        records := records.(lost := records.lost + 1);
      }
      records := records.(dropped := records.dropped + 1, dropEnqueue := records.dropEnqueue + 1);
    }

    /** The second half of the record loop's body: a packet to fill, or to hand back. */
    method FillPacket(packet: Packet, payload: seq<Byte>, answer: R.Answer) returns (on: bool)
      requires pool != null && rxComplete != null
      modifies this`records, this`log
      ensures Books() == R.Fill(old(Books()), packet, payload, answer).0
      ensures on == R.Fill(old(Books()), packet, payload, answer).1
    {
      hide R.Deliver;
      if packet.base < LOWEST_MAPPED {
        records := records.(dropped := records.dropped + 1, dropBadAddr := records.dropBadAddr + 1);
        var _ := DeallocatePacket(packet, answer.freeOk);
        return false;
      }
      if packet.dataOff + |payload| > POOL_BUFFER_SIZE {
        records := records.(dropped := records.dropped + 1, dropBadFit := records.dropBadFit + 1);
        var _ := DeallocatePacket(packet, answer.freeOk);
        return true;
      }
      if !answer.setLenOk {
        records := records.(dropped := records.dropped + 1, dropSetLen := records.dropSetLen + 1);
        var freed := DeallocatePacket(packet, answer.freeOk);
        if !freed {
          records := records.(lost := records.lost + 1);
        }
        return true;
      }
      var _ := DeliverPacket(packet, payload, answer);
      return true;
    }

    /** The body of the record loop, for the frame that lies at `frame` in the buffer. */
    method HandleRecord(frame: nat, frameLen: nat, status: Word, answer: R.Answer) returns (on: bool)
      requires Valid() && rxBytes != null && pool != null && rxComplete != null
      requires RX_CRC_LEN <= frameLen && frame + frameLen <= Spec.RX_BUFFER_LEN
      modifies this`records, this`log
      ensures var r := Record(status, env.memory[frame..frame + frameLen]);
        Books() == R.Handle(old(Books()), r, answer, rxSubmit != null).0
        && on == R.Handle(old(Books()), r, answer, rxSubmit != null).1
    {
      hide HasBit, R.Acquire, R.Fill;
      ghost var r := Record(status, env.memory[frame..frame + frameLen]);
      records := records.(records := records.records + 1);
      if HasBit(status, RX_ERROR_SUM) || HasBit(status, RX_FILTER_FAIL) {
        records := records.(dropped := records.dropped + 1, dropErrSum := records.dropErrSum + 1);
        return true;
      }
      if frameLen <= RX_CRC_LEN {
        records := records.(dropped := records.dropped + 1, dropShort := records.dropShort + 1);
        return true;
      }
      var payloadLen := frameLen - RX_CRC_LEN;
      if payloadLen > R.RX_MAX_PAYLOAD {
        records := records.(dropped := records.dropped + 1, dropOversize := records.dropOversize + 1);
        return true;
      }
      var packet := AcquirePacket(answer);
      if packet.None? {
        records := records.(dropped := records.dropped + 1, dropNoBuffer := records.dropNoBuffer + 1);
        return false;
      }
      assert rxBytes[frame..frame + payloadLen] == R.Payload(r);
      on := FillPacket(packet.value, rxBytes[frame..frame + payloadLen], answer);
    }

    // ---- one transfer --------------------------------------------------------------------

    /** The walk of a transfer splits off its first record. */
    lemma WalkOn(data: seq<Byte>, at: nat)
      requires at % 4 == 0
      ensures InBounds(data, Walk(data, at)) && R.HaveCrc(Read(data, Walk(data, at)))
      ensures Next(data, at).None? ==> Read(data, Walk(data, at)) == []
      ensures Next(data, at).Some? ==>
        var hit := Next(data, at).value;
        && RX_CRC_LEN <= hit.len && hit.from + hit.len <= |data| && hit.next % 4 == 0
        && at < hit.next <= |data| + 3
        && InBounds(data, Walk(data, hit.next))
        && Read(data, Walk(data, at))
           == [Record(hit.status, data[hit.from..hit.from + hit.len])] + Read(data, Walk(data, hit.next))
    {
      hide FromLe32, LenField, PadLen;
      WalkGeometry(data, at);
      Spec.ReadLengths(data, Walk(data, at));
      if Next(data, at).Some? {
        assert Walk(data, at)[1..] == Walk(data, Next(data, at).value.next);
        assert Next(data, at).value == Walk(data, at)[0];
        WalkGeometry(data, Next(data, at).value.next);
      }
    }

    lemma SliceOfPrefix(s: seq<Byte>, n: nat, from: nat, to: nat)
      requires from <= to <= n <= |s|
      ensures s[..n][from..to] == s[from..to]
    {
    }

    /** The record loop over the first `actual` octets of the buffer. */
    method HandleRecords(actual: nat, script: seq<R.Answer>) returns (count: nat)
      requires Valid() && rxBytes != null && pool != null && rxComplete != null && actual <= Spec.RX_BUFFER_LEN
      modifies this`records, this`log
      ensures Books() == R.HandleAll(old(Books()), Spec.Transfer(env.memory, actual), script, rxSubmit != null)
      ensures count == 0 <==> Spec.Transfer(env.memory, actual) == []
    {
      hide Next, Walk, Read, R.Handle, R.HaveCrc;
      ghost var data := env.memory[..actual];
      assert rxBytes[..actual] == data;
      var offset: nat, frame: nat, frameLen: nat, rxStatus: Word := 0, 0, 0, 0;
      count := 0;
      var rest := script;
      ghost var remaining := Spec.Transfer(env.memory, actual);
      WalkOn(data, 0);
      while true
        invariant offset % 4 == 0 && offset <= actual + 3
        invariant InBounds(data, Walk(data, offset)) && R.HaveCrc(remaining)
        invariant remaining == Read(data, Walk(data, offset))
        invariant R.HandleAll(Books(), remaining, rest, rxSubmit != null)
               == R.HandleAll(old(Books()), Spec.Transfer(env.memory, actual), script, rxSubmit != null)
        invariant if count == 0 then offset == 0 else Spec.Transfer(env.memory, actual) != []
        decreases actual + 4 - offset
      {
        var ok;
        WalkOn(data, offset);
        ok, offset, frame, frameLen, rxStatus := RxNext(rxBytes, actual, offset, frame, frameLen, rxStatus);
        if !ok {
          break;
        }
        count := count + 1;
        WalkOn(data, offset);
        SliceOfPrefix(env.memory, actual, frame, frame + frameLen);
        remaining := remaining[1..];
        var answer := R.Head(rest);
        rest := R.Tail(rest);
        var on := HandleRecord(frame, frameLen, rxStatus, answer);
        if !on {
          break;
        }
      }
    }

    method DecodeTransfer(actual: nat, script: seq<R.Answer>)
      requires Valid() && rxBytes != null && pool != null && rxComplete != null && actual <= Spec.RX_BUFFER_LEN
      modifies this`records, this`log, this`n
      ensures Valid() && View() == Spec.Decode(old(View()), actual, script)
    {
      hide R.HandleAll, Spec.Transfer, R.HaveCrc;
      var count := HandleRecords(actual, script);
      if count == 0 {
        n := n.(zeroRecords := n.zeroRecords + 1);
      }
    }

    /** First of all, before any branch: the transfer is over. */
    method LandTransfer()
      requires Valid()
      modifies this`rxArmed, this`env, this`n
      ensures Valid() && View() == Spec.Land(old(View()))
    {
      rxArmed := false;
      n := n.(completions := n.completions + 1);
      env := env.(outstanding := if env.outstanding > 0 then env.outstanding - 1 else 0);
    }

    /** A success is counted by its octets, or as one that brought none. */
    method CountOctets(actualByteCount: nat) returns (data: bool)
      requires Valid()
      modifies this`n
      ensures Valid() && data == (actualByteCount > 0)
      ensures var was := old(View()).n;
        View() == old(View()).(n := was.(byteCount := was.byteCount + actualByteCount,
                                         zeroLength := if data then was.zeroLength else was.zeroLength + 1))
    {
      n := n.(byteCount := n.byteCount + actualByteCount);
      data := actualByteCount != 0;
      if !data {
        n := n.(zeroLength := n.zeroLength + 1);
      }
    }

    /** RxComplete up to its re-arm: `again` tells whether it re-arms, and whether data came. */
    method SettleCompletion(status: Status, actualByteCount: nat, script: seq<R.Answer>) returns (again: Option<bool>)
      requires Valid() && actualByteCount <= Spec.RX_BUFFER_LEN
      requires rxBytes != null ==> pipeIn != null
      modifies this`rxArmed, this`env, this`n, this`records, this`log
      ensures Valid()
      ensures View() == Spec.Settle(old(View()), status, actualByteCount, script).0
      ensures again == Spec.Settle(old(View()), status, actualByteCount, script).1
    {
      hide Spec.Decode, Spec.Transfer, R.HandleAll, R.HaveCrc;
      LandTransfer();
      if status == Aborted && !rxRunning {
        return None;
      }
      if !rxRunning {
        return None;
      }
      if rxBytes == null || pool == null || rxComplete == null {
        return None;
      }
      if status != Success {
        n := n.(completionErrors := n.completionErrors + 1);
        if status == Stalled {
          var _ := pipeIn.Call(true);
        }
        return Some(false);
      }
      var data := CountOctets(actualByteCount);
      if data {
        DecodeTransfer(actualByteCount, script);
      }
      return Some(data);
    }

    method RxComplete(status: Status, actualByteCount: nat, script: seq<R.Answer>, grant: Spec.Grant)
      requires Valid() && actualByteCount <= Spec.RX_BUFFER_LEN
      // the buffer is never there without its pipe, which a stalled completion dereferences
      requires rxBytes != null ==> pipeIn != null
      modifies this`rxArmed, this`env, this`n, this`records, this`log, this`rxIdleRun, this`rxBackoffActive
      ensures Valid()
      ensures View() == Spec.Complete(old(View()), status, actualByteCount, script, grant)
    {
      hide Spec.Rearm, Spec.Settle;
      var again := SettleCompletion(status, actualByteCount, script);
      if again.Some? {
        RearmRxRead(again.value, grant);
      }
    }

    // ---- control -------------------------------------------------------------------------

    /** A clean slate, and running before the read is posted. */
    method BeginRunning()
      requires Valid()
      modifies this`rxRunning, this`rxIdleRun, this`rxBackoffActive
      ensures Valid() && View() == old(View()).(running := true, idleRun := 0, backoffActive := false)
    {
      rxRunning := true;
      rxIdleRun := 0;
      rxBackoffActive := false;
    }

    /** The arming part of setInterfaceEnable(true). */
    method StartReceiving(asyncOk: bool) returns (r: Spec.Result)
      requires Valid()
      modifies this`rxRunning, this`rxArmed, this`env, this`n, this`rxIdleRun, this`rxBackoffActive
      ensures Valid()
      ensures View() == Spec.StartReceiving(old(View()), asyncOk).0 && r == Spec.StartReceiving(old(View()), asyncOk).1
    {
      hide Spec.Arm;
      BeginRunning();
      r := ArmRxRead(asyncOk);
      if r != Spec.Armed {
        rxRunning := false;
      } else {
        env := env.(dead := false);
      }
    }

    method StopReceiving()
      requires Valid()
      modifies this`rxRunning
      ensures Valid() && View() == Spec.StopReceiving(old(View()))
    {
      rxRunning := false;
    }

    /** The receive part of quiesceDatapath. */
    method Latch()
      requires Valid()
      modifies this`stopping, this`rxRunning
      ensures Valid() && View() == Spec.Quiesce(old(View()))
    {
      stopping := true;
      rxRunning := false;
    }

    method ReleaseTimer()
      requires Valid()
      modifies this`rxBackoffTimer, this`rxBackoffActive, this`rxIdleRun, this`env
      ensures Valid()
      ensures var was := old(View());
        View() == was.(o := was.o.(timer := false), backoffActive := false, idleRun := 0, timer := None)
    {
      rxBackoffTimer := null;
      rxBackoffActive := false;
      rxIdleRun := 0;
      env := env.(deadline := None);
    }

    /** The receive part of releaseDatapath: the mapping goes before its descriptor. */
    method ReleaseDatapath()
      requires Valid()
      modifies this`rxBackoffTimer, this`rxBackoffActive, this`rxIdleRun, this`env
      modifies this`rxAction, this`pipeIn, this`rxBytes, this`rxArmed
      ensures Valid() && rxBytes == null && View() == Spec.ReleaseDatapath(old(View()))
    {
      ReleaseTimer();
      rxAction, pipeIn, rxBytes := null, null, null;
      rxArmed := false;
    }

    method ReleaseQueuesAndPool()
      requires Valid()
      modifies this`rxSubmit, this`rxComplete, this`pool
      ensures Valid() && rxBytes == old(rxBytes)
      ensures View() == old(View()).(o := old(View()).o.(submitQueue := false, completeQueue := false, pool := false))
    {
      rxSubmit := null;
      rxComplete := null;
      pool := null;
    }
  }
}
