/**
 * Register I/O through callbacks, against an arbitrary device: the EEPROM reader of
 * common/smsc95xx_init.c and the initialisation sequence.
 */
module Registers {
  import opened Bits
  import opened Bytes

  const REG_TX_CFG := 0x010
  const REG_HW_CFG := 0x014
  const REG_INT_STS := 0x008
  const REG_PM_CTRL := 0x020
  const REG_LED_GPIO_CFG := 0x024
  const REG_AFC_CFG := 0x02C
  const REG_E2P_CMD := 0x030
  const REG_E2P_DATA := 0x034
  const REG_BURST_CAP := 0x038
  const REG_BULK_IN_DLY := 0x06C
  const REG_MAC_CR := 0x100
  const REG_ADDRH := 0x104
  const REG_ADDRL := 0x108
  const REG_HASHH := 0x10C
  const REG_HASHL := 0x110
  const REG_FLOW := 0x11C
  const REG_VLAN1 := 0x120

  const E2P_BUSY: Word := 0x8000_0000
  const E2P_TIMEOUT: Word := 0x400
  const E2P_ADDR_MASK: Word := 0x1FF
  const E2P_SIZE := 512
  const LRST: Word := 0x8
  const PHY_RST: Word := 0x10

  const ERR_BAD_ARG := -1
  const ERR_RESET_TIMEOUT := -2
  const ERR_E2P_TIMEOUT := -3
  const ERR_E2P_NO_EEPROM := -4
  const POLLS := 100

  /** The places of the bits this code tests and sets. */
  lemma RegisterBits(w: Word)
    ensures HasBit(w, E2P_BUSY) <==> w / 0x8000_0000 % 2 == 1
    ensures HasBit(w, E2P_TIMEOUT) <==> w / 0x400 % 2 == 1
    ensures HasBit(w, LRST) <==> w / 8 % 2 == 1
    ensures HasBit(w, PHY_RST) <==> w / 0x10 % 2 == 1
  {
    hide HasBit, Power2;
    Places();
    HasBitIsDigit(w, 31);
    HasBitIsDigit(w, 10);
    HasBitIsDigit(w, 3);
    HasBitIsDigit(w, 4);
  }

  /** One register access and its result; `rc` is 0 on success. */
  datatype Op =
    | Read(reg: nat, rc: int, value: Word)
    | Write(reg: nat, value: Word, rc: int)

  type Trace = seq<Op>

  /** Any device behind any transport: each answer may depend on everything that happened so far. */
  datatype Device = Device(read: (Trace, nat) -> (int, Word), write: (Trace, nat, Word) -> int)

  /** The smsc95xx_io callbacks bound to a device. */
  class Bus {
    const device: Device
    var trace: Trace

    constructor (d: Device, before: Trace)
      ensures device == d && trace == before
    {
      device, trace := d, before;
    }

    method ReadRegister(reg: nat) returns (rc: int, value: Word)
      modifies this
      ensures (rc, value) == device.read(old(trace), reg)
      ensures trace == old(trace) + [Read(reg, rc, value)]
    {
      var r := device.read(trace, reg);
      rc, value := r.0, r.1;
      trace := trace + [Read(reg, rc, value)];
    }

    method WriteRegister(reg: nat, value: Word) returns (rc: int)
      modifies this
      ensures rc == device.write(old(trace), reg, value)
      ensures trace == old(trace) + [Write(reg, value, rc)]
    {
      rc := device.write(trace, reg, value);
      trace := trace + [Write(reg, value, rc)];
    }
  }

  // ---- polling -------------------------------------------------------------------------

  /** Read `reg` until `mask` clears, at most `left` times: return code, trace, last value. */
  function Poll(d: Device, t: Trace, reg: nat, mask: Word, left: nat, timeout: int): (r: (int, Trace, Word))
    requires left > 0 && mask > 0
    ensures t <= r.1
    decreases left
  {
    var (rc, v) := d.read(t, reg);
    var u := t + [Read(reg, rc, v)];
    if rc != 0 then (rc, u, v)
    else if !HasBit(v, mask) then (0, u, v)
    else if left == 1 then (timeout, u, v)
    else Poll(d, u, reg, mask, left - 1, timeout)
  }

  method PollClear(io: Bus, reg: nat, mask: Word, timeout: int) returns (rc: int, v: Word)
    requires mask > 0
    modifies io
    ensures (rc, io.trace, v) == Poll(io.device, old(io.trace), reg, mask, POLLS, timeout)
  {
    var i := 0;
    while true
      invariant 0 <= i < POLLS
      invariant Poll(io.device, io.trace, reg, mask, POLLS - i, timeout)
             == Poll(io.device, old(io.trace), reg, mask, POLLS, timeout)
      decreases POLLS - i
    {
      rc, v := io.ReadRegister(reg);
      if rc != 0 {
        return;
      }
      if !HasBit(v, mask) {
        return;
      }
      if i + 1 >= POLLS {
        return timeout, v;
      }
      i := i + 1;
    }
  }

  // ---- the EEPROM reader ---------------------------------------------------------------

  /** smsc95xx_e2p_read_cmd: BUSY and the nine address bits. */
  function ReadCmd(address: nat): (w: Word)
    ensures w == E2P_BUSY + address % E2P_SIZE
  {
    ReadCmdIsSum(address);
    Or(And(address, E2P_ADDR_MASK), E2P_BUSY)
  }

  lemma ReadCmdIsSum(address: nat)
    ensures Or(And(address, E2P_ADDR_MASK), E2P_BUSY) == E2P_BUSY + address % E2P_SIZE
  {
    hide And, Or, Power2;
    Places();
    AndLow(address, 9);
    OrBit(address % E2P_SIZE, 31);
    assert address % E2P_SIZE / 0x8000_0000 == 0;
  }

  /** One command cycle: return code, trace, and the octet read if the code is 0. */
  function ReadByte(d: Device, t: Trace, address: nat): (r: (int, Trace, Byte))
    ensures t <= r.1
  {
    var wrc := d.write(t, REG_E2P_CMD, ReadCmd(address));
    var t1 := t + [Write(REG_E2P_CMD, ReadCmd(address), wrc)];
    if wrc != 0 then
      (wrc, t1, 0)
    else
      var (prc, t2, cmd) := Poll(d, t1, REG_E2P_CMD, E2P_BUSY, POLLS, ERR_E2P_TIMEOUT);
      if prc != 0 then
        (prc, t2, 0)
      else if HasBit(cmd, E2P_TIMEOUT) then
        (ERR_E2P_NO_EEPROM, t2, 0)
      else
        var (rc, v) := d.read(t2, REG_E2P_DATA);
        (rc, t2 + [Read(REG_E2P_DATA, rc, v)], v % 0x100)
  }

  /** What a read of some octets leaves: its return code, the trace, and the octets stored. */
  datatype Outcome = Outcome(rc: int, trace: Trace, bytes: seq<Byte>)

  function ReadBytes(d: Device, t: Trace, address: nat, len: nat): (r: Outcome)
    ensures t <= r.trace && |r.bytes| <= len
    ensures r.rc == 0 <==> |r.bytes| == len
    decreases len
  {
    if len == 0 then
      Outcome(0, t, [])
    else
      var (rc, u, b) := ReadByte(d, t, address);
      if rc != 0 then
        Outcome(rc, u, [])
      else
        var rest := ReadBytes(d, u, address + 1, len - 1);
        rest.(bytes := [b] + rest.bytes)
  }

  predicate InRange(offset: nat, len: nat)
  {
    len <= E2P_SIZE && offset <= E2P_SIZE - len
  }

  const SIZE_T := 0x1_0000_0000_0000_0000

  /** The range guard as the machine computes it, its subtraction modulo the width of size_t. */
  predicate MachineRefuses(offset: nat, len: nat)
  {
    len > E2P_SIZE || offset > (E2P_SIZE - len) % SIZE_T
  }

  /** The guard is exact for every 64-bit length and 16-bit offset: the subtraction never wraps. */
  lemma RangeGuardIsExact(offset: nat, len: nat)
    requires len < SIZE_T && offset < 0x1_0000
    ensures MachineRefuses(offset, len) <==> offset + len > E2P_SIZE
    ensures MachineRefuses(offset, len) <==> !InRange(offset, len)
  {
  }

  /** Exactly the ranges whose sum wraps to a small one would get past a guard that added instead. */
  lemma AddingWouldWrap(offset: nat, len: nat)
    requires len < SIZE_T && offset < 0x1_0000
    ensures MachineRefuses(offset, len) && (offset + len) % SIZE_T <= E2P_SIZE
      <==> SIZE_T <= offset + len <= SIZE_T + E2P_SIZE
  {
  }

  /** smsc95xx_eeprom_read. */
  function EepromOutcome(d: Device, t: Trace, offset: nat, len: nat): (r: Outcome)
    ensures t <= r.trace && |r.bytes| <= len
    ensures r.rc == 0 ==> |r.bytes| == len
  {
    if !InRange(offset, len) then
      Outcome(ERR_BAD_ARG, t, [])
    else
      var (rc, u, _) := Poll(d, t, REG_E2P_CMD, E2P_BUSY, POLLS, ERR_E2P_TIMEOUT);
      if rc != 0 then Outcome(rc, u, []) else ReadBytes(d, u, offset, len)
  }

  method ReadOne(io: Bus, address: nat) returns (rc: int, b: Byte)
    modifies io
    ensures (rc, io.trace, b) == ReadByte(io.device, old(io.trace), address)
  {
    hide Poll, HasBit;
    rc := io.WriteRegister(REG_E2P_CMD, ReadCmd(address));
    if rc != 0 {
      return rc, 0;
    }
    var cmd;
    rc, cmd := PollClear(io, REG_E2P_CMD, E2P_BUSY, ERR_E2P_TIMEOUT);
    if rc != 0 {
      return rc, 0;
    }
    if HasBit(cmd, E2P_TIMEOUT) {
      return ERR_E2P_NO_EEPROM, 0;
    }
    var v;
    rc, v := io.ReadRegister(REG_E2P_DATA);
    b := v % 0x100;
  }

  lemma ReadBytesUnfolds(d: Device, t: Trace, address: nat, len: nat)
    ensures ReadBytes(d, t, address, len)
      == if len == 0 then Outcome(0, t, [])
         else
           var (rc, u, b) := ReadByte(d, t, address);
           if rc != 0 then Outcome(rc, u, [])
           else var rest := ReadBytes(d, u, address + 1, len - 1); rest.(bytes := [b] + rest.bytes)
  {
    hide ReadByte;
  }

  /** The octets read go to the front of `buf`; nothing past them is touched. Only a range that exists needs room. */
  method EepromRead(io: Bus, offset: nat, buf: array<Byte>, len: nat) returns (rc: int)
    requires InRange(offset, len) ==> len <= buf.Length
    modifies io, buf
    ensures var r := EepromOutcome(io.device, old(io.trace), offset, len);
      rc == r.rc && io.trace == r.trace && buf[..] == r.bytes + old(buf[..])[|r.bytes|..]
  {
    hide Poll, ReadByte, ReadBytes, HasBit;
    if len > E2P_SIZE || offset > E2P_SIZE - len {
      return ERR_BAD_ARG;
    }
    var v;
    rc, v := PollClear(io, REG_E2P_CMD, E2P_BUSY, ERR_E2P_TIMEOUT);
    if rc != 0 {
      return;
    }
    rc := ReadAll(io, offset, buf, len);
  }

  method ReadAll(io: Bus, offset: nat, buf: array<Byte>, len: nat) returns (rc: int)
    requires len <= buf.Length
    modifies io, buf
    ensures var r := ReadBytes(io.device, old(io.trace), offset, len);
      rc == r.rc && io.trace == r.trace && buf[..] == r.bytes + old(buf[..])[|r.bytes|..]
  {
    hide ReadByte, ReadBytes;
    ghost var was := buf[..];
    ghost var all := ReadBytes(io.device, io.trace, offset, len);
    var i := 0;
    while i < len
      invariant 0 <= i <= len
      invariant buf[i..] == was[i..]
      invariant Continues(all, buf[..i], ReadBytes(io.device, io.trace, offset + i, len - i))
      modifies io, buf
    {
      ghost var done := buf[..i];
      ReadBytesUnfolds(io.device, io.trace, offset + i, len - i);
      var b;
      rc, b := ReadOne(io, offset + i);
      if rc != 0 {
        return;
      }
      buf[i] := b;
      assert buf[..i + 1] == done + [b];
      i := i + 1;
    }
    ReadBytesUnfolds(io.device, io.trace, offset + len, 0);
    return 0;
  }

  ghost predicate Continues(all: Outcome, done: seq<Byte>, rest: Outcome)
  {
    all == rest.(bytes := done + rest.bytes)
  }

  // ---- what any device can see ---------------------------------------------------------

  /** All that an EEPROM read of `len` octets from `offset` ever asks of the device. */
  predicate EepromOp(op: Op, offset: nat, len: nat)
  {
    match op
    case Read(reg, _, _) => reg == 0x030 || reg == 0x034
    case Write(reg, value, _) => reg == 0x030 && E2P_BUSY + offset <= value < E2P_BUSY + offset + len
  }

  ghost predicate Asks(ops: Trace, offset: nat, len: nat)
  {
    forall k :: 0 <= k < |ops| ==> EepromOp(ops[k], offset, len)
  }

  lemma AsksMore(first: Trace, rest: Trace, offset: nat, len: nat)
    requires len > 0 && Asks(first, offset, 1) && Asks(rest, offset + 1, len - 1)
    ensures Asks(first + rest, offset, len)
  {
    var ops := first + rest;
    forall k | 0 <= k < |ops| ensures EepromOp(ops[k], offset, len) {
      if k < |first| {
        assert EepromOp(first[k], offset, 1);
      } else {
        assert EepromOp(rest[k - |first|], offset + 1, len - 1);
      }
    }
  }

  /** At most `len` writes, and 101 reads for each of `len` octets. */
  predicate Spends(ops: Trace, len: nat)
  {
    CountWrites(ops) <= len && |ops| - CountWrites(ops) <= (1 + POLLS) * len
  }

  lemma SpendsMore(first: Trace, rest: Trace, len: nat)
    requires len > 0 && Spends(first, 1) && Spends(rest, len - 1)
    ensures Spends(first + rest, len)
  {
    CountWritesAppend(first, rest);
  }

  /** Why the reader stopped: its own verdict on the last answer, or that answer's own code. */
  predicate Blames(rc: int, op: Op)
  {
    || (rc == op.rc != 0)
    || (op.rc == 0 && op.Read? && op.reg == REG_E2P_CMD && rc == ERR_E2P_TIMEOUT && HasBit(op.value, E2P_BUSY))
    || (op.rc == 0 && op.Read? && op.reg == REG_E2P_CMD && rc == ERR_E2P_NO_EEPROM && HasBit(op.value, E2P_TIMEOUT))
  }

  lemma {:induction false} PollOps(d: Device, t: Trace, left: nat)
    requires left > 0
    ensures var (rc, u, v) := Poll(d, t, REG_E2P_CMD, E2P_BUSY, left, ERR_E2P_TIMEOUT);
      && |t| < |u| <= |t| + left
      && (forall k :: |t| <= k < |u| ==> u[k].Read? && u[k].reg == REG_E2P_CMD)
      && (rc != 0 ==> Blames(rc, u[|u| - 1]))
      && (rc == 0 ==> u[|u| - 1] == Read(REG_E2P_CMD, 0, v) && !HasBit(v, E2P_BUSY))
    decreases left
  {
    hide HasBit;
    var (rc, v) := d.read(t, REG_E2P_CMD);
    if rc == 0 && HasBit(v, E2P_BUSY) && left > 1 {
      PollOps(d, t + [Read(REG_E2P_CMD, rc, v)], left - 1);
    }
  }

  /** E2P_CMD read as idle: a command can be issued. */
  predicate Idle(op: Op)
  {
    op.Read? && op.reg == REG_E2P_CMD && op.rc == 0 && !HasBit(op.value, E2P_BUSY)
  }

  /** The command has retired, and with an answer: the octet is there to be read. */
  predicate Retired(op: Op)
  {
    Idle(op) && !HasBit(op.value, E2P_TIMEOUT)
  }

  predicate IsData(op: Op)
  {
    op.Read? && op.reg == REG_E2P_DATA
  }

  /**
   * Access `k` is in turn: a command goes to an engine just seen idle, or whose octet was just taken;
   * an octet is read from a command just seen to have retired with an answer.
   */
  predicate InTurn(t: Trace, k: nat)
    requires k < |t|
  {
    && (IsData(t[k]) ==> k > 0 && Retired(t[k - 1]))
    && (t[k].Write? ==> k > 0 && Ready(t[k - 1]))
  }

  predicate Ready(op: Op)
  {
    Idle(op) || (IsData(op) && op.rc == 0)
  }

  predicate AllInTurn(t: Trace, from: nat)
  {
    forall k :: from <= k < |t| ==> InTurn(t, k)
  }

  lemma InTurnStill(t: Trace, u: Trace, k: nat)
    requires t <= u && k < |t| && InTurn(t, k)
    ensures InTurn(u, k)
  {
    hide Retired, Ready;
    if k > 0 {
      assert u[k - 1] == t[k - 1];
    }
  }

  lemma {:induction false} ReadBytesInTurn(d: Device, t: Trace, address: nat, len: nat)
    requires address + len <= E2P_SIZE && (len > 0 ==> t != [] && Ready(t[|t| - 1]))
    ensures AllInTurn(ReadBytes(d, t, address, len).trace, |t|)
    decreases len
  {
    hide HasBit, ReadByte, Blames, Idle, Retired;
    if len > 0 {
      BytePolls(d, t, address);
      var (rc, u, b) := ReadByte(d, t, address);
      if rc == 0 {
        ReadBytesInTurn(d, u, address + 1, len - 1);
        var v := ReadBytes(d, u, address + 1, len - 1).trace;
        assert ReadBytes(d, t, address, len).trace == v;
        forall k | |t| <= k < |v| ensures InTurn(v, k) {
          if k < |u| {
            InTurnStill(u, v, k);
          }
        }
      }
    }
  }

  /** Against any device: every command waits for an idle engine, and every octet for its own command's answer. */
  lemma EepromReadTakesTurns(d: Device, t: Trace, offset: nat, len: nat)
    ensures AllInTurn(EepromOutcome(d, t, offset, len).trace, |t|)
  {
    hide Poll, ReadBytes, HasBit;
    if InRange(offset, len) {
      PollOps(d, t, POLLS);
      var (rc, u, v) := Poll(d, t, REG_E2P_CMD, E2P_BUSY, POLLS, ERR_E2P_TIMEOUT);
      if rc == 0 {
        ReadBytesInTurn(d, u, offset, len);
        var w := EepromOutcome(d, t, offset, len).trace;
        assert w == ReadBytes(d, u, offset, len).trace;
        forall k | |t| <= k < |w| ensures InTurn(w, k) {
          if k < |u| {
            assert w[k] == u[k];
          }
        }
      }
    }
  }

  lemma BytePolls(d: Device, t: Trace, address: nat)
    requires address < E2P_SIZE
    ensures var (rc, u, b) := ReadByte(d, t, address);
      && |t| < |u| <= |t| + 2 + POLLS
      && u[|t|].Write? && u[|t|].reg == REG_E2P_CMD && u[|t|].value == E2P_BUSY + address
      && (forall k :: |t| < k < |u| ==> u[k].Read? && (u[k].reg == REG_E2P_CMD || u[k].reg == REG_E2P_DATA))
      && (rc != 0 ==> Blames(rc, u[|u| - 1]))
      && (rc == 0 ==> IsData(u[|u| - 1]) && u[|u| - 1].rc == 0)
      && (forall k :: |t| < k < |u| && IsData(u[k]) ==> Retired(u[k - 1]))
  {
    hide HasBit, Poll;
    var wrc := d.write(t, REG_E2P_CMD, ReadCmd(address));
    PollOps(d, t + [Write(REG_E2P_CMD, ReadCmd(address), wrc)], POLLS);
  }

  lemma ReadByteOps(d: Device, t: Trace, address: nat)
    requires address < E2P_SIZE
    ensures var (rc, u, b) := ReadByte(d, t, address); var ops := u[|t|..];
      && ops != [] && Spends(ops, 1) && Asks(ops, address, 1)
      && (rc != 0 ==> Blames(rc, u[|u| - 1]))
  {
    hide HasBit, Poll, Blames;
    BytePolls(d, t, address);
    var u := ReadByte(d, t, address).1;
    var ops := u[|t|..];
    assert forall k :: 0 <= k < |ops| ==> ops[k] == u[|t| + k];
    OneWrite(ops);
  }

  lemma {:induction false} ReadBytesOps(d: Device, t: Trace, address: nat, len: nat)
    requires address + len <= E2P_SIZE
    ensures var r := ReadBytes(d, t, address, len); var ops := r.trace[|t|..];
      && Spends(ops, len) && Asks(ops, address, len)
      && (r.rc != 0 ==> ops != [] && Blames(r.rc, r.trace[|r.trace| - 1]))
    decreases len
  {
    hide HasBit, ReadByte, Blames, Spends, Asks;
    if len > 0 {
      ReadByteOps(d, t, address);
      var (rc, u, b) := ReadByte(d, t, address);
      var r := ReadBytes(d, t, address, len);
      if rc == 0 {
        ReadBytesOps(d, u, address + 1, len - 1);
        assert r.trace == ReadBytes(d, u, address + 1, len - 1).trace;
        assert r.trace[|t|..] == u[|t|..] + r.trace[|u|..];
        AsksMore(u[|t|..], r.trace[|u|..], address, len);
        SpendsMore(u[|t|..], r.trace[|u|..], len);
      } else {
        NothingMore(address, len);
        AsksMore(u[|t|..], [], address, len);
        SpendsMore(u[|t|..], [], len);
        assert u[|t|..] + [] == u[|t|..];
      }
    } else {
      NothingMore(address, 1);
      assert t[|t|..] == [];
    }
  }

  lemma NothingMore(address: nat, len: nat)
    requires len > 0
    ensures Asks([], address + 1, len - 1) && Spends([], len - 1)
    ensures Asks([], address, 0) && Spends([], 0)
  {
  }

  function CountWrites(t: Trace): nat
  {
    if t == [] then 0 else CountWrites(t[..|t| - 1]) + if t[|t| - 1].Write? then 1 else 0
  }

  lemma {:induction false} CountWritesAppend(t: Trace, u: Trace)
    ensures CountWrites(t + u) == CountWrites(t) + CountWrites(u)
    decreases |u|
  {
    if u == [] {
      assert t + u == t;
    } else {
      assert (t + u)[..|t + u| - 1] == t + u[..|u| - 1];
      CountWritesAppend(t, u[..|u| - 1]);
    }
  }

  lemma {:induction false} OneWrite(u: Trace)
    requires u != [] && u[0].Write? && forall k :: 0 < k < |u| ==> u[k].Read?
    ensures CountWrites(u) == 1
    decreases |u|
  {
    if |u| == 1 {
      assert u[..0] == [];
    } else {
      OneWrite(u[..|u| - 1]);
    }
  }

  /**
   * Against any device at all: at most 100 + 101 * len reads and `len` writes, each a read command
   * for one of the addresses asked for; and a failure is the device's own last word.
   */
  lemma EepromReadIsBounded(d: Device, t: Trace, offset: nat, len: nat)
    ensures var r := EepromOutcome(d, t, offset, len); var ops := r.trace[|t|..];
      && (r.rc == 0 <==> InRange(offset, len) && |r.bytes| == len
                         && Poll(d, t, REG_E2P_CMD, E2P_BUSY, POLLS, ERR_E2P_TIMEOUT).0 == 0)
      && (!InRange(offset, len) <==> r.trace == t)
      && CountWrites(ops) <= len && |ops| - CountWrites(ops) <= 100 + 101 * len
      && Asks(ops, offset, len)
      && (r.rc != 0 && InRange(offset, len) ==> Blames(r.rc, r.trace[|r.trace| - 1]))
  {
    hide Poll, ReadBytes, Blames, HasBit;
    if InRange(offset, len) {
      PollOps(d, t, POLLS);
      var (rc, u, v) := Poll(d, t, REG_E2P_CMD, E2P_BUSY, POLLS, ERR_E2P_TIMEOUT);
      var first := u[|t|..];
      assert forall k :: 0 <= k < |first| ==> first[k] == u[|t| + k];
      NoWrites(first);
      var r := EepromOutcome(d, t, offset, len);
      if rc == 0 {
        ReadBytesOps(d, u, offset, len);
        assert r.trace[|t|..] == first + r.trace[|u|..];
        CountWritesAppend(first, r.trace[|u|..]);
      }
    } else {
      assert t[|t|..] == [];
    }
  }

  lemma {:induction false} NoWrites(u: Trace)
    requires forall k :: 0 <= k < |u| ==> u[k].Read?
    ensures CountWrites(u) == 0
    decreases |u|
  {
    if u != [] {
      NoWrites(u[..|u| - 1]);
    }
  }

  // ---- refinement: reading the EEPROM is slicing its image -------------------------------

  type Image = s: seq<Byte> | |s| == E2P_SIZE witness seq(E2P_SIZE, _ => 0)

  /** The address of the last command the device accepted. */
  function LastAddress(t: Trace): (r: Option<nat>)
    ensures r.Some? ==> r.value < E2P_SIZE
  {
    if t == [] then None
    else
      var op := t[|t| - 1];
      if op.Write? && op.reg == REG_E2P_CMD && op.rc == 0 then Some(op.value % E2P_SIZE)
      else LastAddress(t[..|t| - 1])
  }

  /** E2P_DATA shows the octet that the last accepted command asked for. */
  ghost predicate Serves(d: Device, image: Image)
  {
    forall t :: LastAddress(t).Some? && d.read(t, REG_E2P_DATA).0 == 0 ==>
      d.read(t, REG_E2P_DATA).1 % 0x100 == image[LastAddress(t).value]
  }

  lemma {:induction false} ReadsKeepLastAddress(t: Trace, u: Trace)
    requires t <= u && forall k :: |t| <= k < |u| ==> u[k].Read?
    ensures LastAddress(u) == LastAddress(t)
    decreases |u|
  {
    if |u| > |t| {
      ReadsKeepLastAddress(t, u[..|u| - 1]);
    } else {
      assert u == t;
    }
  }

  lemma ReadByteServes(d: Device, t: Trace, address: nat, image: Image)
    requires Serves(d, image) && address < E2P_SIZE
    ensures var (rc, u, b) := ReadByte(d, t, address); rc == 0 ==> b == image[address]
  {
    hide HasBit, Poll;
    var t1 := t + [Write(REG_E2P_CMD, ReadCmd(address), d.write(t, REG_E2P_CMD, ReadCmd(address)))];
    PollOps(d, t1, POLLS);
    var (prc, t2, cmd) := Poll(d, t1, REG_E2P_CMD, E2P_BUSY, POLLS, ERR_E2P_TIMEOUT);
    if ReadByte(d, t, address).0 == 0 {
      ReadsKeepLastAddress(t1, t2);
      assert ReadCmd(address) % E2P_SIZE == address;
      assert LastAddress(t1) == Some(address);
    }
  }

  lemma {:induction false} ReadBytesServes(d: Device, t: Trace, address: nat, len: nat, image: Image)
    requires Serves(d, image) && address + len <= E2P_SIZE
    ensures var r := ReadBytes(d, t, address, len); r.bytes == image[address..address + |r.bytes|]
    decreases len
  {
    hide ReadByte, Serves;
    if len > 0 {
      ReadByteServes(d, t, address, image);
      var (rc, u, b) := ReadByte(d, t, address);
      if rc == 0 {
        ReadBytesServes(d, u, address + 1, len - 1, image);
      }
    }
  }

  /** Whatever else the device does, the octets stored are a prefix of the slice asked for. */
  lemma EepromReadSlicesTheImage(d: Device, t: Trace, offset: nat, len: nat, image: Image)
    requires Serves(d, image)
    ensures var r := EepromOutcome(d, t, offset, len);
      && (InRange(offset, len) ==> r.bytes == image[offset..offset + |r.bytes|])
      && (r.rc == 0 ==> InRange(offset, len) && r.bytes == image[offset..offset + len])
  {
    hide Poll, ReadBytes, Serves;
    if InRange(offset, len) {
      var (rc, u, _) := Poll(d, t, REG_E2P_CMD, E2P_BUSY, POLLS, ERR_E2P_TIMEOUT);
      ReadBytesServes(d, u, offset, len, image);
    }
  }

  /** From history `t` on, some read of E2P_CMD among the next `n` is not busy. */
  predicate RetiresWithin(d: Device, t: Trace, n: nat)
    decreases n
  {
    n > 0 &&
    var (rc, v) := d.read(t, REG_E2P_CMD);
    !HasBit(v, E2P_BUSY) || RetiresWithin(d, t + [Read(REG_E2P_CMD, rc, v)], n - 1)
  }

  /** The transport works, and the engine retires every command within the poll bound, EEPROM there. */
  ghost predicate Responsive(d: Device)
  {
    && (forall t, reg :: d.read(t, reg).0 == 0)
    && (forall t, reg, v :: d.write(t, reg, v) == 0)
    && (forall t :: RetiresWithin(d, t, 100))
    && (forall t :: !HasBit(d.read(t, REG_E2P_CMD).1, E2P_TIMEOUT))
  }

  lemma {:induction false} PollSucceeds(d: Device, t: Trace, left: nat)
    requires RetiresWithin(d, t, left)
    requires forall u, reg :: d.read(u, reg).0 == 0
    ensures Poll(d, t, REG_E2P_CMD, E2P_BUSY, left, ERR_E2P_TIMEOUT).0 == 0
    decreases left
  {
    hide HasBit;
    var (rc, v) := d.read(t, REG_E2P_CMD);
    if HasBit(v, E2P_BUSY) {
      PollSucceeds(d, t + [Read(REG_E2P_CMD, rc, v)], left - 1);
    }
  }

  lemma {:induction false} PollValue(d: Device, t: Trace, left: nat)
    requires left > 0
    ensures exists u :: Poll(d, t, REG_E2P_CMD, E2P_BUSY, left, ERR_E2P_TIMEOUT).2 == d.read(u, REG_E2P_CMD).1
    decreases left
  {
    hide HasBit;
    var (rc, v) := d.read(t, REG_E2P_CMD);
    if rc == 0 && HasBit(v, E2P_BUSY) && left > 1 {
      PollValue(d, t + [Read(REG_E2P_CMD, rc, v)], left - 1);
    }
  }

  lemma {:induction false} ReadBytesSucceeds(d: Device, t: Trace, address: nat, len: nat)
    requires Responsive(d)
    ensures ReadBytes(d, t, address, len).rc == 0
    decreases len
  {
    hide HasBit, Poll, RetiresWithin;
    if len > 0 {
      var t1 := t + [Write(REG_E2P_CMD, ReadCmd(address), d.write(t, REG_E2P_CMD, ReadCmd(address)))];
      PollSucceeds(d, t1, POLLS);
      PollValue(d, t1, POLLS);
      assert ReadByte(d, t, address).0 == 0;
      ReadBytesSucceeds(d, ReadByte(d, t, address).1, address + 1, len - 1);
    }
  }

  /** A responsive device serving an image: reading is slicing, and a bad range is refused unasked. */
  lemma EepromReadOfResponsiveDevice(d: Device, t: Trace, offset: nat, len: nat, image: Image)
    requires Responsive(d) && Serves(d, image)
    ensures var r := EepromOutcome(d, t, offset, len);
      if InRange(offset, len) then r.rc == 0 && r.bytes == image[offset..offset + len]
      else r == Outcome(ERR_BAD_ARG, t, [])
  {
    hide Poll, ReadBytes, Serves, RetiresWithin, HasBit;
    if InRange(offset, len) {
      PollSucceeds(d, t, POLLS);
      var (rc, u, _) := Poll(d, t, REG_E2P_CMD, E2P_BUSY, POLLS, ERR_E2P_TIMEOUT);
      ReadBytesSucceeds(d, u, offset, len);
      ReadBytesServes(d, u, offset, len, image);
    }
  }

  // ---- the initialisation sequence -----------------------------------------------------

  type Mac = s: seq<Byte> | |s| == 6 witness [0, 0, 0, 0, 0, 0]

  function Spelled(a: nat, b: nat, c: nat, d: nat): nat
  {
    a + 0x100 * b + 0x1_0000 * c + 0x100_0000 * d
  }

  /** smsc95xx_mac_to_regs and its inverse. */
  function MacToRegs(mac: Mac): (r: (Word, Word))
    ensures r.0 == Spelled(mac[0], mac[1], mac[2], mac[3]) && r.1 == Spelled(mac[4], mac[5], 0, 0)
    ensures r == (FromLe32(mac[..4]), FromLe32([mac[4], mac[5], 0, 0]))
  {
    assert mac[..4] == [mac[0], mac[1], mac[2], mac[3]];
    (FromOctets(mac[0], mac[1], mac[2], mac[3]), FromOctets(mac[4], mac[5], 0, 0))
  }

  function RegsToMac(addrl: Word, addrh: Word): Mac
  {
    Le32(addrl) + Le32(addrh)[..2]
  }

  lemma MacRoundTrip(mac: Mac)
    ensures var (l, h) := MacToRegs(mac); RegsToMac(l, h) == mac
  {
    hide FromLe32, Le32, Spelled, MacToRegs;
    var (l, h) := MacToRegs(mac);
    Le32InvertsFromLe32(mac[..4]);
    Le32InvertsFromLe32([mac[4], mac[5], 0, 0]);
    assert Le32(l) == mac[..4] && Le32(h)[..2] == mac[4..];
  }

  /** The registers hold 48 bits: the upper half of ADDRH is not part of the address. */
  lemma RegsRoundTrip(addrl: Word, addrh: Word)
    ensures MacToRegs(RegsToMac(addrl, addrh)) == (addrl, addrh % 0x1_0000)
  {
    hide FromLe32, Le32;
    var mac, low := RegsToMac(addrl, addrh), addrh % 0x1_0000;
    assert mac[..4] == Le32(addrl);
    FromLe32InvertsLe32(addrl);
    LowOctets(addrh);
    FromLe32InvertsLe32(low);
    assert [mac[4], mac[5], 0, 0] == Le32(low);
  }

  lemma LowHalf(w: nat, hi: nat, a: nat, b: nat)
    requires a < 0x100 && b < 0x100 && w == 0x1_0000 * hi + 0x100 * b + a
    ensures w % 0x100 == a && w / 0x100 == 0x100 * hi + b && (0x100 * hi + b) % 0x100 == b
  {
  }

  lemma LowOctets(w: Word)
    ensures Le32(w % 0x1_0000) == Le32(w)[..2] + [0, 0]
  {
    hide Le32;
    var low := w % 0x1_0000;
    OctetsSpelledOut(w);
    OctetsSpelledOut(low);
    LowHalf(w, w / 0x1_0000, low % 0x100, low / 0x100);
  }

  /** A step of the sequence: write a register, wait out the lite reset, or set PHY_RST in place. */
  datatype Instr =
    | W(reg: nat, value: Word)
    | AwaitReset
    | SetPhyReset

  /** The C expression v | PHY_RST. */
  function WithPhyReset(v: Word): (r: Word)
    ensures HasBit(r, PHY_RST)
    ensures r % PHY_RST == v % PHY_RST && r / (2 * PHY_RST) == v / (2 * PHY_RST)
    ensures r == if HasBit(v, PHY_RST) then v else v + PHY_RST
  {
    PhyResetIsSum(v);
    Or(v, PHY_RST)
  }

  lemma PhyResetIsSum(v: Word)
    ensures var r := Or(v, PHY_RST);
      && r < 0x1_0000_0000 && HasBit(r, PHY_RST)
      && r % PHY_RST == v % PHY_RST && r / (2 * PHY_RST) == v / (2 * PHY_RST)
      && r == if HasBit(v, PHY_RST) then v else v + PHY_RST
  {
    hide HasBit, Or, Power2;
    Places();
    OrBit(v, 4);
    HasBitIsDigit(v, 4);
    HasBitIsDigit(Or(v, PHY_RST), 4);
  }

  /** TXEN, RXEN and RCVOWN, and PRMS if asked for: half duplex. */
  function MacCr(promiscuous: bool): (w: Word)
    ensures w == if promiscuous then 0x84_000C else 0x80_000C
  {
    0x8 + 0x4 + 0x80_0000 + if promiscuous then 0x4_0000 else 0
  }

  function ResetAndAddress(mac: Mac): (p: seq<Instr>)
  {
    var (addrl, addrh) := MacToRegs(mac);
    [W(REG_HW_CFG, LRST), AwaitReset, W(REG_ADDRL, addrl), W(REG_ADDRH, addrh)]
  }

  function BusSettings(): seq<Instr>
  {
    [W(REG_HW_CFG, 0x1004), W(REG_BURST_CAP, 0x5), W(REG_BULK_IN_DLY, 0x2000), W(REG_HW_CFG, 0x1026),
     W(REG_INT_STS, 0xFFFF_FFFF), W(REG_LED_GPIO_CFG, 0x8111_0007)]
  }

  function FilterSettings(): seq<Instr>
  {
    [W(REG_FLOW, 0), W(REG_AFC_CFG, 0xF8_30A1), W(REG_VLAN1, 0x8100), W(REG_HASHH, 0), W(REG_HASHL, 0)]
  }

  /** The transmitter goes on before its datapath, and the receiver after both. */
  function Enabling(promiscuous: bool): seq<Instr>
  {
    [W(REG_MAC_CR, 0), W(REG_MAC_CR, 0x8), W(REG_TX_CFG, 0x4), W(REG_MAC_CR, MacCr(promiscuous)),
     W(REG_AFC_CFG, 0xF8_30AF)]
  }

  function Program(mac: Mac, promiscuous: bool): seq<Instr>
  {
    ResetAndAddress(mac) + BusSettings() + FilterSettings() + Enabling(promiscuous) + [SetPhyReset]
  }

  /** One step: its return code and the trace after it. */
  function Do(d: Device, t: Trace, i: Instr): (r: (int, Trace))
    ensures t <= r.1
  {
    match i
    case W(reg, value) =>
      var rc := d.write(t, reg, value);
      (rc, t + [Write(reg, value, rc)])
    case AwaitReset =>
      var (rc, u, _) := Poll(d, t, REG_HW_CFG, LRST, POLLS, ERR_RESET_TIMEOUT);
      (rc, u)
    case SetPhyReset =>
      var (rc, v) := d.read(t, REG_PM_CTRL);
      var u := t + [Read(REG_PM_CTRL, rc, v)];
      if rc != 0 then
        (rc, u)
      else
        var wrc := d.write(u, REG_PM_CTRL, WithPhyReset(v));
        (wrc, u + [Write(REG_PM_CTRL, WithPhyReset(v), wrc)])
  }

  /** The steps in order, up to the first that fails. */
  function Execute(d: Device, t: Trace, prog: seq<Instr>): (r: (int, Trace))
    ensures t <= r.1
    decreases |prog|
  {
    if prog == [] then (0, t)
    else
      var (rc, u) := Do(d, t, prog[0]);
      if rc != 0 then (rc, u) else Execute(d, u, prog[1..])
  }

  /** Running `prog` from history `t` ends with `rc` at `u`, or is at `u` with `rest` still to run. */
  ghost predicate Reaches(d: Device, t: Trace, prog: seq<Instr>, rc: int, u: Trace, rest: seq<Instr>)
  {
    Execute(d, t, prog) == if rc != 0 then (rc, u) else Execute(d, u, rest)
  }

  /** WR, as the first step of `prog`. */
  method Wr(io: Bus, reg: nat, value: Word, ghost prog: seq<Instr>) returns (rc: int, ghost rest: seq<Instr>)
    requires prog != [] && prog[0] == W(reg, value)
    modifies io
    ensures rest == prog[1..] && Reaches(io.device, old(io.trace), prog, rc, io.trace, rest)
  {
    rest := prog[1..];
    rc := io.WriteRegister(reg, value);
  }

  /** The wait for the chip to clear the lite reset itself. */
  method WaitOutReset(io: Bus, ghost prog: seq<Instr>) returns (rc: int, ghost rest: seq<Instr>)
    requires prog != [] && prog[0] == AwaitReset
    modifies io
    ensures rest == prog[1..] && Reaches(io.device, old(io.trace), prog, rc, io.trace, rest)
  {
    hide Poll;
    rest := prog[1..];
    var v;
    rc, v := PollClear(io, REG_HW_CFG, LRST, ERR_RESET_TIMEOUT);
  }

  /** The read-modify-write of PM_CTRL. */
  method ResetPhy(io: Bus, ghost prog: seq<Instr>) returns (rc: int)
    requires prog == [SetPhyReset]
    modifies io
    ensures (rc, io.trace) == Execute(io.device, old(io.trace), prog)
  {
    hide HasBit, WithPhyReset;
    var v;
    rc, v := io.ReadRegister(REG_PM_CTRL);
    if rc != 0 {
      return;
    }
    rc := io.WriteRegister(REG_PM_CTRL, WithPhyReset(v));
  }

  method ResetAndProgramAddress(io: Bus, mac: Mac, ghost more: seq<Instr>) returns (rc: int)
    modifies io
    ensures Reaches(io.device, old(io.trace), ResetAndAddress(mac) + more, rc, io.trace, more)
  {
    hide Execute, Do, Poll, MacToRegs;
    ghost var p := ResetAndAddress(mac) + more;
    rc, p := Wr(io, REG_HW_CFG, LRST, p);              if rc != 0 { return; }
    rc, p := WaitOutReset(io, p);                      if rc != 0 { return; }
    var (addrl, addrh) := MacToRegs(mac);
    rc, p := Wr(io, REG_ADDRL, addrl, p);              if rc != 0 { return; }
    rc, p := Wr(io, REG_ADDRH, addrh, p);              if rc != 0 { return; }
    assert p == more;
  }

  method ConfigureBus(io: Bus, ghost more: seq<Instr>) returns (rc: int)
    modifies io
    ensures Reaches(io.device, old(io.trace), BusSettings() + more, rc, io.trace, more)
  {
    hide Execute, Do, Poll;
    ghost var p := BusSettings() + more;
    rc, p := Wr(io, REG_HW_CFG, 0x1004, p);            if rc != 0 { return; }
    rc, p := Wr(io, REG_BURST_CAP, 0x5, p);            if rc != 0 { return; }
    rc, p := Wr(io, REG_BULK_IN_DLY, 0x2000, p);       if rc != 0 { return; }
    rc, p := Wr(io, REG_HW_CFG, 0x1026, p);            if rc != 0 { return; }
    rc, p := Wr(io, REG_INT_STS, 0xFFFF_FFFF, p);      if rc != 0 { return; }
    rc, p := Wr(io, REG_LED_GPIO_CFG, 0x8111_0007, p); if rc != 0 { return; }
    assert p == more;
  }

  method ConfigureFilters(io: Bus, ghost more: seq<Instr>) returns (rc: int)
    modifies io
    ensures Reaches(io.device, old(io.trace), FilterSettings() + more, rc, io.trace, more)
  {
    hide Execute, Do, Poll;
    ghost var p := FilterSettings() + more;
    rc, p := Wr(io, REG_FLOW, 0, p);                   if rc != 0 { return; }
    rc, p := Wr(io, REG_AFC_CFG, 0xF8_30A1, p);        if rc != 0 { return; }
    rc, p := Wr(io, REG_VLAN1, 0x8100, p);             if rc != 0 { return; }
    rc, p := Wr(io, REG_HASHH, 0, p);                  if rc != 0 { return; }
    rc, p := Wr(io, REG_HASHL, 0, p);                  if rc != 0 { return; }
    assert p == more;
  }

  method Enable(io: Bus, promiscuous: bool, ghost more: seq<Instr>) returns (rc: int)
    modifies io
    ensures Reaches(io.device, old(io.trace), Enabling(promiscuous) + more, rc, io.trace, more)
  {
    hide Execute, Do, Poll;
    ghost var p := Enabling(promiscuous) + more;
    rc, p := Wr(io, REG_MAC_CR, 0, p);                 if rc != 0 { return; }
    rc, p := Wr(io, REG_MAC_CR, 0x8, p);               if rc != 0 { return; }
    rc, p := Wr(io, REG_TX_CFG, 0x4, p);               if rc != 0 { return; }
    rc, p := Wr(io, REG_MAC_CR, MacCr(promiscuous), p); if rc != 0 { return; }
    rc, p := Wr(io, REG_AFC_CFG, 0xF8_30AF, p);        if rc != 0 { return; }
    assert p == more;
  }

  /** smsc95xx_init_seq. */
  method InitSeq(io: Bus, mac: Mac, promiscuous: bool) returns (rc: int)
    modifies io
    ensures (rc, io.trace) == Execute(io.device, old(io.trace), Program(mac, promiscuous))
  {
    hide Execute, Do, BusSettings, FilterSettings, Enabling, ResetAndAddress;
    ghost var last := [SetPhyReset];
    ghost var enabling := Enabling(promiscuous) + last;
    ghost var filters := FilterSettings() + enabling;
    ghost var settings := BusSettings() + filters;
    assert Program(mac, promiscuous) == ResetAndAddress(mac) + settings;
    rc := ResetAndProgramAddress(io, mac, settings); if rc != 0 { return; }
    rc := ConfigureBus(io, filters);                 if rc != 0 { return; }
    rc := ConfigureFilters(io, enabling);            if rc != 0 { return; }
    rc := Enable(io, promiscuous, last);             if rc != 0 { return; }
    rc := ResetPhy(io, last);
  }

  // ---- what the sequence writes --------------------------------------------------------

  datatype Access = Access(reg: nat, value: Word)

  /** The writes attempted in a trace, whether or not they succeeded. */
  function Attempted(t: Trace): seq<Access>
  {
    if t == [] then []
    else Attempted(t[..|t| - 1]) + if t[|t| - 1].Write? then [Access(t[|t| - 1].reg, t[|t| - 1].value)] else []
  }

  predicate Succeeded(t: Trace)
  {
    forall k :: 0 <= k < |t| ==> t[k].rc == 0
  }

  /** The writes a program makes when nothing fails and PM_CTRL reads `pm`. */
  function Intended(prog: seq<Instr>, pm: Word): seq<Access>
  {
    if prog == [] then []
    else
      (match prog[0]
       case W(reg, value) => [Access(reg, value)]
       case AwaitReset => []
       case SetPhyReset => [Access(REG_PM_CTRL, WithPhyReset(pm))]) + Intended(prog[1..], pm)
  }

  lemma {:induction false} AttemptedAppend(t: Trace, u: Trace)
    ensures Attempted(t + u) == Attempted(t) + Attempted(u)
    decreases |u|
  {
    if u == [] {
      assert t + u == t;
    } else {
      assert (t + u)[..|t + u| - 1] == t + u[..|u| - 1];
      AttemptedAppend(t, u[..|u| - 1]);
    }
  }

  lemma {:induction false} ReadsAttemptNothing(t: Trace)
    requires forall k :: 0 <= k < |t| ==> t[k].Read?
    ensures Attempted(t) == []
    decreases |t|
  {
    if t != [] {
      ReadsAttemptNothing(t[..|t| - 1]);
    }
  }

  /** HW_CFG was read with the lite reset over. */
  predicate OutOfReset(op: Op)
  {
    op.Read? && op.reg == REG_HW_CFG && op.rc == 0 && !HasBit(op.value, LRST)
  }

  lemma {:induction false} PollReads(d: Device, t: Trace, left: nat)
    requires left > 0
    ensures var (rc, u, v) := Poll(d, t, REG_HW_CFG, LRST, left, ERR_RESET_TIMEOUT);
      && |u| > |t| && (forall k :: |t| <= k < |u| ==> u[k].Read?)
      && (rc == 0 ==> Succeeded(u[|t|..]) && OutOfReset(u[|u| - 1]))
    decreases left
  {
    hide HasBit;
    var (rc, v) := d.read(t, REG_HW_CFG);
    if rc == 0 && HasBit(v, LRST) && left > 1 {
      PollReads(d, t + [Read(REG_HW_CFG, rc, v)], left - 1);
      var u := Poll(d, t, REG_HW_CFG, LRST, left, ERR_RESET_TIMEOUT).1;
      assert u[|t|..] == [Read(REG_HW_CFG, rc, v)] + u[|t| + 1..];
    }
  }

  /** The value an execution of `prog` reads from PM_CTRL, when it gets that far. */
  function PmRead(d: Device, t: Trace, prog: seq<Instr>): Word
    decreases |prog|
  {
    if prog == [] then 0
    else if prog[0].SetPhyReset? then d.read(t, REG_PM_CTRL).1
    else PmRead(d, Do(d, t, prog[0]).1, prog[1..])
  }

  lemma OneAttempt(op: Op)
    ensures Attempted([op]) == if op.Write? then [Access(op.reg, op.value)] else []
  {
    assert [op][..0] == [];
  }

  lemma SetPhyResetAttempts(d: Device, t: Trace)
    ensures var (rc, u) := Do(d, t, SetPhyReset); var ops := u[|t|..];
      var all := [Access(REG_PM_CTRL, WithPhyReset(d.read(t, REG_PM_CTRL).1))];
      && (rc == 0 ==> Succeeded(ops) && Attempted(ops) == all)
      && (rc != 0 ==> !Succeeded(ops) && Attempted(ops) <= all)
  {
    hide WithPhyReset, Attempted;
    var (rc, u) := Do(d, t, SetPhyReset);
    var ops := u[|t|..];
    var (rrc, v) := d.read(t, REG_PM_CTRL);
    var first := Read(REG_PM_CTRL, rrc, v);
    OneAttempt(first);
    if rrc != 0 {
      assert ops == [first] && ops[0].rc != 0;
    } else {
      var second := Write(REG_PM_CTRL, WithPhyReset(v), rc);
      assert ops == [first] + [second] && ops[1].rc == rc;
      AttemptedAppend([first], [second]);
      OneAttempt(second);
    }
  }

  lemma AwaitResetAttempts(d: Device, t: Trace)
    ensures var (rc, u) := Do(d, t, AwaitReset); var ops := u[|t|..];
      Attempted(ops) == [] && (rc == 0 ==> Succeeded(ops))
  {
    hide Poll, Attempted;
    PollReads(d, t, POLLS);
    ReadsAttemptNothing(Do(d, t, AwaitReset).1[|t|..]);
  }

  /** What one step attempts: its own write, unless it fails first. */
  lemma DoAttempts(d: Device, t: Trace, i: Instr)
    ensures var (rc, u) := Do(d, t, i); var ops := u[|t|..]; var all := Intended([i], d.read(t, REG_PM_CTRL).1);
      && (rc == 0 ==> Succeeded(ops) && Attempted(ops) == all)
      && (rc != 0 ==> Attempted(ops) <= all)
      && (rc != 0 && !i.AwaitReset? ==> !Succeeded(ops))
  {
    hide WithPhyReset, Poll, Attempted;
    assert [i][1..] == [];
    match i
    case W(reg, value) =>
      var op := Write(reg, value, d.write(t, reg, value));
      assert Do(d, t, i).1[|t|..] == [op] && [op][0].rc == op.rc;
      OneAttempt(op);
    case AwaitReset =>
      AwaitResetAttempts(d, t);
    case SetPhyReset =>
      SetPhyResetAttempts(d, t);
  }

  predicate Ends(prog: seq<Instr>)
  {
    && (prog != [] ==> !prog[|prog| - 1].AwaitReset?)
    && (forall k :: 0 <= k < |prog| - 1 ==> !prog[k].SetPhyReset?)
  }

  lemma {:induction false} IntendedIsNotEmpty(prog: seq<Instr>, pm: Word)
    requires Ends(prog) && prog != []
    ensures Intended(prog, pm) != []
  {
    if prog[0].AwaitReset? {
      IntendedIsNotEmpty(prog[1..], pm);
    }
  }

  /** The writes an execution attempts are a prefix of its program's, and all of them just when it returns 0. */
  lemma {:induction false} ExecuteAttempts(d: Device, t: Trace, prog: seq<Instr>)
    requires Ends(prog)
    ensures var (rc, u) := Execute(d, t, prog); var ops := u[|t|..]; var all := Intended(prog, PmRead(d, t, prog));
      && Attempted(ops) <= all
      && (rc == 0 <==> Attempted(ops) == all && Succeeded(ops))
    decreases |prog|
  {
    hide Do, WithPhyReset, Ends;
    if prog == [] {
      assert t[|t|..] == [];
    } else {
      assert Ends(prog[1..]) && (prog[0].SetPhyReset? ==> prog[1..] == []) by { EndsTail(prog); }
      var (rc, u) := Do(d, t, prog[0]);
      var pm := PmRead(d, t, prog);
      DoAttempts(d, t, prog[0]);
      FirstIntended(prog, pm, d.read(t, REG_PM_CTRL).1);
      if rc == 0 {
        ExecuteAttempts(d, u, prog[1..]);
        var v := Execute(d, t, prog).1;
        assert v[|t|..] == u[|t|..] + v[|u|..];
        AttemptedAppend(u[|t|..], v[|u|..]);
        SucceededAppend(u[|t|..], v[|u|..]);
      } else if prog[0].AwaitReset? {
        IntendedIsNotEmpty(prog, pm);
      }
    }
  }

  lemma EndsTail(prog: seq<Instr>)
    requires Ends(prog) && prog != []
    ensures Ends(prog[1..]) && (prog[0].SetPhyReset? ==> prog[1..] == [])
  {
  }

  lemma FirstIntended(prog: seq<Instr>, pm: Word, read: Word)
    requires prog != [] && (prog[0].SetPhyReset? ==> pm == read)
    ensures Intended(prog, pm) == Intended([prog[0]], read) + Intended(prog[1..], pm)
  {
    hide WithPhyReset;
    assert [prog[0]][1..] == [];
  }

  lemma SucceededAppend(t: Trace, u: Trace)
    ensures Succeeded(t + u) <==> Succeeded(t) && Succeeded(u)
  {
    if Succeeded(t + u) {
      assert forall k :: 0 <= k < |t| ==> t[k] == (t + u)[k];
      assert forall k :: 0 <= k < |u| ==> u[k] == (t + u)[|t| + k];
    }
  }

  lemma {:induction false} IntendedComesFrom(prog: seq<Instr>, pm: Word, a: Access)
    requires a in Intended(prog, pm)
    ensures W(a.reg, a.value) in prog || a.reg == REG_PM_CTRL
  {
    hide WithPhyReset;
    if a in Intended(prog[1..], pm) {
      IntendedComesFrom(prog[1..], pm, a);
    }
  }

  lemma {:induction false} EveryWriteIsAttempted(t: Trace, k: nat)
    requires k < |t| && t[k].Write?
    ensures Access(t[k].reg, t[k].value) in Attempted(t)
    decreases |t|
  {
    if k < |t| - 1 {
      EveryWriteIsAttempted(t[..|t| - 1], k);
    }
  }

  /** The write of a step that makes one. */
  function Intent(i: Instr, pm: Word): Access
    requires !i.AwaitReset?
  {
    if i.W? then Access(i.reg, i.value) else Access(REG_PM_CTRL, WithPhyReset(pm))
  }

  lemma {:induction false} OneWriteForEachInstr(prog: seq<Instr>, pm: Word)
    requires AwaitReset !in prog
    ensures |Intended(prog, pm)| == |prog|
    ensures forall k :: 0 <= k < |prog| ==> Intended(prog, pm)[k] == Intent(prog[k], pm)
  {
    hide WithPhyReset;
    if prog != [] {
      OneWriteForEachInstr(prog[1..], pm);
    }
  }

  const WRITE_COUNT := 20

  lemma {:induction false} IntendedAppend(p: seq<Instr>, q: seq<Instr>, pm: Word)
    ensures Intended(p + q, pm) == Intended(p, pm) + Intended(q, pm)
  {
    hide WithPhyReset;
    if p == [] {
      assert p + q == q;
    } else {
      assert (p + q)[1..] == p[1..] + q;
      IntendedAppend(p[1..], q, pm);
    }
  }

  lemma ResetIntends(mac: Mac, pm: Word)
    ensures Intended(ResetAndAddress(mac), pm)
         == [Access(0x014, 0x8), Access(0x108, MacToRegs(mac).0), Access(0x104, MacToRegs(mac).1)]
  {
    hide MacToRegs, WithPhyReset;
    var p := ResetAndAddress(mac);
    FirstIntended(p, pm, pm);
    FirstIntended(p[1..], pm, pm);
    assert p[1..][1..] == p[2..];
    OneWriteForEachInstr([p[0]], pm);
    OneWriteForEachInstr(p[2..], pm);
    assert Intended([AwaitReset], pm) == [] by { assert [AwaitReset][1..] == []; }
  }

  lemma SettingsIntend(pm: Word)
    ensures Intended(BusSettings(), pm)
         == [Access(0x014, 0x1004), Access(0x038, 0x5), Access(0x06C, 0x2000), Access(0x014, 0x1026),
             Access(0x008, 0xFFFF_FFFF), Access(0x024, 0x8111_0007)]
    ensures Intended(FilterSettings(), pm)
         == [Access(0x11C, 0), Access(0x02C, 0xF8_30A1), Access(0x120, 0x8100), Access(0x10C, 0), Access(0x110, 0)]
  {
    OneWriteForEachInstr(BusSettings(), pm);
    OneWriteForEachInstr(FilterSettings(), pm);
  }

  lemma EnablingIntends(promiscuous: bool, pm: Word)
    ensures Intended(Enabling(promiscuous), pm)
         == [Access(0x100, 0), Access(0x100, 0x8), Access(0x010, 0x4), Access(0x100, MacCr(promiscuous)),
             Access(0x02C, 0xF8_30AF)]
    ensures Intended([SetPhyReset], pm) == [Access(0x020, WithPhyReset(pm))]
  {
    hide WithPhyReset, MacCr;
    OneWriteForEachInstr(Enabling(promiscuous), pm);
    OneWriteForEachInstr([SetPhyReset], pm);
  }

  lemma ProgramEnds(mac: Mac, promiscuous: bool)
    ensures Ends(Program(mac, promiscuous))
  {
    hide MacToRegs, MacCr;
  }

  /** What the sequence writes when nothing fails, register by register and value by value. */
  lemma ProgramMakesTwentyWrites(mac: Mac, promiscuous: bool, pm: Word)
    ensures Intended(Program(mac, promiscuous), pm) == Canonical(mac, promiscuous, pm)
    ensures |Canonical(mac, promiscuous, pm)| == WRITE_COUNT
  {
    hide MacToRegs, WithPhyReset, MacCr, Intended, ResetAndAddress, BusSettings, FilterSettings, Enabling;
    ResetIntends(mac, pm);
    SettingsIntend(pm);
    EnablingIntends(promiscuous, pm);
    var r, b, f, e := ResetAndAddress(mac), BusSettings(), FilterSettings(), Enabling(promiscuous);
    IntendedAppend(r + b + f + e, [SetPhyReset], pm);
    IntendedAppend(r + b + f, e, pm);
    IntendedAppend(r + b, f, pm);
    IntendedAppend(r, b, pm);
  }

  /** The twenty writes: register, value, in order. Only the last depends on the device. */
  function Canonical(mac: Mac, promiscuous: bool, pm: Word): seq<Access>
  {
    [Access(0x014, 0x8), Access(0x108, MacToRegs(mac).0), Access(0x104, MacToRegs(mac).1),
     Access(0x014, 0x1004), Access(0x038, 0x5), Access(0x06C, 0x2000), Access(0x014, 0x1026),
     Access(0x008, 0xFFFF_FFFF), Access(0x024, 0x8111_0007),
     Access(0x11C, 0), Access(0x02C, 0xF8_30A1), Access(0x120, 0x8100), Access(0x10C, 0), Access(0x110, 0),
     // the transmitter, its datapath, and only then the receiver
     Access(0x100, 0), Access(0x100, 0x8), Access(0x010, 0x4),
     Access(0x100, if promiscuous then 0x84_000C else 0x80_000C),
     Access(0x02C, 0xF8_30AF), Access(0x020, WithPhyReset(pm))]
  }

  /**
   * Over any device: the writes attempted are a prefix of the twenty, in their order; 0 is returned
   * exactly when all twenty were attempted and every access succeeded; and the only station address
   * ever written is `mac`.
   */
  lemma InitSeqWritesAPrefix(d: Device, t: Trace, mac: Mac, promiscuous: bool)
    ensures var p := Program(mac, promiscuous); var (rc, u) := Execute(d, t, p); var ops := u[|t|..];
      && Attempted(ops) <= Canonical(mac, promiscuous, PmRead(d, t, p))
      && (rc == 0 <==> |Attempted(ops)| == WRITE_COUNT && Succeeded(ops))
      && (forall k :: |t| <= k < |u| && u[k].Write? ==>
           && (u[k].reg == REG_ADDRL ==> u[k].value == MacToRegs(mac).0)
           && (u[k].reg == REG_ADDRH ==> u[k].value == MacToRegs(mac).1)
           && (u[k].reg == REG_MAC_CR && !promiscuous ==> !HasBit(u[k].value, MAC_CR_PRMS)))
  {
    hide Execute, MacToRegs, WithPhyReset, Attempted, Intended, Ends, Program, Canonical;
    var p := Program(mac, promiscuous);
    var pm := PmRead(d, t, p);
    ProgramMakesTwentyWrites(mac, promiscuous, pm);
    ProgramEnds(mac, promiscuous);
    ExecuteAttempts(d, t, p);
    var (rc, u) := Execute(d, t, p);
    forall k | |t| <= k < |u| && u[k].Write?
      ensures u[k].reg == REG_ADDRL ==> u[k].value == MacToRegs(mac).0
      ensures u[k].reg == REG_ADDRH ==> u[k].value == MacToRegs(mac).1
      ensures u[k].reg == REG_MAC_CR && !promiscuous ==> !HasBit(u[k].value, MAC_CR_PRMS)
    {
      EveryWriteIsAttempted(u[|t|..], k - |t|);
      IntendedComesFrom(p, pm, Access(u[k].reg, u[k].value));
      AddressInProgram(mac, promiscuous, u[k].reg, u[k].value);
      ModeInProgram(mac, promiscuous, u[k].reg, u[k].value);
    }
  }

  const MAC_CR_PRMS: Word := 0x4_0000

  lemma ModeInProgram(mac: Mac, promiscuous: bool, reg: nat, value: Word)
    ensures W(reg, value) in Program(mac, promiscuous) && reg == REG_MAC_CR && !promiscuous ==>
      !HasBit(value, MAC_CR_PRMS)
  {
    hide MacToRegs, HasBit, Power2;
    if W(reg, value) in Program(mac, promiscuous) && reg == REG_MAC_CR && !promiscuous {
      assert value == 0 || value == 0x8 || value == 0x80_000C;
      Places();
      HasBitIsDigit(value, 18);
    }
  }

  lemma AddressInProgram(mac: Mac, promiscuous: bool, reg: nat, value: Word)
    ensures W(reg, value) in Program(mac, promiscuous) && reg == REG_ADDRL ==> value == MacToRegs(mac).0
    ensures W(reg, value) in Program(mac, promiscuous) && reg == REG_ADDRH ==> value == MacToRegs(mac).1
  {
    hide MacToRegs;
  }

  // ---- the lite reset ------------------------------------------------------------------

  /** Between accesses `from` and `to` the chip was seen to have come out of its reset. */
  predicate ResetSeen(t: Trace, from: nat, to: nat)
    requires to <= |t|
  {
    exists j :: from < j < to && OutOfReset(t[j])
  }

  /** The reset and its wait: one write, then nothing but reads, the last of them seeing the reset over. */
  lemma ResetRuns(d: Device, t: Trace)
    ensures var (wrc, t1) := Do(d, t, W(REG_HW_CFG, LRST)); var (rc, u) := Do(d, t1, AwaitReset);
      && t1 == t + [Write(REG_HW_CFG, LRST, wrc)]
      && |u| > |t1| && (forall k :: |t| < k < |u| ==> u[k].Read?)
      && (rc == 0 ==> ResetSeen(u, |t|, |u|))
  {
    hide HasBit, Poll, OutOfReset;
    var (wrc, t1) := Do(d, t, W(REG_HW_CFG, LRST));
    PollReads(d, t1, POLLS);
  }

  /**
   * Over any device: the sequence opens with the lite reset, makes no other write until the chip has
   * been seen to come out of it, and returns 0 only then.
   */
  lemma ResetComesFirst(d: Device, t: Trace, mac: Mac, promiscuous: bool)
    ensures var (rc, u) := Execute(d, t, Program(mac, promiscuous));
      && |u| > |t| && u[|t|].Write? && u[|t|].reg == REG_HW_CFG && u[|t|].value == LRST
      && (forall k :: |t| < k < |u| && u[k].Write? ==> u[|t|].rc == 0 && ResetSeen(u, |t|, k))
      && (rc == 0 ==> u[|t|].rc == 0 && ResetSeen(u, |t|, |u|))
  {
    hide Do, MacToRegs, OutOfReset, ResetSeen, BusSettings, FilterSettings, Enabling;
    var p := Program(mac, promiscuous);
    assert p[0] == W(REG_HW_CFG, LRST) && p[1..][0] == AwaitReset;
    ResetRuns(d, t);
    var (wrc, t1) := Do(d, t, W(REG_HW_CFG, LRST));
    var (rrc, t2) := Do(d, t1, AwaitReset);
    var u := Execute(d, t, p).1;
    assert u[|t|] == Write(REG_HW_CFG, LRST, wrc);
    if wrc == 0 && rrc == 0 {
      assert u == Execute(d, t2, p[1..][1..]).1 && t2 <= u;
      forall k | |t2| <= k <= |u| ensures ResetSeen(u, |t|, k) {
        ResetStillSeen(t2, u, |t|, |t2|, k);
      }
    }
  }

  lemma ResetStillSeen(t: Trace, u: Trace, from: nat, to: nat, later: nat)
    requires t <= u && to <= |t| && to <= later <= |u| && ResetSeen(t, from, to)
    ensures ResetSeen(u, from, later)
  {
    hide OutOfReset;
    var j :| from < j < to && OutOfReset(t[j]);
    assert OutOfReset(u[j]);
  }

  lemma {:induction false} ResetTimesOut(d: Device, t: Trace, left: nat)
    requires left > 0 && Stuck(d)
    ensures var (rc, u, v) := Poll(d, t, REG_HW_CFG, LRST, left, ERR_RESET_TIMEOUT);
      rc == ERR_RESET_TIMEOUT && |u| == |t| + left && forall k :: |t| <= k < |u| ==> u[k].Read?
    decreases left
  {
    hide HasBit;
    var (rc, v) := d.read(t, REG_HW_CFG);
    if left > 1 {
      ResetTimesOut(d, t + [Read(REG_HW_CFG, rc, v)], left - 1);
    }
  }

  /** Every access succeeds, but the chip never comes out of its reset. */
  ghost predicate Stuck(d: Device)
  {
    && (forall t, reg, v :: d.write(t, reg, v) == 0)
    && (forall t :: d.read(t, REG_HW_CFG).0 == 0 && HasBit(d.read(t, REG_HW_CFG).1, LRST))
  }

  /** A chip stuck in reset costs one write and a hundred reads, and is reported as a timeout. */
  lemma StuckInReset(d: Device, t: Trace, mac: Mac, promiscuous: bool)
    requires Stuck(d)
    ensures var (rc, u) := Execute(d, t, Program(mac, promiscuous)); var ops := u[|t|..];
      rc == ERR_RESET_TIMEOUT && |ops| == 101 && Attempted(ops) == [Access(REG_HW_CFG, LRST)]
  {
    hide HasBit, Poll, MacToRegs, BusSettings, FilterSettings, Enabling, Attempted, Stuck;
    var p := Program(mac, promiscuous);
    assert p[0] == W(REG_HW_CFG, LRST) && p[1..][0] == AwaitReset;
    var first := Write(REG_HW_CFG, LRST, d.write(t, REG_HW_CFG, LRST));
    assert first.rc == 0 by { StuckWrites(d, t); }
    ResetTimesOut(d, t + [first], POLLS);
    var u := Execute(d, t, p).1;
    assert Do(d, t, p[0]) == (0, t + [first]);
    assert Execute(d, t, p) == Execute(d, t + [first], p[1..]);
    assert Do(d, t + [first], AwaitReset).0 == ERR_RESET_TIMEOUT;
    assert u == Poll(d, t + [first], REG_HW_CFG, LRST, POLLS, ERR_RESET_TIMEOUT).1;
    var polls := u[|t| + 1..];
    assert forall k :: 0 <= k < |polls| ==> polls[k] == u[|t| + 1 + k];
    assert u[|t|..] == [first] + polls;
    AttemptedAppend([first], polls);
    OneAttempt(first);
    ReadsAttemptNothing(polls);
  }

  lemma StuckWrites(d: Device, t: Trace)
    requires Stuck(d)
    ensures d.write(t, REG_HW_CFG, LRST) == 0
  {
  }
}
