/**
 * The station address: where SMSC95xxDriver::Start gets it from, what it is checked for, and
 * everything it is given to. Any device may answer the register accesses, in any way.
 */
module MacGate {
  import opened Bits
  import opened Bytes
  import opened Registers

  const E2P_LOADED: Word := 0x200
  const SIGNATURE: Byte := 0xA5
  const SIGNATURE_OFFSET := 0
  const MAC_OFFSET := 1

  const BAD_ARGUMENT := 0xE000_02C2
  const TIMEOUT := 0xE000_02D6
  const NOT_READY := 0xE000_02D8
  const NOT_FOUND := 0xE000_02F0

  /** sharedResultToIOReturn. */
  function ToIOReturn(rc: int): (r: int)
    ensures r == 0 <==> rc == 0
    // a callback's own code is passed on; of the reader's and the sequence's own codes only the two
    // timeouts are told the same
    ensures rc < ERR_E2P_NO_EEPROM || rc > ERR_BAD_ARG ==> r == rc
    ensures rc == ERR_BAD_ARG ==> r == 0xE000_02C2
    ensures rc == ERR_RESET_TIMEOUT || rc == ERR_E2P_TIMEOUT ==> r == 0xE000_02D6
    ensures rc == ERR_E2P_NO_EEPROM ==> r == 0xE000_02F0
  {
    if rc == ERR_BAD_ARG then BAD_ARGUMENT
    else if rc == ERR_RESET_TIMEOUT || rc == ERR_E2P_TIMEOUT then TIMEOUT
    else if rc == ERR_E2P_NO_EEPROM then NOT_FOUND
    else rc
  }

  // ---- plausibility --------------------------------------------------------------------

  datatype Verdict = Plausible | AllZeros | AllOnes | Multicast

  ghost predicate Judged(mac: Mac, v: Verdict)
  {
    && (v.AllZeros? <==> forall k :: 0 <= k < 6 ==> mac[k] == 0)
    && (v.AllOnes? <==> forall k :: 0 <= k < 6 ==> mac[k] == 0xFF)
    && (v.Multicast? <==> mac[0] % 2 == 1 && exists k :: 0 <= k < 6 && mac[k] != 0xFF)
  }

  predicate IsPlausible(mac: Mac)
  {
    mac != [0, 0, 0, 0, 0, 0] && mac[0] % 2 == 0
  }

  /** smsc95xx_mac_plausible. */
  method MacPlausible(mac: Mac) returns (v: Verdict)
    ensures Judged(mac, v)
    ensures v.Plausible? <==> IsPlausible(mac)
  {
    var allZeros, allOnes := true, true;
    for i := 0 to 6
      invariant allZeros <==> forall k :: 0 <= k < i ==> mac[k] == 0
      invariant allOnes <==> forall k :: 0 <= k < i ==> mac[k] == 0xFF
    {
      if mac[i] != 0 {
        allZeros := false;
      }
      if mac[i] != 0xFF {
        allOnes := false;
      }
    }
    assert allZeros <==> mac == [0, 0, 0, 0, 0, 0];
    if allZeros {
      assert mac[0] == 0;
      return AllZeros;
    }
    if allOnes {
      return AllOnes;
    }
    if mac[0] % 2 == 1 {
      return Multicast;
    }
    return Plausible;
  }

  // ---- the gate ------------------------------------------------------------------------

  /** What the gate leaves: the code, the trace, and the address if one got through. */
  datatype Admission = Admission(ret: int, trace: Trace, mac: Option<Mac>)

  function Gate(d: Device, t: Trace): (r: Admission)
    ensures t <= r.trace && (r.ret == 0 <==> r.mac.Some?)
  {
    var (rc, cmd) := d.read(t, REG_E2P_CMD);
    var u := t + [Read(REG_E2P_CMD, rc, cmd)];
    if rc != 0 then Admission(rc, u, None)
    else if !HasBit(cmd, E2P_LOADED) then Admission(NOT_FOUND, u, None)
    else
      var sig := EepromOutcome(d, u, SIGNATURE_OFFSET, 1);
      if sig.rc != 0 then Admission(ToIOReturn(sig.rc), sig.trace, None)
      else if sig.bytes[0] != SIGNATURE then Admission(NOT_FOUND, sig.trace, None)
      else
        var mac := EepromOutcome(d, sig.trace, MAC_OFFSET, 6);
        if mac.rc != 0 then Admission(ToIOReturn(mac.rc), mac.trace, None)
        else if !IsPlausible(mac.bytes) then Admission(NOT_FOUND, mac.trace, None)
        else Admission(0, mac.trace, Some(mac.bytes))
  }

  /**
   * What Start leaves: its code, the trace, macValid with macAddress, and the address handed to
   * registerEthernetInterface. `identified` and `setup` are the codes of what comes before the
   * gate and between the initialisation and the registration; `registration` is its own.
   */
  datatype Started = Started(ret: int, trace: Trace, mac: Option<Mac>, registered: Option<Mac>)

  function Start(d: Device, t: Trace, identified: int, setup: int, registration: int): (r: Started)
    ensures t <= r.trace
  {
    if identified != 0 then Started(identified, t, None, None)
    else
      var gate := Gate(d, t);
      if gate.ret != 0 then Started(gate.ret, gate.trace, None, None)
      else
        var (rc, u) := Execute(d, gate.trace, Program(gate.mac.value, false));
        if rc != 0 then Started(ToIOReturn(rc), u, gate.mac, None)
        else if setup != 0 then Started(setup, u, gate.mac, None)
        else Started(registration, u, gate.mac, gate.mac)
  }

  /** The part of the driver's state that holds the address. */
  class Attach {
    const io: Bus
    const macAddress: array<Byte>
    var macValid: bool
    var registered: Option<Mac>

    ghost predicate Valid()
      reads this
    {
      macAddress.Length == 6
    }

    constructor (bus: Bus)
      ensures Valid() && io == bus && !macValid && registered == None && fresh(macAddress)
    {
      io, macValid, registered := bus, false, None;
      macAddress := new Byte[6](_ => 0);
    }

    ghost function Admitted(): (r: Option<Mac>)
      requires Valid()
      reads this, macAddress
    {
      if macValid then Some(macAddress[..]) else None
    }

    method ReadOctets(offset: nat, len: nat) returns (ret: int, bytes: seq<Byte>)
      modifies io
      ensures var r := EepromOutcome(io.device, old(io.trace), offset, len);
        ret == ToIOReturn(r.rc) && io.trace == r.trace && (ret == 0 ==> bytes == r.bytes)
    {
      hide EepromOutcome;
      var buf := new Byte[len];
      var rc := EepromRead(io, offset, buf, len);
      return ToIOReturn(rc), buf[..];
    }

    /** The provenance gate: nothing is stored until every check has passed. */
    method PassGate() returns (ret: int)
      requires Valid() && !macValid
      modifies io, macAddress, this`macValid
      ensures Admission(ret, io.trace, Admitted()) == Gate(io.device, old(io.trace))
    {
      hide EepromOutcome, HasBit;
      var cmd;
      ret, cmd := io.ReadRegister(REG_E2P_CMD);
      if ret != 0 {
        return;
      }
      if !HasBit(cmd, E2P_LOADED) {
        return NOT_FOUND;
      }
      var sig;
      ret, sig := ReadOctets(SIGNATURE_OFFSET, 1);
      if ret != 0 {
        return;
      }
      if sig[0] != SIGNATURE {
        return NOT_FOUND;
      }
      var mac;
      ret, mac := ReadOctets(MAC_OFFSET, 6);
      if ret != 0 {
        return;
      }
      var v := MacPlausible(mac);
      if !v.Plausible? {
        return NOT_FOUND;
      }
      for i := 0 to 6
        invariant macAddress[..i] == mac[..i]
        modifies macAddress
      {
        macAddress[i] := mac[i];
      }
      assert macAddress[..] == mac;
      macValid := true;
    }

    method Run(identified: int, setup: int, registration: int) returns (ret: int)
      requires Valid() && !macValid && registered == None
      modifies io, macAddress, this
      ensures Valid()
      ensures Started(ret, io.trace, Admitted(), registered)
           == Start(io.device, old(io.trace), identified, setup, registration)
    {
      hide Gate, Execute, Program;
      if identified != 0 {
        return identified;
      }
      ret := PassGate();
      if ret != 0 {
        return;
      }
      var rc := InitSeq(io, macAddress[..], false);
      ret := ToIOReturn(rc);
      if ret != 0 {
        return;
      }
      if setup != 0 {
        return setup;
      }
      registered := Some(macAddress[..]);
      ret := registration;
    }

    /** getHardwareAddress: refused, and nothing written, until an address has been admitted. */
    method GetHardwareAddress(addr: array<Byte>) returns (ret: int)
      requires Valid() && addr.Length == 6 && addr != macAddress
      modifies addr
      ensures ret == (if macValid then 0 else NOT_READY)
      ensures addr[..] == if macValid then macAddress[..] else old(addr[..])
    {
      if !macValid {
        return NOT_READY;
      }
      for i := 0 to 6
        invariant addr[..i] == macAddress[..i]
      {
        addr[i] := macAddress[i];
      }
      assert addr[..] == macAddress[..];
      return 0;
    }
  }

  // ---- provenance ----------------------------------------------------------------------

  /** Access `k` of a trace read octet `b` out of EEPROM address `a`, from a command that had retired with an answer. */
  predicate Shown(t: Trace, k: nat, a: nat, b: Byte)
    requires k < |t|
  {
    && IsData(t[k]) && t[k].rc == 0 && t[k].value % 0x100 == b
    && k > 0 && Retired(t[k - 1]) && LastAddress(t[..k]) == Some(a)
  }

  /** From access `from` on, octet `b` was read out of EEPROM address `a`. */
  ghost predicate Seen(t: Trace, from: nat, a: nat, b: Byte)
  {
    exists k :: from <= k < |t| && Shown(t, k, a, b)
  }

  lemma SeenGrows(t: Trace, u: Trace, from: nat, a: nat, b: Byte)
    requires t <= u && Seen(t, from, a, b)
    ensures Seen(u, from, a, b)
  {
    hide LastAddress;
    var k :| from <= k < |t| && Shown(t, k, a, b);
    assert u[..k] == t[..k] && u[k - 1] == t[k - 1];
    assert Shown(u, k, a, b);
  }

  lemma SeenFromEarlier(t: Trace, from: nat, earlier: nat, a: nat, b: Byte)
    requires earlier <= from && Seen(t, from, a, b)
    ensures Seen(t, earlier, a, b)
  {
    hide Shown;
  }

  lemma CommandSetsLastAddress(t: Trace, a: nat)
    requires a < E2P_SIZE
    ensures LastAddress(t + [Write(REG_E2P_CMD, ReadCmd(a), 0)]) == Some(a)
  {
    assert ReadCmd(a) % E2P_SIZE == a;
  }

  lemma ReadByteIsSeen(d: Device, t: Trace, a: nat)
    requires a < E2P_SIZE
    ensures var (rc, u, b) := ReadByte(d, t, a); rc == 0 ==> Seen(u, |t|, a, b)
  {
    hide HasBit, Poll, Blames, Idle, LastAddress;
    var (rc, u, b) := ReadByte(d, t, a);
    if rc == 0 {
      var t1 := t + [Write(REG_E2P_CMD, ReadCmd(a), 0)];
      var (prc, t2, cmd) := Poll(d, t1, REG_E2P_CMD, E2P_BUSY, POLLS, ERR_E2P_TIMEOUT);
      PollOps(d, t1, POLLS);
      BytePolls(d, t, a);
      ReadsKeepLastAddress(t1, t2);
      CommandSetsLastAddress(t, a);
      assert u[..|t2|] == t2;
      assert Shown(u, |t2|, a, b);
    }
  }

  lemma {:induction false} ReadBytesAreSeen(d: Device, t: Trace, a: nat, len: nat, i: nat)
    requires a + len <= E2P_SIZE && i < |ReadBytes(d, t, a, len).bytes|
    ensures var r := ReadBytes(d, t, a, len); Seen(r.trace, |t|, a + i, r.bytes[i])
    decreases len
  {
    hide ReadByte, Seen;
    ReadByteIsSeen(d, t, a);
    var (rc, u, b) := ReadByte(d, t, a);
    var r := ReadBytes(d, t, a, len);
    if i == 0 {
      SeenGrows(u, r.trace, |t|, a, b);
    } else {
      ReadBytesAreSeen(d, u, a + 1, len - 1, i - 1);
      SeenFromEarlier(r.trace, |u|, |t|, a + i, r.bytes[i]);
    }
  }

  lemma EepromBytesAreSeen(d: Device, t: Trace, offset: nat, len: nat, i: nat)
    requires i < |EepromOutcome(d, t, offset, len).bytes|
    ensures var r := EepromOutcome(d, t, offset, len); Seen(r.trace, |t|, offset + i, r.bytes[i])
  {
    hide Poll, ReadBytes, Seen;
    var (rc, u, _) := Poll(d, t, REG_E2P_CMD, E2P_BUSY, POLLS, ERR_E2P_TIMEOUT);
    ReadBytesAreSeen(d, u, offset, len, i);
    var r := EepromOutcome(d, t, offset, len);
    SeenFromEarlier(r.trace, |u|, |t|, offset + i, r.bytes[i]);
  }

  /** What has to have happened since access `from` for an address to be let through. */
  ghost predicate Provenance(t: Trace, from: nat, mac: Mac)
  {
    && IsPlausible(mac)
    && (exists k :: from <= k < |t| && ShowsLoaded(t[k]))
    && Seen(t, from, SIGNATURE_OFFSET, SIGNATURE)
    && (forall i :: 0 <= i < 6 ==> Seen(t, from, MAC_OFFSET + i, mac[i]))
  }

  /** E2P_CMD was read with LOADED, its bit 9, set. */
  predicate ShowsLoaded(op: Op)
  {
    op.Read? && op.reg == 0x030 && op.rc == 0 && op.value / 0x200 % 2 == 1
  }

  lemma LoadedIsBitNine(w: Word)
    ensures HasBit(w, E2P_LOADED) <==> w / 0x200 % 2 == 1
  {
    hide HasBit, Power2;
    Places();
    HasBitIsDigit(w, 9);
  }

  lemma ProvenanceGrows(t: Trace, u: Trace, from: nat, mac: Mac)
    requires t <= u && Provenance(t, from, mac)
    ensures Provenance(u, from, mac)
  {
    hide ShowsLoaded, Seen, IsPlausible;
    SeenGrows(t, u, from, SIGNATURE_OFFSET, SIGNATURE);
    forall i | 0 <= i < 6 ensures Seen(u, from, MAC_OFFSET + i, mac[i]) {
      SeenGrows(t, u, from, MAC_OFFSET + i, mac[i]);
    }
    var k :| from <= k < |t| && ShowsLoaded(t[k]);
    assert ShowsLoaded(u[k]);
  }

  lemma GateProvenance(d: Device, t: Trace)
    ensures var g := Gate(d, t); g.mac.Some? ==> Provenance(g.trace, |t|, g.mac.value)
  {
    hide EepromOutcome, Seen, HasBit, IsPlausible;
    if Gate(d, t).mac.Some? {
      var (rc, cmd) := d.read(t, REG_E2P_CMD);
      var u := t + [Read(REG_E2P_CMD, rc, cmd)];
      var sig := EepromOutcome(d, u, SIGNATURE_OFFSET, 1);
      var mac := EepromOutcome(d, sig.trace, MAC_OFFSET, 6);
      EepromBytesAreSeen(d, u, SIGNATURE_OFFSET, 1, 0);
      SeenGrows(sig.trace, mac.trace, |u|, SIGNATURE_OFFSET, SIGNATURE);
      SeenFromEarlier(mac.trace, |u|, |t|, SIGNATURE_OFFSET, SIGNATURE);
      forall i | 0 <= i < 6 ensures Seen(mac.trace, |t|, MAC_OFFSET + i, mac.bytes[i]) {
        EepromBytesAreSeen(d, sig.trace, MAC_OFFSET, 6, i);
        SeenFromEarlier(mac.trace, |sig.trace|, |t|, MAC_OFFSET + i, mac.bytes[i]);
      }
      LoadedIsBitNine(cmd);
    assert ShowsLoaded(mac.trace[|t|]);
    }
  }

  /** The gate itself writes nothing but EEPROM read commands. */
  lemma GateWritesNoAddress(d: Device, t: Trace)
    ensures var u := Gate(d, t).trace;
      forall k :: |t| <= k < |u| && u[k].Write? ==> u[k].reg == REG_E2P_CMD
  {
    hide EepromOutcome, HasBit, IsPlausible, Poll, Blames;
    var (rc, cmd) := d.read(t, REG_E2P_CMD);
    var u := t + [Read(REG_E2P_CMD, rc, cmd)];
    var sig := EepromOutcome(d, u, SIGNATURE_OFFSET, 1);
    var mac := EepromOutcome(d, sig.trace, MAC_OFFSET, 6);
    EepromReadIsBounded(d, u, SIGNATURE_OFFSET, 1);
    EepromReadIsBounded(d, sig.trace, MAC_OFFSET, 6);
    var g := Gate(d, t).trace;
    forall k | |t| <= k < |g| && g[k].Write? ensures g[k].reg == REG_E2P_CMD {
      if k < |sig.trace| {
        assert g[k] == sig.trace[|u|..][k - |u|];
      } else {
        assert g[k] == mac.trace[|sig.trace|..][k - |sig.trace|];
      }
    }
  }

  /** A write to what decides which frames the chip receives. */
  predicate IsStationWrite(op: Op)
  {
    op.Write? && (op.reg == REG_ADDRL || op.reg == REG_ADDRH || op.reg == REG_MAC_CR)
  }

  /** The write puts its half of `mac` into the chip, and does not have it receive anything else. */
  predicate Programs(op: Op, mac: Mac)
  {
    && (op.Write? && op.reg == REG_MAC_CR ==> !HasBit(op.value, MAC_CR_PRMS))
    && (op.Write? && op.reg == REG_ADDRL ==> op.value == MacToRegs(mac).0)
    && (op.Write? && op.reg == REG_ADDRH ==> op.value == MacToRegs(mac).1)
  }

  /**
   * In every attach over every device: the chip, the registration and getHardwareAddress see an
   * address only if the auto-load, signature and plausibility evidence for that very address is in
   * the trace of this attach; and all three see the same one.
   */
  lemma OnlyAProvenAddressGetsThrough(d: Device, t: Trace, identified: int, setup: int, registration: int)
    ensures var r := Start(d, t, identified, setup, registration);
      && (r.mac.Some? ==> Provenance(r.trace, |t|, r.mac.value))
      && (r.registered.Some? ==> r.registered == r.mac)
      && (forall k :: |t| <= k < |r.trace| && IsStationWrite(r.trace[k]) ==>
           r.mac.Some? && Programs(r.trace[k], r.mac.value))
      && (r.registered.Some? <==> identified == 0 && r.mac.Some? && setup == 0
                                  && Execute(d, Gate(d, t).trace, Program(r.mac.value, false)).0 == 0)
      && (r.registered.Some? ==> r.ret == registration)
      && (r.registered.None? ==> r.ret != 0)
  {
    hide Gate, Execute, Provenance, MacToRegs, Program, Attempted, Succeeded;
    if identified == 0 {
      var gate := Gate(d, t);
      GateWritesNoAddress(d, t);
      if gate.ret == 0 {
        GateProvenance(d, t);
        var mac := gate.mac.value;
        var (rc, u) := Execute(d, gate.trace, Program(mac, false));
        InitSeqWritesAPrefix(d, gate.trace, mac, false);
        ProvenanceGrows(gate.trace, u, |t|, mac);
        assert forall k :: |t| <= k < |u| && IsStationWrite(u[k]) ==> Programs(u[k], mac);
      }
    }
  }

  // ---- what a device's EEPROM decides --------------------------------------------------

  predicate Loaded(d: Device, t: Trace)
  {
    d.read(t, REG_E2P_CMD).1 / 0x200 % 2 == 1
  }

  /** On a device that answers, the gate opens exactly for a loaded, signed, plausible image. */
  lemma GateOpensExactlyFor(d: Device, t: Trace, image: Image)
    requires Responsive(d) && Serves(d, image)
    ensures var good := Loaded(d, t) && image[0] == SIGNATURE && IsPlausible(image[1..7]);
      && Gate(d, t).mac == (if good then Some(image[1..7]) else None)
      && Gate(d, t).ret == if good then 0 else NOT_FOUND
  {
    hide EepromOutcome, HasBit, IsPlausible, Serves, RetiresWithin;
    var u := t + [Read(REG_E2P_CMD, 0, d.read(t, REG_E2P_CMD).1)];
    LoadedIsBitNine(d.read(t, REG_E2P_CMD).1);
    EepromReadOfResponsiveDevice(d, u, SIGNATURE_OFFSET, 1, image);
    var sig := EepromOutcome(d, u, SIGNATURE_OFFSET, 1);
    EepromReadOfResponsiveDevice(d, sig.trace, MAC_OFFSET, 6, image);
  }

  function Doubled(b: Byte): Byte
  {
    (b * 2) % 0x100
  }

  /** A read of the EEPROM that lost one clock: each octet doubled, and seen at two addresses. */
  function MisClocked(genuine: Image): Image
  {
    seq(E2P_SIZE, k requires 0 <= k < E2P_SIZE => Doubled(genuine[k / 2]))
  }

  /** However it answers otherwise, a device serving any mis-clocked image is refused, and nothing is written. */
  lemma MisClockedNeverGetsThrough(d: Device, t: Trace, genuine: Image, identified: int, setup: int, registration: int)
    requires Serves(d, MisClocked(genuine))
    ensures var r := Start(d, t, identified, setup, registration);
      && r.ret != 0 && r.mac == None && r.registered == None
      && (forall k :: |t| <= k < |r.trace| ==> !IsStationWrite(r.trace[k]))
  {
    hide Execute, EepromOutcome, HasBit, IsPlausible, Serves, Program;
    var (rc, cmd) := d.read(t, REG_E2P_CMD);
    var u := t + [Read(REG_E2P_CMD, rc, cmd)];
    EepromReadSlicesTheImage(d, u, SIGNATURE_OFFSET, 1, MisClocked(genuine));
    assert MisClocked(genuine)[0] % 2 == 0;
    assert Gate(d, t).mac == None;
    GateWritesNoAddress(d, t);
  }

  /** The pattern check alone would not do: the mis-clocked image of a good one can be plausible. */
  lemma PatternsAreNotEnough()
    ensures exists genuine: Image ::
      genuine[0] == SIGNATURE && IsPlausible(genuine[1..7]) && IsPlausible(MisClocked(genuine)[1..7])
  {
    var genuine: Image := [0xA5, 0xFC, 0x61, 0x79, 0x90, 0x04, 0x56] + seq(E2P_SIZE - 7, _ => 0);
    assert genuine[1] == 0xFC && MisClocked(genuine)[1] == 0x4A;
    assert genuine[1..7][0] == 0xFC && MisClocked(genuine)[1..7][0] == 0x4A;
  }
}
