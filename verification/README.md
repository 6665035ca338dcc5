# A verified model of the SMSC95xx driver

This project models a DriverKit Ethernet driver for the LAN9500A, together with the C code it shares
with a probe tool and two small tools that ship beside it, and proves what that code relies on:

- **Transmit** (`TxSpec`, `TxPath`): one bulk OUT transfer at a time, packets taken from an
  edge-triggered submission queue, sent or handed back exactly once.
- **Receive** (`RxRecords`, `RxSpec`, `RxPath`): one bulk IN read at a time, its records walked,
  checked, copied and delivered; a read loop that backs off to a timer when the bus is idle and is
  never silently deaf.
- **Setup and teardown** (`Driver`, `CancelJoin`, `Teardown`): a setup that may stop at any step, a
  cancel countdown over any number of sources, and completions that may arrive after everything has
  been released.
- **Control** (`InterfaceControl`): enabling and disabling all queues or none.
- **Wire codecs** (`Bits`, `Bytes`, `Codec`, and `ChipFrames`, the chip's side of a bulk IN transfer), **register
  protocols** (`Registers`, `MacGate`), and two tool
  cores: the Mach-O export trie (`ExportTrie`) and the profiler's flame tree (`FlameTree`).

Code that changes fields in place is a class here, with one method for each source function, and each
method's contract is `View() == Spec.Step(old(View()))` for a function on values. The properties are then
lemmas about those functions, over every run of events in every order. What a foreign object answers --
AsyncIO, Cancel, WakeAtTime, an enqueue, a deallocation, a register access -- is an argument, so every
theorem is for every answer. Past the end of its script a drain runs undisturbed, and a record loop finds
no buffers.

`dafny verify dfyconfig.toml` checks the whole project (Dafny 4.11).

## Assumptions about the environment

Each but the last two is a named predicate or precondition of the lemmas that need it, and of no others; the
last two are built into the model, in `InterfaceControl.Refuses` and `SetFirst` and in the setup methods of
`Driver`.

- Callbacks and control calls are serialised on one dispatch queue: a run is a sequence of events.
- A transfer completes at most once and only if AsyncIO accepted it (`TxSpec.Legal`, `RxSpec.Legal`).
  Exactly-once return, accounting, liveness and teardown do not need it: there completions may be
  missing, repeated or unasked for.
- A read reports at most the length requested (`RxSpec.Sized`), and the backoff timer is one-shot and
  never fires early (`RxSpec.Fair`).
- Before Stop the interface is enabled only while every object of the receive path is held (`RxSpec.Fair`,
  `InterfaceControl.Legal`): registration comes after the setup. After Stop, and after the release that
  follows it, calls may still come.
- `finishStop` runs once per attach, after `quiesceDatapath` (`Teardown.Legal`).
- `DequeuePackets` never reports a count with a null packet: only `TxSpec.NoLostWakeup` needs it, and
  `TxSpec.NullPacketLosesTheWakeup` shows that it does.
- A packet queue's `setEnable(false)` succeeds and `setEnable(true)` refuses a queue already enabled.
- A create or allocate call that reports success yields an object, where the source does not test it.

## What the code turned out not to do

- A repeated `setInterfaceEnable(true)` that super accepts (dext/SMSC95xxDriver/SMSC95xxDriver.cpp:1064-1069)
  fails on the first queue, then reports the link down and tells the family the interface is disabled
  (lines 1109-1129), while every queue stays enabled and receive keeps running.
  `InterfaceControl.RepeatedEnableDisagrees` is such an input; `InterfaceControl.AgreementAfterEnable` gives
  the exact condition, in terms of who refuses what, under which the two sides stop agreeing. A first enable
  that unwinds is also one of them if super refuses the unwind. Calls that alternate, with super accepting
  every unwind, keep the two sides agreeing over every run before Stop
  (`InterfaceControl.AlternatingCallsAgree`).
- Stop does not disable the packet queues (dext/SMSC95xxDriver/SMSC95xxDriver_datapath.cpp:386-398), so all
  or nothing does not survive it: an interface that was up then has every queue enabled with receive stopped
  (`InterfaceControl.StoppedWhileUp` is such an input). `InterfaceControl.AllOrNothingAcrossStop` gives the
  exact condition, over every run from Stop on: it was off, or super has accepted a disable since, or the
  resources have been released.
- The second test of the flame-tree rendering's chain loop can never end it: with a single child the
  weight lost is the node's own, which the loop's guard has just bounded (`FlameTree.Tree.Collapse`).

## Model

| member | source | states |
|---|---|---|
| Codec.RxNext | common/smsc95xx_proto.c:99-128 | one call decodes exactly the next record, and a false answer leaves the offset and every output as they were |
| Codec.WalkGeometry | common/smsc95xx_proto.c:99-128 | on any octets: frames in bounds, ordered and disjoint by a whole header, offsets 4-aligned and at most 3 past the end, at most one record per 8 octets |
| Codec.WalkInvertsPackAfter | common/smsc95xx_proto.c:99-128 | after any prefix, walking what the chip packed (any lengths, any other status bits, last padding optional) yields exactly its records |
| Codec.WalkInvertsPack | common/smsc95xx_proto.c:99-128 | the walk inverts the record encoder |
| ChipFrames.SlotIsFrame | common/smsc95xx_proto.h:58-76 | a frame written octet by octet, with its length and flags in their places, is a well-formed record, good exactly if undamaged, accepted and of a legal size |
| ChipFrames.TransferIsPacked | common/smsc95xx_proto.h:58-76 | a transfer the chip writes is a layout the walk's theorems speak of |
| ChipFrames.WantedAreGood | dext/SMSC95xxDriver/SMSC95xxDriver_datapath.cpp:1226-1290 | the good records of such a transfer are exactly the frames the stack is owed |
| ChipFrames.WalkFindsTheFrames | common/smsc95xx_proto.c:99-128 | the walk of such a transfer yields exactly its frames, each with its CRC |
| Codec.UnpackDecodesTheWalk | common/smsc95xx_proto.c:99-128 | unpacking into padded slots decodes the same records as the walk |
| Codec.UnpackAccountsForEveryOctet | common/smsc95xx_proto.c:99-128 | conversely any octets are a chip layout of exactly the decoded records and a tail that holds none: nothing skipped, nothing invented |
| Codec.LenFieldIsQuotient | common/smsc95xx_proto.c:110-111 | the masked and shifted length field is bits 16 to 29 of the word, for every word |
| Bytes.OctetsOred | common/smsc95xx_proto.c:93-97 | or-ing the shifted octets gives the number they spell |
| Bytes.Le32IsShifts | common/smsc95xx_proto.c:67-73 | octet k of a stored word is the word shifted by 8 k and masked |
| Bytes.HasBitIsDigit | common/smsc95xx_proto.c:110-118 | a masked test of one bit tells that binary digit |
| Codec.CommandsAreSums | common/smsc95xx_proto.c:82-86 | the masked length with both segment flags or-ed in, as a sum |
| Codec.HeaderOctets | common/smsc95xx_proto.c:75-91 | the eight octets of the transmit header |
| Codec.PutLe32 | common/smsc95xx_proto.c:67-73 | writes the word's four octets, least significant first, and nothing else |
| Codec.TxPrepend | common/smsc95xx_proto.c:75-91 | writes the two command words exactly for a legal length and a large enough buffer, otherwise writes nothing and returns 0 |
| Codec.ChipDecodesFramed | common/smsc95xx_proto.c:75-91 | a framed transfer decodes, as one first-and-last segment whose two lengths agree, to exactly its frame |
| Bytes.FromLe32InvertsLe32 | common/smsc95xx_proto.c:67-97 | get_le32 inverts put_le32 on every word |
| Bytes.Le32InvertsFromLe32 | common/smsc95xx_proto.c:67-97 | put_le32 inverts get_le32 on every four octets |
| TxPath.TxPath.constructor | dext/SMSC95xxDriver/SMSC95xxDriver_ivars.h:65-198 | a fresh transmit path is an initial state of the machine |
| TxPath.TxPath.StackEnqueues | dext/SMSC95xxDriver/SMSC95xxDriver_datapath.cpp:869-887 | the doorbell is edge-triggered: rung only when the queue becomes non-empty |
| TxPath.TxPath.ReturnPacket | dext/SMSC95xxDriver/SMSC95xxDriver_datapath.cpp:714-744 | the packet is disposed of once, returned or counted lost |
| TxPath.TxPath.CopyFrame | dext/SMSC95xxDriver/SMSC95xxDriver_datapath.cpp:817-834 | the frame lands behind the header; the copy reads within the packet's 2048 octets and writes within the buffer, and touches nothing else |
| TxPath.TxPath.FramePacket | dext/SMSC95xxDriver/SMSC95xxDriver_datapath.cpp:776-834 | framed exactly when transmittable; a refusal leaves the buffer untouched or with only the header rewritten |
| TxPath.TxPath.Launch | dext/SMSC95xxDriver/SMSC95xxDriver_datapath.cpp:836-867 | the in-flight state is set before AsyncIO and undone if it refuses |
| TxPath.TxPath.SubmitPacket | dext/SMSC95xxDriver/SMSC95xxDriver_datapath.cpp:757-867 | takes the machine's submit step |
| TxSpec.Transmittable | dext/SMSC95xxDriver/SMSC95xxDriver_datapath.cpp:776-834 | 42 to 1514 octets, mapped at or above 0x100000 and inside the 2048 of its buffer |
| TxSpec.Submit | dext/SMSC95xxDriver/SMSC95xxDriver_datapath.cpp:757-867 | accepted exactly when the frame is transmittable, the objects are held and AsyncIO agrees; then the buffer starts with the framed packet and the wire log gains it; otherwise exactly a refusal of AsyncIO counts as a submit failure and all else as a rejection |
| TxSpec.Return | dext/SMSC95xxDriver/SMSC95xxDriver_datapath.cpp:714-744 | one disposal and one counter, whichever way the completion queue answers |
| TxPath.TxPath.TakePacket | dext/SMSC95xxDriver/SMSC95xxDriver_datapath.cpp:915-943 | takes one turn of the drain loop |
| TxPath.TxPath.DrainSubmission | dext/SMSC95xxDriver/SMSC95xxDriver_datapath.cpp:888-959 | drains as the machine does, with the stack enqueuing between any two dequeues, and terminates |
| TxPath.TxPath.TxDataAvailable | dext/SMSC95xxDriver/SMSC95xxDriver_datapath.cpp:964-999 | takes the doorbell step |
| TxSpec.LandCounts | dext/SMSC95xxDriver/SMSC95xxDriver_datapath.cpp:1460-1512 | which status moves which counter; a stall counts as an error, and as a stall where there is a pipe to clear |
| TxSpec.DrainCounts | dext/SMSC95xxDriver/SMSC95xxDriver_datapath.cpp:888-959 | a drain counts itself once, and as deferred exactly when it finds a transfer in flight behind open gates |
| TxSpec.RunCounts | dext/SMSC95xxDriver/SMSC95xxDriver_datapath.cpp:1433-1523 | over every run the status counters add up: completions are frames, aborts and errors exactly, but for null packets, which are errors besides; the path drains at most once for each doorbell or completion |
| TxSpec.SubmittedIsCompletedOrOutstanding | dext/SMSC95xxDriver/SMSC95xxDriver_datapath.cpp:1433-1523 | when transfers complete once, those submitted are those completed and those outstanding |
| TxPath.TxPath.LandTransfer | dext/SMSC95xxDriver/SMSC95xxDriver_datapath.cpp:1433-1512 | the transfer is over and its packet taken before anything else, and its status is counted |
| TxPath.TxPath.TxComplete | dext/SMSC95xxDriver/SMSC95xxDriver_datapath.cpp:1433-1523 | takes the completion step: the packet is taken first, so a repeated completion returns nothing |
| TxPath.TxPath.CloseGate | dext/SMSC95xxDriver/SMSC95xxDriver_datapath.cpp:389-400 | takes the quiescing step |
| TxPath.TxPath.DropObjects | dext/SMSC95xxDriver/SMSC95xxDriver_datapath.cpp:487-503 | the transmit objects and the mapping go, and nothing else changes |
| TxPath.TxPath.TakeInFlight | dext/SMSC95xxDriver/SMSC95xxDriver_datapath.cpp:510-522 | the packet and the flag are cleared before the packet is handed back; a transfer without a packet is counted lost |
| TxPath.TxPath.ReleaseDatapath | dext/SMSC95xxDriver/SMSC95xxDriver_datapath.cpp:474-527 | drops the objects, and reclaims the packet in flight while the completion queue is still held |
| TxPath.TxPath.ReleaseQueues | dext/SMSC95xxDriver/SMSC95xxDriver.cpp:334-339 | the packet queues go after the datapath |
| TxSpec.StepKeepsInv | dext/SMSC95xxDriver/SMSC95xxDriver_datapath.cpp:697-959 | every event keeps the transmit invariant: in flight exactly when a packet is recorded, FIFO, exactly once, balanced counters, faithful wire |
| TxSpec.RunKeepsInv | dext/SMSC95xxDriver/SMSC95xxDriver_datapath.cpp:697-959 | every run keeps it, even with completions missing or repeated |
| TxSpec.ExactlyOnceInOrder | dext/SMSC95xxDriver/SMSC95xxDriver_datapath.cpp:697-959 | from the start of any run: packets offered are, in order, those disposed of, the one in flight and those queued; both accounting identities hold; the wire carries exactly the accepted frames in order |
| TxSpec.NoLostWakeup | dext/SMSC95xxDriver/SMSC95xxDriver_datapath.cpp:869-943 | with the stack enqueuing at any point, after every event a non-empty queue on a ready path means a transfer in flight or a notification pending |
| TxSpec.NullPacketLosesTheWakeup | dext/SMSC95xxDriver/SMSC95xxDriver_datapath.cpp:915-930 | the proviso is needed: a null packet at any idle, non-empty, ready path loses the wakeup |
| TxSpec.BufferHoldsWhatIsBeingSent | dext/SMSC95xxDriver/SMSC95xxDriver_datapath.cpp:757-867 | in every state with a transfer in flight the buffer decodes to the in-flight packet's frame |
| TxSpec.NothingOverwritesATransferInFlight | dext/SMSC95xxDriver/SMSC95xxDriver_datapath.cpp:869-943 | only a completion or the release changes the buffer, the packet or the wire while a transfer is in flight |
| TxSpec.ClosedGateTakesNothing | dext/SMSC95xxDriver/SMSC95xxDriver_datapath.cpp:389-400 | once the gate is closed no run dequeues or submits |
| TxSpec.ReleaseReclaims | dext/SMSC95xxDriver/SMSC95xxDriver_datapath.cpp:504-522 | after the release nothing is in flight and everything taken has been disposed of |
| RxPath.RxPath.constructor | dext/SMSC95xxDriver/SMSC95xxDriver_ivars.h:65-198 | a fresh receive path is an initial state of the machine |
| RxPath.RxPath.DeviceWrites | dext/SMSC95xxDriver/SMSC95xxDriver_datapath.cpp:529-535 | an outstanding read may change the buffer from its start |
| RxPath.RxPath.ArmRxRead | dext/SMSC95xxDriver/SMSC95xxDriver_datapath.cpp:536-572 | posts a read only when teardown has not latched, everything is held and none is outstanding, and records it only if AsyncIO accepted it |
| RxPath.RxPath.HandToTimer | dext/SMSC95xxDriver/SMSC95xxDriver_datapath.cpp:619-660 | past the idle limit the timer posts the next read; a refusal is reported, not hidden |
| RxPath.RxPath.RearmRxRead | dext/SMSC95xxDriver/SMSC95xxDriver_datapath.cpp:584-660 | takes the re-arming step |
| RxPath.RxPath.RxBackoffExpired | dext/SMSC95xxDriver/SMSC95xxDriver_datapath.cpp:669-695 | takes the timer step; a stale wake on a stopped interface arms nothing |
| RxPath.RxPath.AcquirePacket | dext/SMSC95xxDriver/SMSC95xxDriver_datapath.cpp:1054-1101 | the submission queue first, then the pool |
| RxRecords.HandleKeepsCounts | dext/SMSC95xxDriver/SMSC95xxDriver_datapath.cpp:1325-1372 | packets freed are exactly the records dropped for a bad address, a bad fit, a refused length or a refused enqueue, whatever deallocatePacket answers |
| RxPath.RxPath.DeliverPacket | dext/SMSC95xxDriver/SMSC95xxDriver_datapath.cpp:1015-1040 | the delivered packet's frame is the payload; a refused enqueue frees the packet |
| RxPath.RxPath.FillPacket | dext/SMSC95xxDriver/SMSC95xxDriver_datapath.cpp:1318-1395 | an unmapped address, a payload that does not fit or a refused length drops the record for that reason; only the first ends the loop |
| RxPath.RxPath.HandleRecord | dext/SMSC95xxDriver/SMSC95xxDriver_datapath.cpp:1226-1395 | handles one record as the specification does, reading within the transfer |
| RxPath.RxPath.HandleRecords | dext/SMSC95xxDriver/SMSC95xxDriver_datapath.cpp:1213-1395 | the loop handles exactly the records the walk finds in the octets received |
| RxPath.RxPath.DecodeTransfer | dext/SMSC95xxDriver/SMSC95xxDriver_datapath.cpp:1224-1412 | counts a transfer that held no record |
| RxPath.RxPath.LandTransfer | dext/SMSC95xxDriver/SMSC95xxDriver_datapath.cpp:1108-1130 | the read is over before anything else is looked at |
| RxPath.RxPath.SettleCompletion | dext/SMSC95xxDriver/SMSC95xxDriver_datapath.cpp:1108-1412 | takes the completion up to the decision whether and how to re-arm |
| RxPath.RxPath.RxComplete | dext/SMSC95xxDriver/SMSC95xxDriver_datapath.cpp:1108-1422 | takes the completion step; it dereferences the pipe only where the buffer is held, so the one precondition is that a held buffer has its pipe |
| RxPath.RxPath.StartReceiving | dext/SMSC95xxDriver/SMSC95xxDriver.cpp:1085-1107 | receive runs exactly if a read is posted |
| RxPath.RxPath.StopReceiving | dext/SMSC95xxDriver/SMSC95xxDriver.cpp:1131-1134 | receive stops; a pending read or timer is left to run out |
| RxPath.RxPath.Latch | dext/SMSC95xxDriver/SMSC95xxDriver_datapath.cpp:385-388 | takes the quiescing step |
| RxPath.RxPath.ReleaseTimer | dext/SMSC95xxDriver/SMSC95xxDriver_datapath.cpp:481-485 | the timer and its bookkeeping go together |
| RxPath.RxPath.ReleaseDatapath | dext/SMSC95xxDriver/SMSC95xxDriver_datapath.cpp:474-527 | takes the releasing step; the mapping is null before its descriptor goes |
| RxPath.RxPath.ReleaseQueuesAndPool | dext/SMSC95xxDriver/SMSC95xxDriver.cpp:334-342 | queues and pool go after the datapath |
| RxRecords.Acquire | dext/SMSC95xxDriver/SMSC95xxDriver_datapath.cpp:1054-1101 | the submission queue's packet if it has one, otherwise the pool's, and which source was used |
| RxRecords.FateOfRecord | dext/SMSC95xxDriver/SMSC95xxDriver_datapath.cpp:1226-1395 | each counter moves exactly for its own reason, and the loop stops exactly where no packet is supplied or it is unmapped |
| RxRecords.LoopStopsAtTheFirst | dext/SMSC95xxDriver/SMSC95xxDriver_datapath.cpp:1213-1395 | records are handled up to the first that stops the loop, that one included, and no further |
| RxRecords.HandleEffect | dext/SMSC95xxDriver/SMSC95xxDriver_datapath.cpp:1226-1395 | one record either changes no log, or acquires a packet and frees it, or acquires it and delivers the good record's payload into it |
| RxRecords.HandleKeepsLedger | dext/SMSC95xxDriver/SMSC95xxDriver_datapath.cpp:1224-1395 | one record keeps every accounting identity |
| RxRecords.HandleAllKeepsLedger | dext/SMSC95xxDriver/SMSC95xxDriver_datapath.cpp:1224-1395 | a whole transfer keeps them, and every packet acquired is delivered or freed exactly once |
| RxRecords.DeliversSubsequence | dext/SMSC95xxDriver/SMSC95xxDriver_datapath.cpp:1213-1395 | whatever the answers, a transfer delivers an in-order subsequence of the payloads of its good records |
| RxRecords.DeliversEveryGoodRecord | dext/SMSC95xxDriver/SMSC95xxDriver_datapath.cpp:1213-1395 | exactly all of them when buffers, offsets, lengths and enqueues succeed |
| RxRecords.FramesArriveAsPacked | dext/SMSC95xxDriver/SMSC95xxDriver_datapath.cpp:1213-1395 | composed with the encoder: of whatever the chip packed, exactly the good frames arrive, in order |
| RxRecords.AllGoodPayloads | dext/SMSC95xxDriver/SMSC95xxDriver_datapath.cpp:1213-1395 | of good records none is struck out |
| RxSpec.Rearm | dext/SMSC95xxDriver/SMSC95xxDriver_datapath.cpp:584-660 | data and the first eight empty completions of a run post the next read at once, later ones set the timer 100 ms ahead; data ends the run |
| RxSpec.Wake | dext/SMSC95xxDriver/SMSC95xxDriver_datapath.cpp:669-695 | a wake posts a read only while running |
| RxSpec.StartReceiving | dext/SMSC95xxDriver/SMSC95xxDriver.cpp:1085-1107 | a new session starts from a clean slate, and runs exactly if a read is posted |
| RxSpec.Settle | dext/SMSC95xxDriver/SMSC95xxDriver_datapath.cpp:1108-1412 | a completion touches only counters and records, decodes the buffer exactly for a success with octets while running, and re-arms exactly while running over a whole path |
| RxSpec.OnlySuccessTouchesTheBuffer | dext/SMSC95xxDriver/SMSC95xxDriver_datapath.cpp:1178-1206 | a failed or empty completion, or one while stopped, delivers and counts no record, whatever the buffer still holds |
| RxSpec.StepKeepsInv | dext/SMSC95xxDriver/SMSC95xxDriver_datapath.cpp:535-695 | every event keeps the receive invariant, with the backoff active only past the idle limit |
| RxSpec.NeverSilentlyDeaf | dext/SMSC95xxDriver/SMSC95xxDriver_datapath.cpp:535-695 | in every reachable state a running receive has a read posted or the timer set, unless the last request it made was refused |
| RxSpec.DeathAndRevival | dext/SMSC95xxDriver/SMSC95xxDriver.cpp:1085-1107 | receive goes deaf only in a step whose own AsyncIO or WakeAtTime was refused; a successful enable, and any read posted later, revives it |
| RxSpec.UnrefusedIsNeverDeaf | dext/SMSC95xxDriver/SMSC95xxDriver_datapath.cpp:535-695 | a run in which no such call is refused never ends deaf |
| RxSpec.StepKeepsSingle | dext/SMSC95xxDriver/SMSC95xxDriver_datapath.cpp:529-572 | every event keeps "armed means one read outstanding" and arms = completions + outstanding |
| RxSpec.ReadsNeverOverlap | dext/SMSC95xxDriver/SMSC95xxDriver_datapath.cpp:529-572 | in every run at most one read is outstanding, and the buffer is decoded only with none |
| RxSpec.StepKeepsLedger | dext/SMSC95xxDriver/SMSC95xxDriver_datapath.cpp:1224-1395 | every event keeps the receive accounting |
| RxSpec.RunKeepsLedger | dext/SMSC95xxDriver/SMSC95xxDriver_datapath.cpp:1014-1101 | so does every run |
| RxSpec.ReceiveFromTheStart | dext/SMSC95xxDriver/SMSC95xxDriver_datapath.cpp:529-695 | from the start of any run: deaf only after a refusal, one read outstanding at most, arms, records and acquired packets all accounted for |
| RxSpec.CompletionDeliversSubsequence | dext/SMSC95xxDriver/SMSC95xxDriver_datapath.cpp:1108-1422 | a completion delivers nothing but good payloads of its own transfer, in order, and nothing while stopped |
| RxSpec.PackedFramesReachTheStack | dext/SMSC95xxDriver/SMSC95xxDriver_datapath.cpp:1213-1395 | end to end: of the frames packed into the buffer, damaged and ill-sized ones among them, exactly the good ones reach the stack |
| RxSpec.ChipFramesReachTheStack | dext/SMSC95xxDriver/SMSC95xxDriver_datapath.cpp:1213-1395 | from octets to frames: of the frames the chip wrote, exactly the undamaged, accepted ones of 1 to 1518 octets reach the stack, in order |
| RxSpec.QuietArmsAreBounded | dext/SMSC95xxDriver/SMSC95xxDriver_datapath.cpp:583-660 | in any stretch without data or an enable, reads posted are at most the idle allowance left plus the timer wakes |
| RxSpec.WakesAreSpaced | dext/SMSC95xxDriver/SMSC95xxDriver_datapath.cpp:147-149 | in every run wakes lie at least the backoff apart |
| RxSpec.QuietArmRate | dext/SMSC95xxDriver/SMSC95xxDriver_datapath.cpp:583-695 | over T idle nanoseconds at most 9 + T / 10^8 reads are posted |
| RxSpec.StoppingIsFinal | dext/SMSC95xxDriver/SMSC95xxDriver_datapath.cpp:376-388 | once stopping is latched no run posts a read, delivers a frame or restarts receive |
| CancelJoin.RetestAgrees | dext/SMSC95xxDriver/SMSC95xxDriver.cpp:892-926 | the null re-test at each Cancel agrees with the earlier count |
| CancelJoin.StepKeepsInv | dext/SMSC95xxDriver/SMSC95xxDriver.cpp:829-930 | the countdown is the handlers to come plus the Cancels to come; releases never go back |
| CancelJoin.JoinsExactlyOnce | dext/SMSC95xxDriver/SMSC95xxDriver.cpp:829-930 | for any number of sources, any failing subset and any interleaving: one release and one super::Stop, exactly when every counted cancellation has completed, with retains balanced and no wrap |
| CancelJoin.RunsEnd | dext/SMSC95xxDriver/SMSC95xxDriver.cpp:829-930 | every run is bounded and none sticks before the join is complete |
| CancelJoin.EverySourceIsCancelled | dext/SMSC95xxDriver/SMSC95xxDriver.cpp:892-926 | when the release comes every source that was there has had a Cancel of its own, refused or completed by its handler |
| CancelJoin.Join.Finalize | dext/SMSC95xxDriver/SMSC95xxDriver.cpp:852-887 | the handler's countdown step |
| CancelJoin.Join.LetHandlersRun | dext/SMSC95xxDriver/SMSC95xxDriver.cpp:852-887 | any accepted handlers may run between two Cancels |
| CancelJoin.Join.CountSources | dext/SMSC95xxDriver/SMSC95xxDriver.cpp:831-838 | counts the sources held |
| CancelJoin.Join.CancelNext | dext/SMSC95xxDriver/SMSC95xxDriver.cpp:892-926 | a refused Cancel completes its own cancellation; the invariant is kept |
| CancelJoin.Join.Start | dext/SMSC95xxDriver/SMSC95xxDriver.cpp:831-850 | the count is taken, and with nothing to cancel the join is over |
| CancelJoin.Join.FinishStop | dext/SMSC95xxDriver/SMSC95xxDriver.cpp:829-930 | the countdown over any number of sources: as far on as its handlers have run, complete precisely when none is left |
| Driver.Driver.constructor | dext/SMSC95xxDriver/SMSC95xxDriver.cpp:676-698 | pool and queues exist before the datapath |
| Driver.Driver.AcquirePipes | dext/SMSC95xxDriver/SMSC95xxDriver_datapath.cpp:185-198 | stops at the first refusal with exactly the steps before it done |
| Driver.Driver.AllocateBuffers | dext/SMSC95xxDriver/SMSC95xxDriver_datapath.cpp:200-209 | the same, for the two buffers |
| Driver.Driver.CreateActions | dext/SMSC95xxDriver/SMSC95xxDriver_datapath.cpp:211-220 | the same, for the two completion actions |
| Driver.Driver.HangDoorbell | dext/SMSC95xxDriver/SMSC95xxDriver_datapath.cpp:222-241 | the same, for the doorbell |
| Driver.Driver.CreateTimer | dext/SMSC95xxDriver/SMSC95xxDriver_datapath.cpp:243-256 | the same, for the timer and its action |
| Driver.Driver.StartTimer | dext/SMSC95xxDriver/SMSC95xxDriver_datapath.cpp:257-273 | the same, for its handler and its enabling; the transmit gate opens last |
| Driver.Driver.SetupDatapath | dext/SMSC95xxDriver/SMSC95xxDriver_datapath.cpp:184-283 | done up to the first refusal and no further; successful exactly when nothing refuses |
| Driver.Driver.QuiesceDatapath | dext/SMSC95xxDriver/SMSC95xxDriver_datapath.cpp:366-463 | closes both gates, then aborts; a completion delivered inside an abort is the step it would be after it |
| Driver.LateReadIsAStep | dext/SMSC95xxDriver/SMSC95xxDriver_datapath.cpp:376-400 | a read completed inside its abort is an event of the run |
| Driver.LateWriteIsAStep | dext/SMSC95xxDriver/SMSC95xxDriver_datapath.cpp:389-400 | so is a transmit |
| Driver.StoppedInv | dext/SMSC95xxDriver/SMSC95xxDriver_datapath.cpp:366-463 | quiescing, with whatever the aborts deliver, keeps the whole driver's invariant |
| Driver.Driver.HeldSources | dext/SMSC95xxDriver/SMSC95xxDriver.cpp:831-836 | the idle timer, the doorbell's queue, the receive action and the transmit action, in this order |
| Driver.Driver.Held | dext/SMSC95xxDriver/SMSC95xxDriver.cpp:892-926 | the null test before each Cancel reads that source's own field |
| Driver.Driver.Finalize | dext/SMSC95xxDriver/SMSC95xxDriver.cpp:852-887 | the last cancellation, and no other, releases the resources |
| Driver.Driver.BeginCancelling | dext/SMSC95xxDriver/SMSC95xxDriver.cpp:829-850 | counts, and with nothing to cancel releases in this frame |
| Driver.Driver.CancelNext | dext/SMSC95xxDriver/SMSC95xxDriver.cpp:892-926 | one Cancel behind its null test, completed inline if it is refused |
| Driver.Driver.CancelInTurn | dext/SMSC95xxDriver/SMSC95xxDriver.cpp:892-926 | the Cancels are issued in order |
| Driver.Driver.FinishStop | dext/SMSC95xxDriver/SMSC95xxDriver.cpp:829-930 | takes the whole driver through its four Cancels; released precisely when no handler is left to run |
| Driver.Driver.Stop | dext/SMSC95xxDriver/SMSC95xxDriver.cpp:932-942 | quiesce, then join: nothing is released while a handler is still to run, everything is once none is, and nothing runs or is ready |
| Driver.Driver.HandlerRuns | dext/SMSC95xxDriver/SMSC95xxDriver.cpp:852-887 | a handler takes the join's step, releasing if it is the last |
| Driver.Driver.ReleaseResources | dext/SMSC95xxDriver/SMSC95xxDriver.cpp:321-365 | takes the whole driver's releasing step from any state |
| Driver.Driver.FailStart | dext/SMSC95xxDriver/SMSC95xxDriver.cpp:782-793 | from wherever the setup stopped nothing is left held and no packet is lost |
| Driver.Driver.AnyPrefixIsSafe | dext/SMSC95xxDriver/SMSC95xxDriver_datapath.cpp:184-283 | every stopping point is a state all the run theorems start from: a held buffer has its pipe, and an open gate a whole datapath |
| Teardown.StepKeepsInv | dext/SMSC95xxDriver/SMSC95xxDriver.cpp:829-930 | every event of the whole driver keeps its invariant, teardown in any phase included |
| Teardown.TeardownIsOrderly | dext/SMSC95xxDriver/SMSC95xxDriver.cpp:829-930 | over every interleaving: one release, by the last counted cancellation, with every counted source held until then and nothing a callback dereferences missing |
| Teardown.LatchedDoesNoWork | dext/SMSC95xxDriver/SMSC95xxDriver_datapath.cpp:366-400 | once teardown has latched no run dequeues, sends, posts a read or delivers |
| Teardown.ReleaseReclaimsWhileQueuesLive | dext/SMSC95xxDriver/SMSC95xxDriver_datapath.cpp:504-522 | the joined release returns the in-flight packet while the completion queue is held, losing none |
| Teardown.ReleaseIsIdempotent | dext/SMSC95xxDriver/SMSC95xxDriver.cpp:321-365 | a second release from any state, however populated, changes nothing |
| Teardown.SourcesAreAsCounted | dext/SMSC95xxDriver/SMSC95xxDriver.cpp:892-926 | the null test at a Cancel finds what was counted, until the release |
| Teardown.EverythingHeldIsCancelled | dext/SMSC95xxDriver/SMSC95xxDriver.cpp:829-930 | over every run: when the release comes, each of the four objects that was held has had its own cancellation issued and completed |
| Teardown.InitialInv | dext/SMSC95xxDriver/SMSC95xxDriver_datapath.cpp:184-283 | any subset of the setup's acquisitions starts within the invariant |
| InterfaceControl.EnableIsAllOrNothing | dext/SMSC95xxDriver/SMSC95xxDriver.cpp:1056-1129 | one enable, wherever a failure hits, leaves everything on or everything off; from off it succeeds exactly when nobody refuses |
| InterfaceControl.AllOrNothing | dext/SMSC95xxDriver/SMSC95xxDriver.cpp:1020-1158 | over every run of calls, callbacks, Stop and release, over any number of queues: all on or all off until Stop latches, and Stop alone latches |
| InterfaceControl.NothingStartsAfterStop | dext/SMSC95xxDriver/SMSC95xxDriver.cpp:1024-1031 | once Stop has latched enables are refused untouched, no queue goes on and no read is posted; the interface is off at the end exactly if it was, or super accepted a disable, or the resources were released |
| InterfaceControl.StopLeavesQueuesEnabled | dext/SMSC95xxDriver/SMSC95xxDriver_datapath.cpp:386-398 | Stop leaves the queues as they are: all on or all off after it exactly if the interface was off |
| InterfaceControl.AllOrNothingAcrossStop | dext/SMSC95xxDriver/SMSC95xxDriver.cpp:1020-1158 | over every run from Stop on: all on or all off exactly if the interface was off, or super accepted a disable since, or the resources were released |
| InterfaceControl.StoppedWhileUp | dext/SMSC95xxDriver/SMSC95xxDriver.cpp:1064-1107 | the input: an attached driver, enabled and then stopped, has every queue enabled and receive stopped |
| InterfaceControl.AgreementAfterEnable | dext/SMSC95xxDriver/SMSC95xxDriver.cpp:1096-1129 | exactly when an enable leaves the family and the driver disagreeing, by the guards of its branches |
| InterfaceControl.RepeatedEnableDisagrees | dext/SMSC95xxDriver/SMSC95xxDriver.cpp:1064-1129 | the input: an attached driver, enabled twice with nobody refusing, is up while the family holds it down |
| InterfaceControl.AlternatingCallsAgree | dext/SMSC95xxDriver/SMSC95xxDriver.cpp:1020-1158 | alternating calls with accepted unwinds keep the two agreeing over every run before Stop |
| InterfaceControl.Interface.EnableQueue | dext/SMSC95xxDriver/SMSC95xxDriver.cpp:1064-1073 | a queue already enabled refuses |
| InterfaceControl.Interface.EnableQueues | dext/SMSC95xxDriver/SMSC95xxDriver.cpp:1064-1073 | enables exactly the queues before the first refusal |
| InterfaceControl.Interface.UnwindEnable | dext/SMSC95xxDriver/SMSC95xxDriver.cpp:1109-1129 | disables exactly those, and tells the family |
| InterfaceControl.Interface.DisableQueues | dext/SMSC95xxDriver/SMSC95xxDriver.cpp:1143-1151 | disables every queue, last first |
| InterfaceControl.Interface.SetInterfaceEnable | dext/SMSC95xxDriver/SMSC95xxDriver.cpp:1020-1158 | takes the machine's enabling or disabling step |
| Registers.PollClear | common/smsc95xx_init.c:32-40 | reads until the bit clears, at most 100 times |
| Registers.ReadOne | common/smsc95xx_init.c:119-144 | one command cycle, returning a callback's code unchanged |
| Registers.ReadAll | common/smsc95xx_init.c:118-146 | octets before the failure are stored, octets from it on are untouched |
| Registers.EepromRead | common/smsc95xx_init.c:95-147 | refuses a bad range before touching the device or the buffer, whatever the length and however short the buffer; otherwise stores exactly what was read |
| Registers.RangeGuardIsExact | common/smsc95xx_init.c:103-105 | computed at machine width the guard refuses exactly the ranges past the end, for every 64-bit length |
| Registers.AddingWouldWrap | common/smsc95xx_init.c:103-105 | why it subtracts: exactly the ranges whose sum wraps to a small one would get past a guard that added |
| Registers.EepromReadIsBounded | common/smsc95xx_init.c:95-147 | against any device: at most 100 + 101 * len reads and len writes, only read commands for the addresses asked for, and every failure is the device's own last answer |
| Registers.EepromReadTakesTurns | common/smsc95xx_init.c:107-145 | against any device: each command goes to an engine seen idle, and each octet is read from a command seen to have retired with an answer |
| Registers.RegisterBits | common/smsc95xx_regs.h:55-69 | the places of the bits tested and set |
| Registers.ReadCmd | common/smsc95xx_proto.c:21-25 | BUSY and the nine address bits, never aliasing within them |
| Registers.EepromReadSlicesTheImage | common/smsc95xx_init.c:95-147 | whatever else the device does, what is stored is a prefix of the image slice, and a 0 return means all of it |
| Registers.EepromReadOfResponsiveDevice | common/smsc95xx_init.c:95-147 | a device that retires commands within the poll bound is read as its image slice; a bad range is refused unasked |
| Registers.MacRoundTrip | common/smsc95xx_proto.c:33-48 | regs_to_mac inverts mac_to_regs |
| Registers.RegsRoundTrip | common/smsc95xx_proto.c:33-48 | mac_to_regs inverts regs_to_mac on the 48 bits an address has |
| Registers.WithPhyReset | common/smsc95xx_init.c:82-88 | PHY_RST is set and every other bit preserved |
| Registers.MacToRegs | common/smsc95xx_proto.c:33-38 | which octet goes where in the two registers |
| Registers.Wr | common/smsc95xx_init.c:11-17 | one write of the program, stopping it on failure |
| Registers.WaitOutReset | common/smsc95xx_init.c:31-40 | the wait for the reset bit |
| Registers.ResetPhy | common/smsc95xx_init.c:82-91 | the read-modify-write that ends the program |
| Registers.InitSeq | common/smsc95xx_init.c:19-91 | runs the program up to its first failure, over any device |
| Registers.ExecuteAttempts | common/smsc95xx_init.c:19-91 | attempted writes are a prefix of the program's, and 0 is returned exactly when all were made and every access succeeded |
| Registers.ProgramMakesTwentyWrites | common/smsc95xx_init.c:31-88 | the twenty writes, register by register and value by value |
| Registers.InitSeqWritesAPrefix | common/smsc95xx_init.c:19-91 | attempted writes are a prefix of those twenty, 0 is returned exactly when all were made and every access succeeded, no other station address is ever written, and promiscuous mode only if asked for |
| Registers.ResetComesFirst | common/smsc95xx_init.c:31-48 | over any device no write follows the lite reset until the chip has been seen to come out of it, and 0 is returned only then |
| Registers.StuckInReset | common/smsc95xx_init.c:31-40 | a chip that never comes out costs one write and a hundred reads, and is reported as a timeout |
| MacGate.MacPlausible | common/smsc95xx_proto.c:185-210 | tells all zeros, all ones and multicast apart, and accepts exactly the unicast rest |
| MacGate.ToIOReturn | dext/SMSC95xxDriver/SMSC95xxDriver.cpp:264-275 | a callback's code is passed on, the layer's own are mapped, and no failure is mapped to success |
| MacGate.Attach.ReadOctets | dext/SMSC95xxDriver/SMSC95xxDriver.cpp:292-299 | adapts the EEPROM reader and its codes |
| MacGate.Attach.PassGate | dext/SMSC95xxDriver/SMSC95xxDriver.cpp:489-578 | stores an address only after every check, otherwise stores nothing |
| MacGate.Attach.Run | dext/SMSC95xxDriver/SMSC95xxDriver.cpp:489-750 | the chip is initialised with, and the interface registered under, the stored address |
| MacGate.Attach.GetHardwareAddress | dext/SMSC95xxDriver/SMSC95xxDriver.cpp:1226-1262 | not ready, and nothing written, unless an address was admitted |
| MacGate.GateProvenance | dext/SMSC95xxDriver/SMSC95xxDriver.cpp:489-563 | an address admitted is plausible and its auto-load flag, signature and six octets are all in the trace of this attach |
| MacGate.OnlyAProvenAddressGetsThrough | dext/SMSC95xxDriver/SMSC95xxDriver.cpp:489-750 | over any device the chip, the registration and getHardwareAddress see an address only with that evidence, and all the same one |
| MacGate.GateOpensExactlyFor | dext/SMSC95xxDriver/SMSC95xxDriver.cpp:489-563 | on a device that answers, admitted exactly for a loaded, signed, plausible image |
| MacGate.MisClockedNeverGetsThrough | README.md:132-140 | for every image, a device serving its mis-clocked form is refused and no address is written |
| MacGate.PatternsAreNotEnough | README.md:137-141 | a mis-clocked address can be plausible: the pattern check alone would let it in |
| ExportTrie.ReadUleb | tools/dsc-disasm/find-symbol.py:37-46 | reads the number at a position, or runs off the buffer |
| ExportTrie.GroupIsAdded | tools/dsc-disasm/find-symbol.py:42-43 | or-ing a group in above the others is adding it, and the top bit tells whether another follows |
| ExportTrie.StandardExamples | tools/dsc-disasm/find-symbol.py:37-46 | the standard's own examples |
| ExportTrie.ReexportIsBitThree | tools/dsc-disasm/find-symbol.py:124 | bit 3 of the flags |
| ExportTrie.NumberReads | tools/dsc-disasm/find-symbol.py:37-46 | any complete encoding, padded ones included, is read back with exactly its octets consumed |
| ExportTrie.NumberIsThere | tools/dsc-disasm/find-symbol.py:37-46 | conversely what is read was encoded there, and a failure means no encoding starts there |
| ExportTrie.EncodingRoundTrip | tools/dsc-disasm/find-symbol.py:37-46 | reading inverts unsigned LEB128 for every natural number |
| ExportTrie.Walker.IndexOfZero | tools/dsc-disasm/find-symbol.py:131 | the first zero octet from a position |
| ExportTrie.Walker.Terminal | tools/dsc-disasm/find-symbol.py:119-129 | enters the node's own export unless it is a re-export |
| ExportTrie.Walker.VisitEdges | tools/dsc-disasm/find-symbol.py:128-134 | visits the children in order, up to the first exception |
| ExportTrie.Walker.Visit | tools/dsc-disasm/find-symbol.py:119-137 | on any buffer: terminates within the recursion limit, with `found` as specified whether or not an exception ends it |
| ExportTrie.WalkCollects | tools/dsc-disasm/find-symbol.py:119-137 | on a buffer that lays out a trie the walk collects exactly its exports, unless it is deeper than the recursion limit |
| ExportTrie.CollectFinds | tools/dsc-disasm/find-symbol.py:119-134 | the collected map agrees with following the matching edge, for every name |
| ExportTrie.WalkFindsTheExports | tools/dsc-disasm/find-symbol.py:116-137 | `found` maps exactly the names the lookup resolves, re-exports excluded, for every trie with unambiguous edges |
| FlameTree.RootedAt | tools/aggregate-time-profile.py:107-109 | reversing the backtrace is indexing it from its end |
| FlameTree.WeightSplits | tools/aggregate-time-profile.py:104-111 | what passes a path ends there or goes on through exactly one extension |
| FlameTree.Tree.constructor | tools/aggregate-time-profile.py:83 | the empty tree |
| FlameTree.Tree.SetDefault | tools/aggregate-time-profile.py:108-109 | the child is found or added with zero weights, and the dictionaries stay a tree |
| FlameTree.Tree.AddWeight | tools/aggregate-time-profile.py:110 | only that node's weight changes |
| FlameTree.Tree.Enter | tools/aggregate-time-profile.py:107-110 | one level of the descent counts the weight at exactly one more prefix |
| FlameTree.Tree.EndHit | tools/aggregate-time-profile.py:111 | the leaf keeps the weight and the sample is counted |
| FlameTree.Tree.AddFrames | tools/aggregate-time-profile.py:104-111 | the tree is that of the samples so far and this one |
| FlameTree.Tree.WeighsItsPrefix | tools/aggregate-time-profile.py:86-111 | each node's w is the weight of the samples whose stack has its path as a prefix, and its self that of those that end there |
| FlameTree.Tree.WeightIsConserved | tools/aggregate-time-profile.py:86-111 | w is self plus the children's at every node but the root, whose children hold the weight of every sample with a stack |
| FlameTree.Tree.Collapse | tools/aggregate-time-profile.py:121-129 | a collapsed chain loses exactly its nodes' own weights, stops only at a node that branches, ends or keeps a share, and never by its break |
| FlameTree.Profile.constructor | tools/aggregate-time-profile.py:81-84 | an empty profile |
| FlameTree.ChargesAddUp | tools/aggregate-time-profile.py:86-105 | every row is charged once: over all leaves the self weights add up to the total, but for rows whose backtrace has no frame |
| FlameTree.LeafOfRow | tools/aggregate-time-profile.py:91-105 | a row without a backtrace has a name of its own; only a backtrace without frames is charged to nobody |
| FlameTree.LeafEndsTheStack | tools/aggregate-time-profile.py:103-109 | the function charged is the one the stack ends with |
| FlameTree.Profile.SelfWeightsAddUp | tools/aggregate-time-profile.py:86-105 | so does the dictionary itself, in any order |
| FlameTree.Profile.AddRow | tools/aggregate-time-profile.py:86-111 | totals, self weights and tree are those of the rows so far and this one |
| FlameTree.HitsAreRows | tools/aggregate-time-profile.py:86-111 | the tree's weights along a path, summed over the rows themselves |
| FlameTree.Profile.NodeWeighsItsRows | tools/aggregate-time-profile.py:86-111 | there is a node for each path some row's reversed, shortened backtrace starts with; its w is the weight of those rows and its self of those it equals |
| FlameTree.Profile.RootHoldsTheRest | tools/aggregate-time-profile.py:81-111 | the root's children add up to the total but for the rows without a frame |
| FlameTree.ReadProfile | tools/aggregate-time-profile.py:86-111 | the loop over all rows |

## Left out

- The width of addresses and sizes: counters, lengths and offsets are unbounded, so 64-bit address and `size_t` wrap-around is modelled only for the EEPROM range guard (`Registers.RangeGuardIsExact`); 32-bit words and the octets of both wire formats are.
- Logging, tracing, log-rate limits and the re-entrancy and wrong-queue alarms: they change no state that the rest reads.
- NULL arguments of the shared C functions and of `getHardwareAddress`: the model passes objects.
- USB and IOKit transport, pool and queue internals: foreign objects that answer as they please. Of the link reports only whether they are accepted matters here, not the status reported.
- Reference counts other than the retain and release of the driver and its provider around the join.
- `DispatchQueue`, `interface`, `ctrlBuffer` and the doorbell and timer actions, which no modelled callback reads; `Driver.Driver.ReleaseResources` releases the others.
- CancelJoin.Join.FinishStop: counts the release of its sources, of whatever kind; `Driver.Driver.FinishStop` performs it for the driver's four. Handlers and other callbacks that run between two Cancels, or after the last, are events of `CancelJoin.JoinsExactlyOnce` and `Teardown.TeardownIsOrderly`.
- InterfaceControl.Interface.SetInterfaceEnable: the queues of the class are there for its life; their release is an event of the runs on values.
- Start's identification steps before the gate, and the steps between the initialisation and the registration, are two result codes; the link status and RegisterService results change nothing.
- Registry properties, the media, MTU and offload getters, the promiscuous toggle, MII packing, the id split and vid:pid parsing: one-branch facts.
- FlameTree.Tree.Collapse: shares are compared as reals, not as floating-point quotients; the rest of the rendering, pruning and printing is not modelled, and a name's shortening is an arbitrary function.
- Resolving the profile's XML references, the Mach-O and cache header scan, the probe command line, its USB backend, installers and scripts.
