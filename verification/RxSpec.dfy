/**
 * The receive half of the datapath as a state machine on values: the read loop, its idle backoff
 * and its teardown, with the device and the timer as the environment.
 */
module RxSpec {
  import opened Bytes
  import opened Codec
  import opened Packets
  import C = ChipFrames
  import R = RxRecords

  const RX_BUFFER_LEN := 4096
  const IDLE_RUN_LIMIT := 8
  const BACKOFF_NS := 100_000_000

  type Memory = s: seq<Byte> | |s| == RX_BUFFER_LEN witness seq(RX_BUFFER_LEN, _ => 0)

  /** Which foreign objects are held; `bytes` stands for the receive buffer and its mapping. */
  datatype Objects = Objects(pipeIn: bool, action: bool, bytes: bool, timer: bool, pool: bool,
                             submitQueue: bool, completeQueue: bool)

  datatype Counters = Counters(completions: nat, completionErrors: nat, zeroLength: nat, byteCount: nat,
                               zeroRecords: nat, armCount: nat, armFailures: nat, episodes: nat, wakes: nat)

  datatype State = State(
    o: Objects,
    // the driver's flags
    armed: bool, running: bool, stopping: bool, idleRun: nat, backoffActive: bool,
    n: Counters, books: R.Books,
    // the environment: the buffer's octets, reads accepted and not completed, the timer's deadline,
    // the time, and when the timer last fired
    memory: Memory, outstanding: nat, timer: Option<nat>, clock: nat, lastWake: int,
    // set when AsyncIO or WakeAtTime refuses the read loop, and cleared as soon as either accepts
    dead: bool)

  datatype Result = Armed | Offline | NotAttached | Refused

  /** What the environment answers when a completion or a wake asks for the next read. */
  datatype Grant = Grant(asyncOk: bool, wakeOk: bool)

  // ---- the steps -----------------------------------------------------------------------

  /** armRxRead. */
  function Arm(s: State, asyncOk: bool): (r: (State, Result))
    ensures r.0.n.wakes == s.n.wakes && r.0.idleRun == s.idleRun && r.0.stopping == s.stopping
    ensures s.n.armCount <= r.0.n.armCount <= s.n.armCount + if s.stopping then 0 else 1
  {
    if s.stopping then
      (s, Offline)
    else if !s.o.pipeIn || !s.o.action || !s.o.bytes then
      (s, NotAttached)
    else if s.armed then
      (s, Armed)
    else if !asyncOk then
      (s.(n := s.n.(armFailures := s.n.armFailures + 1)), Refused)
    else
      (s.(armed := true, n := s.n.(armCount := s.n.armCount + 1), outstanding := s.outstanding + 1, dead := false),
       Armed)
  }

  /** The next arming calls AsyncIO. */
  predicate Posts(s: State)
  {
    !s.stopping && s.o.pipeIn && s.o.action && s.o.bytes && !s.armed
  }

  /** Arm, and remember when a refusal has stopped the loop. */
  function ArmOrDie(s: State, asyncOk: bool): (t: State)
    ensures t == s.(armed := t.armed, n := t.n, outstanding := t.outstanding, dead := t.dead)
    ensures t.n.wakes == s.n.wakes && t.n.completions == s.n.completions
    ensures t.n.armCount - s.n.armCount == t.outstanding - s.outstanding == if Posts(s) && asyncOk then 1 else 0
    ensures t.armed == (s.armed || (Posts(s) && asyncOk))
    ensures t.dead == if Posts(s) then !asyncOk else s.dead
    ensures t.n == s.n.(armCount := t.n.armCount, armFailures := t.n.armFailures)
    ensures t.n.armFailures == s.n.armFailures + if Posts(s) && !asyncOk then 1 else 0
  {
    var (t, r) := Arm(s, asyncOk);
    if r.Refused? then t.(dead := true) else t
  }

  /** Past the idle limit the timer posts the next read, unless it refuses. */
  function BackOff(s: State, wakeOk: bool): (t: State)
    ensures t == s.(backoffActive := wakeOk, timer := t.timer, n := t.n, dead := !wakeOk)
    ensures t.n == s.n.(episodes := s.n.episodes + if wakeOk && !s.backoffActive then 1 else 0)
    ensures t.timer == if wakeOk then Some(s.clock + BACKOFF_NS) else s.timer
  {
    if !wakeOk then
      s.(backoffActive := false, dead := true)
    else
      s.(backoffActive := true, timer := Some(s.clock + BACKOFF_NS), dead := false,
         n := if s.backoffActive then s.n else s.n.(episodes := s.n.episodes + 1))
  }

  /** rearmRxRead after a completion at time `s.clock`. */
  function Rearm(s: State, carriedData: bool, g: Grant): (t: State)
    ensures t.o == s.o && t.running == s.running && t.stopping == s.stopping && t.books == s.books
    ensures t.memory == s.memory && t.clock == s.clock && t.lastWake == s.lastWake
    ensures t.n.wakes == s.n.wakes && t.n.completions == s.n.completions
    // data ends an idle run, and is followed by the next read at once; so are the first eight empty
    // completions of a run, and every later one by the timer
    ensures t.idleRun == if carriedData then 0 else s.idleRun + 1
    ensures var atOnce := carriedData || s.idleRun < 8;
      && (atOnce && Posts(s) && g.asyncOk ==> t.armed)
      && (atOnce ==> t.timer == s.timer)
      && (!atOnce ==> t.armed == s.armed && t.n.armCount == s.n.armCount)
      && (!atOnce && s.o.timer && g.wakeOk ==> t.timer == Some(s.clock + 100_000_000))
  {
    if carriedData then
      ArmOrDie(s.(idleRun := 0, backoffActive := false), g.asyncOk)
    else if s.idleRun + 1 <= IDLE_RUN_LIMIT then
      ArmOrDie(s.(idleRun := s.idleRun + 1), g.asyncOk)
    else
      var t := s.(idleRun := s.idleRun + 1);
      if !s.o.timer then t else BackOff(t, g.wakeOk)
  }

  /** RxBackoffExpired. */
  function Wake(s0: State, asyncOk: bool): (t: State)
    ensures t.timer.None? && t.lastWake == s0.clock && t.n.wakes == s0.n.wakes + 1
    ensures t.idleRun == s0.idleRun && t.backoffActive == s0.backoffActive && t.books == s0.books
    ensures if s0.running && Posts(s0) && asyncOk then t.armed else t.armed == s0.armed
  {
    var s := s0.(timer := None, lastWake := s0.clock, n := s0.n.(wakes := s0.n.wakes + 1));
    if !s.running then s else ArmOrDie(s, asyncOk)
  }

  /** The first lines of RxComplete: the transfer is over. */
  function Land(s: State): State
  {
    s.(armed := false, n := s.n.(completions := s.n.completions + 1),
       outstanding := if s.outstanding > 0 then s.outstanding - 1 else 0)
  }

  /** The records of the transfer in the buffer. */
  function Transfer(memory: Memory, actual: nat): (rs: seq<Record>)
    requires actual <= RX_BUFFER_LEN
    ensures R.HaveCrc(rs)
  {
    RecordsHaveCrc(memory[..actual]);
    Read(memory[..actual], Walk(memory[..actual], 0))
  }

  lemma RecordsHaveCrc(data: seq<Byte>)
    ensures InBounds(data, Walk(data, 0)) && R.HaveCrc(Read(data, Walk(data, 0)))
  {
    WalkGeometry(data, 0);
    ReadLengths(data, Walk(data, 0));
  }

  lemma {:induction false} ReadLengths(data: seq<Byte>, hits: seq<Hit>)
    requires InBounds(data, hits)
    ensures forall i :: 0 <= i < |hits| ==> |Read(data, hits)[i].body| == hits[i].len
  {
    if hits != [] {
      ReadLengths(data, hits[1..]);
    }
  }

  /** The record loop of RxComplete. */
  function Decode(s: State, actual: nat, script: seq<R.Answer>): State
    requires actual <= RX_BUFFER_LEN
  {
    var rs := Transfer(s.memory, actual);
    s.(books := R.HandleAll(s.books, rs, script, s.o.submitQueue),
       n := if rs == [] then s.n.(zeroRecords := s.n.zeroRecords + 1) else s.n)
  }

  /** RxComplete up to its re-arm: the state, and whether it re-arms and had carried data. */
  function Settle(s0: State, status: Status, actual: nat, script: seq<R.Answer>): (r: (State, Option<bool>))
    requires actual <= RX_BUFFER_LEN
    ensures r.0 == Land(s0).(n := r.0.n, books := r.0.books)
    ensures var (m, n) := (Land(s0).n, r.0.n);
      n.completions == m.completions && n.armCount == m.armCount && n.wakes == m.wakes
    ensures r.1.Some? ==> s0.running && (r.1.value <==> status == Success && actual > 0)
    ensures r.1.Some? <==> s0.running && s0.o.bytes && s0.o.pool && s0.o.completeQueue
    // the buffer is decoded only for a success that brought octets, and then all of them
    ensures r.0.books == if r.1 == Some(true)
      then R.HandleAll(s0.books, Transfer(s0.memory, actual), script, s0.o.submitQueue) else s0.books
    ensures var (n, m) := (s0.n, r.0.n);
      && m.completionErrors == n.completionErrors + (if r.1.Some? && status != Success then 1 else 0)
      && m.byteCount == n.byteCount + (if r.1.Some? && status == Success then actual else 0)
      && m.zeroLength == n.zeroLength + (if r.1.Some? && status == Success && actual == 0 then 1 else 0)
      && m.zeroRecords == n.zeroRecords + (if r.1 == Some(true) && Transfer(s0.memory, actual) == [] then 1 else 0)
  {
    var s := Land(s0);
    if !s.running then
      (s, None)
    else if !s.o.bytes || !s.o.pool || !s.o.completeQueue then
      (s, None)
    else if status != Success then
      (s.(n := s.n.(completionErrors := s.n.completionErrors + 1)), Some(false))
    else
      var t := s.(n := s.n.(byteCount := s.n.byteCount + actual));
      if actual == 0 then
        (t.(n := t.n.(zeroLength := t.n.zeroLength + 1)), Some(false))
      else
        (Decode(t, actual, script), Some(true))
  }

  /** RxComplete. */
  function Complete(s: State, status: Status, actual: nat, script: seq<R.Answer>, g: Grant): State
    requires actual <= RX_BUFFER_LEN
  {
    match Settle(s, status, actual, script)
    case (t, None) => t
    case (t, Some(carriedData)) => Rearm(t, carriedData, g)
  }

  /** The receive part of setInterfaceEnable(true), once the queues are enabled. */
  function StartReceiving(s: State, asyncOk: bool): (r: (State, Result))
    // a new session starts from a clean slate, whatever the last one left
    ensures r.0.idleRun == 0 && !r.0.backoffActive && r.0.timer == s.timer && r.0.books == s.books
    ensures r.0.running == r.1.Armed? && (r.1.Armed? ==> r.0.armed)
  {
    var (t, r) := Arm(s.(running := true, idleRun := 0, backoffActive := false), asyncOk);
    if r.Armed? then (t.(dead := false), r) else (t.(running := false), r)
  }

  /** The receive part of setInterfaceEnable(false). */
  function StopReceiving(s: State): State
  {
    s.(running := false)
  }

  /** The receive part of quiesceDatapath. */
  function Quiesce(s: State): State
  {
    s.(stopping := true, running := false)
  }

  /** The receive part of releaseDatapath. */
  function ReleaseDatapath(s: State): State
  {
    s.(o := s.o.(timer := false, action := false, pipeIn := false, bytes := false),
       backoffActive := false, idleRun := 0, armed := false, timer := None)
  }

  /** The receive part of ReleaseResources. */
  function Release(s: State): State
  {
    var t := ReleaseDatapath(s);
    t.(o := t.o.(submitQueue := false, completeQueue := false, pool := false))
  }

  /** The device writes into the buffer from its start. */
  function DeviceWrites(s: State, data: seq<Byte>): State
    requires |data| <= RX_BUFFER_LEN
  {
    s.(memory := data + s.memory[|data|..])
  }

  /** What can happen to the receive path, in any order, each at its own time. */
  datatype Event =
    | Writes(data: seq<Byte>)
    | Completes(status: Status, actual: nat, script: seq<R.Answer>, grant: Grant)
    | TimerFires(asyncOk: bool)
    | Enables(armOk: bool)
    | Disables
    | Quiesces
    | Releases

  datatype Timed = At(time: nat, event: Event)

  predicate Sized(e: Event)
  {
    match e
    case Writes(data) => |data| <= RX_BUFFER_LEN
    case Completes(_, actual, _, _) => actual <= RX_BUFFER_LEN
    case _ => true
  }

  function Step(s0: State, t: Timed): State
    requires Sized(t.event)
  {
    var s := s0.(clock := t.time);
    match t.event
    case Writes(data) => DeviceWrites(s, data)
    case Completes(status, actual, script, g) => Complete(s, status, actual, script, g)
    case TimerFires(asyncOk) => Wake(s, asyncOk)
    case Enables(asyncOk) => StartReceiving(s, asyncOk).0
    case Disables => StopReceiving(s)
    case Quiesces => Quiesce(s)
    case Releases => Release(s)
  }

  /** Everything RxComplete and the backoff use. */
  predicate Whole(o: Objects)
  {
    o.pipeIn && o.action && o.bytes && o.timer && o.pool && o.completeQueue
  }

  /**
   * What the driver's callers and the environment keep to: time does not run back, the timer fires
   * only when due, transfers stay within the requested length, the family enables only a
   * registered interface, and teardown quiesces before it releases. Completions may still come at
   * any time, any number of times.
   */
  predicate Fair(s: State, t: Timed)
  {
    && s.clock <= t.time
    && Sized(t.event)
    && (t.event.TimerFires? ==> s.timer.Some? && s.timer.value <= t.time)
    && (t.event.Enables? ==> s.stopping || Whole(s.o))
    && (t.event.Releases? ==> s.stopping)
  }

  predicate FairRun(s: State, ts: seq<Timed>)
    decreases |ts|
  {
    ts != [] ==> Fair(s, ts[0]) && FairRun(Step(s, ts[0]), ts[1..])
  }

  function Run(s: State, ts: seq<Timed>): State
    requires FairRun(s, ts)
    decreases |ts|
  {
    if ts == [] then s else Run(Step(s, ts[0]), ts[1..])
  }

  const ZERO := Counters(0, 0, 0, 0, 0, 0, 0, 0, 0)

  /** A path that has received nothing yet, with any subset of its objects in place. */
  predicate Initial(s: State)
  {
    && !s.armed && !s.running && !s.stopping && s.idleRun == 0 && !s.backoffActive
    && s.n == ZERO && s.books.n == R.ZERO
    && |s.books.log.acquired| == |s.books.log.delivered| == |s.books.log.freed| == 0
    && s.outstanding == 0 && s.timer.None? && s.lastWake <= s.clock - BACKOFF_NS && !s.dead
    && (s.o.bytes ==> s.o.pipeIn)
  }

  lemma FairTime(s: State, t: Timed)
    requires Fair(s, t)
    ensures Sized(t.event) && s.clock <= t.time && (t.event.TimerFires? ==> s.timer.Some? && s.timer.value <= t.time)
  {
  }

  // ---- never silently deaf -------------------------------------------------------------

  /** Running, with no read posted and no timer set: nothing will ever wake the read loop. */
  predicate Deaf(s: State)
  {
    s.running && !s.armed && s.timer.None?
  }

  /** The one call that re-arming makes, AsyncIO or past the idle limit WakeAtTime, is refused. */
  predicate RearmRefused(s: State, carriedData: bool, g: Grant)
  {
    if carriedData || s.idleRun + 1 <= IDLE_RUN_LIMIT then Posts(s) && !g.asyncOk
    else s.o.timer && !g.wakeOk
  }

  /** The event makes a call of AsyncIO or WakeAtTime that is refused. */
  predicate Refuses(s: State, t: Timed)
    requires Sized(t.event)
  {
    match t.event
    case Completes(status, actual, script, g) =>
      var (u, again) := Settle(s.(clock := t.time), status, actual, script);
      again.Some? && RearmRefused(u, again.value, g)
    case TimerFires(asyncOk) => s.running && Posts(s) && !asyncOk
    case Enables(asyncOk) => Posts(s) && !asyncOk
    case _ => false
  }

  predicate UnrefusedRun(s: State, ts: seq<Timed>)
    requires FairRun(s, ts)
    decreases |ts|
  {
    ts != [] ==> !Refuses(s, ts[0]) && UnrefusedRun(Step(s, ts[0]), ts[1..])
  }

  predicate Inv(s: State)
  {
    // running implies nothing the callbacks dereference is missing
    && (s.running ==> !s.stopping && Whole(s.o))
    && (s.backoffActive ==> s.idleRun > IDLE_RUN_LIMIT)
    // pipeIn outlives the buffer, so a stalled completion that gets past the buffer test can clear it
    && (s.o.bytes ==> s.o.pipeIn)
    // a running receive that nothing will wake is one whose last request was refused
    && (Deaf(s) ==> s.dead)
    // two wakes lie at least the backoff apart
    && s.lastWake <= s.clock
    && (s.timer.Some? ==> s.lastWake + BACKOFF_NS <= s.timer.value)
  }

  lemma RearmKeepsInv(s: State, carriedData: bool, g: Grant)
    requires Inv(s.(dead := true)) && s.running
    ensures Inv(Rearm(s, carriedData, g))
    ensures Deaf(Rearm(s, carriedData, g)) ==> RearmRefused(s, carriedData, g)
  {
    hide ArmOrDie, BackOff;
  }

  lemma StepKeepsInv(s: State, t: Timed)
    requires Inv(s) && Fair(s, t)
    ensures Inv(Step(s, t))
  {
    hide Settle, Rearm;
    match t.event
    case Completes(status, actual, script, g) =>
      var (u, again) := Settle(s.(clock := t.time), status, actual, script);
      if again.Some? {
        RearmKeepsInv(u, again.value, g);
      }
    case _ =>
  }

  /**
   * In every reachable state, whatever the completions: a running receive has a read posted or the
   * timer set, unless the last request it made of AsyncIO or WakeAtTime was refused.
   */
  lemma {:induction false} NeverSilentlyDeaf(s: State, ts: seq<Timed>)
    requires Inv(s) && FairRun(s, ts)
    ensures var f := Run(s, ts); Inv(f) && (Deaf(f) ==> f.dead)
    decreases |ts|
  {
    hide Step, Fair;
    if ts != [] {
      FairTime(s, ts[0]);
      StepKeepsInv(s, ts[0]);
      NeverSilentlyDeaf(Step(s, ts[0]), ts[1..]);
    }
  }

  /**
   * Receive goes deaf only in a step whose own call was refused, a disable and an enable always
   * revive it, and so does any later request that is accepted.
   */
  lemma DeathAndRevival(s: State, t: Timed)
    requires Inv(s) && Fair(s, t)
    ensures Deaf(Step(s, t)) ==> Deaf(s) || Refuses(s, t)
    ensures Step(s, t).dead ==> s.dead || Refuses(s, t)
    ensures t.event.Enables? && !s.stopping && (t.event.armOk || s.armed) ==>
      var f := Step(s, t); f.running && f.armed && !f.dead
    ensures Step(s, t).n.armCount > s.n.armCount ==> !Step(s, t).dead && !Deaf(Step(s, t))
  {
    hide Complete;
    match t.event
    case Completes(status, actual, script, g) =>
      CompletionDies(s.(clock := t.time), status, actual, script, g);
    case _ =>
  }

  lemma CompletionDies(s: State, status: Status, actual: nat, script: seq<R.Answer>, g: Grant)
    requires Inv(s) && actual <= RX_BUFFER_LEN
    ensures var f := Complete(s, status, actual, script, g); var (u, again) := Settle(s, status, actual, script);
      var refused := again.Some? && RearmRefused(u, again.value, g);
      && (Deaf(f) ==> Deaf(s) || refused) && (f.dead ==> s.dead || refused)
      && (f.n.armCount > s.n.armCount ==> !f.dead && !Deaf(f))
  {
    hide Settle, Rearm, RearmRefused;
    var (u, again) := Settle(s, status, actual, script);
    if again.Some? {
      RearmKeepsInv(u, again.value, g);
      RearmDies(u, again.value, g);
    }
  }

  lemma RearmDies(s: State, carriedData: bool, g: Grant)
    ensures var f := Rearm(s, carriedData, g);
      && (f.dead ==> s.dead || RearmRefused(s, carriedData, g))
      && (f.n.armCount > s.n.armCount ==> !f.dead && f.armed)
  {
    hide ArmOrDie, BackOff;
  }

  lemma InitialInv(s: State)
    requires Initial(s)
    ensures Inv(s)
  {
    hide Whole;
  }

  lemma InitialSingle(s: State)
    requires Initial(s)
    ensures Single(s)
  {
    assert s.n.armCount == 0 && s.n.completions == 0;
  }

  lemma InitialLedger(s: State)
    requires Initial(s)
    ensures R.Ledger(s.books)
  {
    hide R.Ledger;
    R.NothingLogged(s.books);
  }

  /** No step of a run was refused, so it is not deaf at its end. */
  lemma {:induction false} UnrefusedIsNeverDeaf(s: State, ts: seq<Timed>)
    requires Inv(s) && !Deaf(s) && FairRun(s, ts) && UnrefusedRun(s, ts)
    ensures !Deaf(Run(s, ts))
    decreases |ts|
  {
    hide Step, Fair, Inv, Refuses;
    if ts != [] {
      FairTime(s, ts[0]);
      StepKeepsInv(s, ts[0]);
      DeathAndRevival(s, ts[0]);
      UnrefusedIsNeverDeaf(Step(s, ts[0]), ts[1..]);
    }
  }

  // ---- one transfer at a time ----------------------------------------------------------

  /** A read completes at most once, only if it was posted, and only then does the device write. */
  predicate Legal(s: State, t: Timed)
  {
    Fair(s, t) && ((t.event.Completes? || t.event.Writes?) ==> s.outstanding > 0)
  }

  predicate LegalRun(s: State, ts: seq<Timed>)
    decreases |ts|
  {
    ts != [] ==> Legal(s, ts[0]) && LegalRun(Step(s, ts[0]), ts[1..])
  }

  /** Before release `armed` is "a read is outstanding"; after it, none is ever posted again. */
  predicate Single(s: State)
  {
    && s.outstanding <= 1
    && (s.armed ==> s.outstanding == 1)
    && (s.outstanding == 1 && !s.armed ==> s.stopping && !s.o.bytes)
    && s.n.armCount == s.n.completions + s.outstanding
  }

  lemma RearmKeepsSingle(s: State, carriedData: bool, g: Grant)
    requires Single(s)
    ensures Single(Rearm(s, carriedData, g))
  {
    hide ArmOrDie, BackOff;
  }

  lemma StepKeepsSingle(s: State, t: Timed)
    requires Single(s) && Legal(s, t)
    ensures Single(Step(s, t))
  {
    hide Settle, Rearm;
    match t.event
    case Completes(status, actual, script, g) =>
      var (u, again) := Settle(s.(clock := t.time), status, actual, script);
      if again.Some? {
        RearmKeepsSingle(u, again.value, g);
      }
    case _ =>
  }

  /** Reads never overlap: one at most is outstanding, and the driver decodes only between reads. */
  lemma {:induction false} ReadsNeverOverlap(s: State, ts: seq<Timed>)
    requires Single(s) && LegalRun(s, ts)
    ensures FairRun(s, ts) && Single(Run(s, ts))
    ensures forall t :: Legal(Run(s, ts), t) && t.event.Completes? ==> Land(Run(s, ts)).outstanding == 0
    decreases |ts|
  {
    hide Step, Fair;
    if ts != [] {
      FairTime(s, ts[0]);
      StepKeepsSingle(s, ts[0]);
      ReadsNeverOverlap(Step(s, ts[0]), ts[1..]);
    }
  }

  // ---- accounting ----------------------------------------------------------------------

  lemma StepKeepsLedger(s: State, t: Timed)
    requires R.Ledger(s.books) && Sized(t.event)
    ensures R.Ledger(Step(s, t).books)
  {
    hide R.HandleAll, Transfer, R.Ledger, R.HaveCrc, Settle, Rearm;
    match t.event
    case Completes(status, actual, script, g) =>
      R.HandleAllKeepsLedger(s.books, Transfer(s.memory, actual), script, s.o.submitQueue);
    case _ =>
  }

  /** Over every run the counters balance and every packet acquired was delivered or freed once. */
  lemma {:induction false} RunKeepsLedger(s: State, ts: seq<Timed>)
    requires R.Ledger(s.books) && FairRun(s, ts)
    ensures R.Ledger(Run(s, ts).books)
    decreases |ts|
  {
    hide Step, R.Ledger;
    if ts != [] {
      StepKeepsLedger(s, ts[0]);
      RunKeepsLedger(Step(s, ts[0]), ts[1..]);
    }
  }

  /**
   * From the start of any run: receive is deaf only after a refusal, one read at most is outstanding
   * and the arms are accounted for, and so is every record and every packet acquired.
   */
  lemma ReceiveFromTheStart(s: State, ts: seq<Timed>)
    requires Initial(s) && LegalRun(s, ts)
    ensures FairRun(s, ts)
    ensures var f := Run(s, ts); var n := f.books.n; var log := f.books.log;
      && (Deaf(f) ==> f.dead)
      && f.outstanding <= 1 && (f.armed ==> f.outstanding == 1)
      && f.n.armCount == f.n.completions + f.outstanding
      && n.records == n.frames + n.dropped && n.frames == |log.delivered|
      && n.dropNoBuffer == n.poolFailures && n.dropEnqueue == n.enqueueFailures
      && multiset(log.acquired) == multiset(R.DeliveredPackets(log.delivered)) + multiset(log.freed)
  {
    hide Run, LegalRun, FairRun, Initial, R.DeliveredPackets, R.Landed;
    InitialInv(s);
    InitialSingle(s);
    InitialLedger(s);
    ReadsNeverOverlap(s, ts);
    NeverSilentlyDeaf(s, ts);
    RunKeepsLedger(s, ts);
  }

  // ---- from the wire to the stack ------------------------------------------------------

  /** Whatever the octets and the answers, a completion delivers good records of its transfer, in order. */
  lemma CompletionDeliversSubsequence(s: State, status: Status, actual: nat, script: seq<R.Answer>, g: Grant)
    returns (ds: seq<R.Delivery>)
    requires actual <= RX_BUFFER_LEN
    ensures Complete(s, status, actual, script, g).books.log.delivered == s.books.log.delivered + ds
    ensures R.Subsequence(R.Payloads(ds), R.GoodPayloads(Transfer(s.memory, actual)))
    ensures !s.running ==> ds == []
  {
    hide Settle, Rearm, R.HandleAll, R.GoodPayloads, R.Subsequence, R.HaveCrc;
    var (u, again) := Settle(s, status, actual, script);
    if u.books == s.books {
      ds := [];
      R.EmptyIsSubsequence(R.GoodPayloads(Transfer(s.memory, actual)));
    } else {
      ds := R.DeliversSubsequence(s.books, Transfer(s.memory, actual), script, s.o.submitQueue);
    }
  }

  /**
   * A completion that failed, was empty or came while receive was stopped leaves the books alone: what
   * an earlier transfer left in the buffer is never looked at again.
   */
  lemma OnlySuccessTouchesTheBuffer(s: State, status: Status, actual: nat, script: seq<R.Answer>, g: Grant)
    requires actual <= RX_BUFFER_LEN
    ensures var c := Complete(s, status, actual, script, g);
      c.books == if status == Success && actual > 0 && s.running && s.o.bytes && s.o.pool && s.o.completeQueue
                 then R.HandleAll(s.books, Transfer(s.memory, actual), script, s.o.submitQueue) else s.books
  {
    hide Settle, Rearm, R.HandleAll, Transfer;
  }

  /**
   * End to end: of the frames the chip packed into a transfer, damaged and ill-sized ones among
   * them, exactly the good ones reach the stack, in order and octet for octet.
   */
  lemma PackedFramesReachTheStack(s: State, slots: seq<Slot>, script: seq<R.Answer>, g: Grant)
    returns (ds: seq<R.Delivery>)
    requires s.running && s.o.bytes && s.o.pool && s.o.completeQueue
    requires slots != [] && ChipLayout(slots) && |slots| <= |script|
    requires forall i :: 0 <= i < |slots| ==> R.Benign(script[i], s.o.submitQueue)
    requires 0 < |Pack(slots)| <= RX_BUFFER_LEN && s.memory[..|Pack(slots)|] == Pack(slots)
    ensures Complete(s, Success, |Pack(slots)|, script, g).books.log.delivered == s.books.log.delivered + ds
    ensures R.HaveCrc(Records(slots)) && R.Payloads(ds) == R.GoodPayloads(Records(slots))
  {
    hide Rearm, R.HandleAll, R.Benign, ChipLayout, Pack, Walk, R.HaveCrc, R.GoodPayloads;
    ds := R.FramesArriveAsPacked(s.books, slots, script, s.o.submitQueue);
    assert Records(slots) == Transfer(s.memory, |Pack(slots)|);
    var (u, again) := Settle(s, Success, |Pack(slots)|, script);
    assert Complete(s, Success, |Pack(slots)|, script, g) == Rearm(u, again.value, g);
  }

  /**
   * From the chip's frames to the stack's: a transfer written octet by octet by the chip delivers
   * exactly the payloads of its undamaged, accepted, neither empty nor oversize frames, in order.
   */
  lemma ChipFramesReachTheStack(s: State, fs: seq<C.ChipFrame>, script: seq<R.Answer>, g: Grant)
    returns (ds: seq<R.Delivery>)
    requires s.running && s.o.bytes && s.o.pool && s.o.completeQueue
    requires fs != [] && (forall i :: 0 <= i < |fs| ==> C.Legal(fs[i])) && C.Padded(fs) && |fs| <= |script|
    requires forall i :: 0 <= i < |fs| ==> R.Benign(script[i], s.o.submitQueue)
    requires |C.TransferBytes(fs)| <= RX_BUFFER_LEN
    requires s.memory[..|C.TransferBytes(fs)|] == C.TransferBytes(fs)
    ensures Complete(s, Success, |C.TransferBytes(fs)|, script, g).books.log.delivered == s.books.log.delivered + ds
    ensures R.Payloads(ds) == C.WantedPayloads(fs)
  {
    hide Complete, R.Benign, ChipLayout, Pack, C.Padded, C.WantedPayloads, R.GoodPayloads, C.FrameBytes;
    C.TransferIsPacked(fs);
    C.WantedAreGood(fs);
    C.TransferIsNotEmpty(fs);
    ds := PackedFramesReachTheStack(s, C.SlotsOf(fs), script, g);
  }

  // ---- the idle bound ------------------------------------------------------------------

  /** No data arrives and nobody enables. */
  predicate Quiet(e: Event)
  {
    !e.Enables? && (e.Completes? ==> e.status != Success || e.actual == 0)
  }

  predicate AllQuiet(ts: seq<Timed>)
  {
    forall i :: 0 <= i < |ts| ==> Quiet(ts[i].event)
  }

  /** Immediate re-arms still allowed before the timer takes over. */
  function Slack(s: State): nat
  {
    if s.stopping || s.idleRun >= IDLE_RUN_LIMIT then 0 else IDLE_RUN_LIMIT - s.idleRun
  }

  /** A posted read is paid for by slack, or by nothing else. */
  lemma RearmSpendsSlack(s: State, g: Grant)
    ensures var f := Rearm(s, false, g);
      && f.n.armCount + Slack(f) <= s.n.armCount + Slack(s)
      && f.n.wakes == s.n.wakes && f.clock == s.clock && f.lastWake == s.lastWake
  {
    hide Slack, ArmOrDie, BackOff;
    var t := s.(idleRun := s.idleRun + 1);
    var f := Rearm(s, false, g);
    if s.idleRun + 1 <= IDLE_RUN_LIMIT {
      assert f.n.armCount + Slack(f) <= s.n.armCount + Slack(s) by {
        SlackFalls(s);
        SlackOf(f, t);
      }
    } else {
      SlackFalls(s);
      SlackOf(f, t);
    }
  }

  lemma SlackFalls(s: State)
    ensures var t := s.(idleRun := s.idleRun + 1);
      Slack(t) <= Slack(s) && (s.idleRun + 1 <= IDLE_RUN_LIMIT && !s.stopping ==> Slack(t) == Slack(s) - 1)
  {
  }

  lemma SlackOf(s: State, t: State)
    requires s.stopping == t.stopping && s.idleRun == t.idleRun
    ensures Slack(s) == Slack(t)
  {
  }

  lemma QuietCompletionSpendsSlack(s: State, actual: nat, status: Status, script: seq<R.Answer>, g: Grant)
    requires actual <= RX_BUFFER_LEN && (status != Success || actual == 0)
    ensures var f := Complete(s, status, actual, script, g);
      && f.n.armCount + Slack(f) <= s.n.armCount + Slack(s)
      && f.n.wakes == s.n.wakes && f.clock == s.clock && f.lastWake == s.lastWake
  {
    hide Settle, Rearm, Slack;
    var (u, again) := Settle(s, status, actual, script);
    SlackOf(u, s);
    if again.Some? {
      RearmSpendsSlack(u, g);
    }
  }

  lemma QuietStepSpendsSlack(s: State, t: Timed)
    requires Fair(s, t) && Quiet(t.event)
    ensures var f := Step(s, t);
      f.n.armCount + Slack(f) <= s.n.armCount + Slack(s) + (f.n.wakes - s.n.wakes)
    ensures Step(s, t).n.wakes == s.n.wakes + (if t.event.TimerFires? then 1 else 0)
    ensures Step(s, t).clock == t.time
    ensures Step(s, t).lastWake == if t.event.TimerFires? then t.time else s.lastWake
  {
    hide Complete, Slack;
    SlackOf(s.(clock := t.time), s);
    match t.event
    case Completes(status, actual, script, g) =>
      QuietCompletionSpendsSlack(s.(clock := t.time), actual, status, script, g);
    case Quiesces =>
      StoppedHasNoSlack(Step(s, t));
    case Releases =>
      StoppedHasNoSlack(Step(s, t));
    case Writes(_) =>
      SlackOf(Step(s, t), s);
    case TimerFires(_) =>
      SlackOf(Step(s, t), s);
    case Disables =>
      SlackOf(Step(s, t), s);
  }

  lemma StoppedHasNoSlack(s: State)
    requires s.stopping
    ensures Slack(s) == 0
  {
  }

  /** In a quiet stretch, reads are posted at most 8 times and once per timer wake. */
  lemma {:induction false} QuietArmsAreBounded(s: State, ts: seq<Timed>)
    requires FairRun(s, ts) && AllQuiet(ts)
    ensures var f := Run(s, ts);
      && f.n.wakes >= s.n.wakes && f.clock >= s.clock
      && f.n.armCount + Slack(f) <= s.n.armCount + Slack(s) + (f.n.wakes - s.n.wakes)
    decreases |ts|
  {
    hide Step, Fair, Quiet;
    if ts != [] {
      FairTime(s, ts[0]);
      QuietStepSpendsSlack(s, ts[0]);
      QuietArmsAreBounded(Step(s, ts[0]), ts[1..]);
    }
  }

  /** Only the timer's firing is a wake, whatever else happens. */
  lemma StepWakes(s: State, t: Timed)
    requires Fair(s, t)
    ensures var f := Step(s, t);
      && f.clock == t.time
      && f.n.wakes == s.n.wakes + (if t.event.TimerFires? then 1 else 0)
      && f.lastWake == if t.event.TimerFires? then t.time else s.lastWake
  {
    hide Complete;
    match t.event
    case Completes(status, actual, script, g) =>
      CompletionWakesNobody(s.(clock := t.time), status, actual, script, g);
    case _ =>
  }

  lemma CompletionWakesNobody(s: State, status: Status, actual: nat, script: seq<R.Answer>, g: Grant)
    requires actual <= RX_BUFFER_LEN
    ensures var f := Complete(s, status, actual, script, g);
      f.n.wakes == s.n.wakes && f.clock == s.clock && f.lastWake == s.lastWake
  {
    hide Settle, Rearm;
  }

  /** In every run the wakes are spaced, from the last one before it on. */
  lemma {:induction false} WakesAreSpaced(s: State, ts: seq<Timed>)
    requires Inv(s) && FairRun(s, ts)
    ensures var f := Run(s, ts);
      && s.lastWake <= f.lastWake <= f.clock && f.n.wakes >= s.n.wakes
      && (f.n.wakes - s.n.wakes) * BACKOFF_NS <= f.lastWake - s.lastWake
    decreases |ts|
  {
    hide Step, Fair;
    if ts != [] {
      FairTime(s, ts[0]);
      StepKeepsInv(s, ts[0]);
      StepWakes(s, ts[0]);
      WakesAreSpaced(Step(s, ts[0]), ts[1..]);
    }
  }

  /** Over a quiet stretch of T nanoseconds at most 9 + T / 10^8 reads are posted. */
  lemma {:induction false} QuietArmRate(s: State, ts: seq<Timed>)
    requires Inv(s) && FairRun(s, ts) && AllQuiet(ts)
    ensures var f := Run(s, ts); var elapsed := f.clock - s.clock;
      && elapsed >= 0
      && f.n.wakes - s.n.wakes <= 1 + elapsed / 100_000_000
      && f.n.armCount - s.n.armCount <= 9 + elapsed / 100_000_000
    decreases |ts|
  {
    hide Step, Fair, Quiet;
    QuietArmsAreBounded(s, ts);
    if ts != [] {
      FairTime(s, ts[0]);
      var s1, f := Step(s, ts[0]), Run(s, ts);
      StepKeepsInv(s, ts[0]);
      QuietStepSpendsSlack(s, ts[0]);
      if ts[0].event.TimerFires? {
        WakesAreSpaced(s1, ts[1..]);
        QuotientBound(f.n.wakes - s1.n.wakes, f.clock - s.clock);
      } else {
        QuietArmRate(s1, ts[1..]);
        QuotientMonotone(f.clock - s1.clock, f.clock - s.clock);
      }
    }
  }

  lemma QuotientBound(k: nat, t: nat)
    requires k * BACKOFF_NS <= t
    ensures k <= t / BACKOFF_NS
  {
  }

  lemma QuotientMonotone(a: nat, b: nat)
    requires a <= b
    ensures a / BACKOFF_NS <= b / BACKOFF_NS
  {
  }

  // ---- teardown ------------------------------------------------------------------------

  lemma StoppedStep(s: State, t: Timed)
    requires s.stopping && !s.running && Fair(s, t)
    ensures var f := Step(s, t); f.stopping && !f.running && f.n.armCount == s.n.armCount && f.books == s.books
  {
    hide Settle, Rearm;
  }

  /** Once teardown has begun no read is posted, nothing is delivered and receive never restarts. */
  lemma {:induction false} StoppingIsFinal(s: State, ts: seq<Timed>)
    requires s.stopping && !s.running && FairRun(s, ts)
    ensures var f := Run(s, ts);
      f.stopping && !f.running && f.n.armCount == s.n.armCount && f.books == s.books
    decreases |ts|
  {
    hide Step, Fair;
    if ts != [] {
      FairTime(s, ts[0]);
      StoppedStep(s, ts[0]);
      StoppingIsFinal(Step(s, ts[0]), ts[1..]);
    }
  }
}
