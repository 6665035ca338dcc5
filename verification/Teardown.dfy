/**
 * The whole driver over its life: both halves of the datapath, Stop, the cancel-countdown join and
 * the release, with every callback free to arrive at any point -- inside the aborts, between two
 * Cancel calls, or after everything has been released.
 */
module Teardown {
  import opened Bytes
  import opened Packets
  import J = CancelJoin
  import R = RxRecords
  import T = TxSpec
  import X = RxSpec

  datatype State = State(tx: T.State, rx: X.State, join: Option<J.State>)

  /** The four sources finishStop counts, in its order. */
  function Sources(s: State): (present: seq<bool>)
    ensures |present| == 4
  {
    [s.rx.o.timer, s.tx.o.dataQueue, s.rx.o.action, s.tx.o.action]
  }

  datatype Event =
    | Tx(tx: T.Event)
    | Rx(rx: X.Event)
    // Stop, and Start's registration failure: quiesceDatapath, then finishStop
    | Quiesces
    | BeginsCancelling(reclaimOk: bool)
    | JoinMoves(join: J.Event, releaseReclaimOk: bool)

  datatype Timed = At(time: nat, event: Event)

  /** quiesceDatapath's gates; what the aborts deliver follows as events. */
  function Quiesce(s: State): State
  {
    s.(tx := T.Quiesce(s.tx), rx := X.Quiesce(s.rx))
  }

  /** ReleaseResources. */
  function Release(s: State, reclaimOk: bool): State
  {
    s.(tx := T.Release(s.tx, reclaimOk), rx := X.Release(s.rx))
  }

  /**
   * Callbacks and control calls come in any order. The family enables only a registered interface,
   * Stop comes once, finishStop follows quiesceDatapath, and time does not run back.
   */
  predicate Legal(s: State, t: Timed)
  {
    && s.rx.clock <= t.time
    && match t.event
       case Tx(e) => !e.Quiesces? && !e.Releases?
       case Rx(e) => !e.Quiesces? && !e.Releases? && X.Fair(s.rx, X.At(t.time, e))
       case Quiesces => s.join.None?
       case BeginsCancelling(_) => s.rx.stopping && s.join.None?
       case JoinMoves(e, _) => s.join.Some? && J.Legal(s.join.value, e)
  }

  /** finishStop up to its first Cancel. */
  function Begun(s: State, reclaimOk: bool): (t: State)
    ensures t.join.Some? && t.join.value.present == Sources(s) && t.join.value.next <= |Sources(s)|
  {
    var j := J.Begin(Sources(s));
    var u := s.(join := Some(j));
    if j.releases > 0 then Release(u, reclaimOk) else u
  }

  /** A Cancel or a handler; the one that ends the countdown releases everything. */
  function Joins(s: State, e: J.Event, reclaimOk: bool): (t: State)
    requires s.join.Some? && J.Legal(s.join.value, e)
    ensures t.join.Some? && t.join.value.present == s.join.value.present
    ensures t.join.value.next == s.join.value.next + if e.Issues? then 1 else 0
  {
    var j := J.Step(s.join.value, e);
    var u := s.(join := Some(j));
    if j.releases > s.join.value.releases then Release(u, reclaimOk) else u
  }

  /** The Cancels of finishStop, in order, with these answers and nothing in between. */
  function Cancels(s: State, answers: seq<bool>, reclaimOk: bool): State
    requires s.join.Some? && s.join.value.next + |answers| <= |s.join.value.present|
    decreases |answers|
  {
    if answers == [] then s else Cancels(Joins(s, J.Issues(answers[0]), reclaimOk), answers[1..], reclaimOk)
  }

  lemma NoCancels(s: State, reclaimOk: bool)
    requires s.join.Some? && s.join.value.next <= |s.join.value.present|
    ensures Cancels(s, [], reclaimOk) == s
  {
  }

  lemma NextCancel(s: State, answers: seq<bool>, k: nat, reclaimOk: bool)
    requires s.join.Some? && s.join.value.next == k < |answers| == |s.join.value.present|
    ensures var t := Joins(s, J.Issues(answers[k]), reclaimOk);
      Cancels(s, answers[k..], reclaimOk) == Cancels(t, answers[k + 1..], reclaimOk)
  {
    hide Joins;
    assert answers[k..][1..] == answers[k + 1..];
  }

  /** finishStop: with nothing to cancel it is over at once. */
  function Cancelled(s: State, answers: seq<bool>, reclaimOk: bool): State
    requires |answers| == 4
  {
    var b := Begun(s, reclaimOk);
    Cancels(b, answers[b.join.value.next..], reclaimOk)
  }

  function Step(s: State, t: Timed): State
    requires Legal(s, t)
  {
    match t.event
    case Tx(e) =>
      s.(tx := T.Step(s.tx, e))
    case Rx(e) =>
      // setInterfaceEnable(true) refuses before it touches anything once teardown has begun
      if e.Enables? && s.rx.stopping then s else s.(rx := X.Step(s.rx, X.At(t.time, e)))
    case Quiesces =>
      Quiesce(s)
    case BeginsCancelling(ok) => Begun(s, ok)
    case JoinMoves(e, ok) => Joins(s, e, ok)
  }

  predicate LegalRun(s: State, ts: seq<Timed>)
    decreases |ts|
  {
    ts != [] ==> Legal(s, ts[0]) && LegalRun(Step(s, ts[0]), ts[1..])
  }

  function Run(s: State, ts: seq<Timed>): State
    requires LegalRun(s, ts)
    decreases |ts|
  {
    if ts == [] then s else Run(Step(s, ts[0]), ts[1..])
  }

  /** Nothing is held any more, and nothing is in flight on the driver's books. */
  predicate Released(s: State)
  {
    && s.tx.o == T.Objects(false, false, false, false, false) && s.tx.scratch.None?
    && s.rx.o == X.Objects(false, false, false, false, false, false, false)
    && !s.tx.inFlight && s.tx.packet.None? && !s.rx.armed && s.rx.timer.None?
  }

  /** The two packet queues of the transmit path are there until the release. */
  predicate QueuesAlive(s: State)
  {
    s.tx.o.submitQueue && s.tx.o.completeQueue
  }

  predicate Inv(s: State)
  {
    && T.Inv(s.tx) && X.Inv(s.rx)
    && (s.rx.stopping ==> !s.tx.ready)
    && match s.join
       case None => QueuesAlive(s)
       case Some(j) =>
         && s.rx.stopping && J.Inv(j)
         // the sources counted are the sources still held, until the one release
         && (j.releases == 0 ==> Sources(s) == j.present && QueuesAlive(s))
         && (j.releases == 1 ==> Released(s))
  }

  /** Callbacks neither acquire nor drop an object. */
  lemma TxKeepsObjects(s: T.State, e: T.Event)
    requires !e.Quiesces? && !e.Releases?
    ensures T.SameGear(s, T.Step(s, e))
    ensures s.packet.None? && !s.inFlight && !s.ready ==> T.Step(s, e).packet.None? && !T.Step(s, e).inFlight
  {
    hide T.DrainLoop;
  }

  lemma RxKeepsObjects(s: X.State, t: X.Timed)
    requires X.Fair(s, t) && !t.event.Quiesces? && !t.event.Releases?
    ensures X.Step(s, t).o == s.o && X.Step(s, t).stopping == s.stopping
    ensures s.stopping && !s.running ==>
      var f := X.Step(s, t); (!s.armed ==> !f.armed) && (s.timer.None? ==> f.timer.None?)
  {
    hide X.Complete;
    if t.event.Completes? {
      CompletionKeepsObjects(s.(clock := t.time), t.event.status, t.event.actual, t.event.script, t.event.grant);
    }
  }

  lemma CompletionKeepsObjects(s: X.State, status: Status, actual: nat, script: seq<R.Answer>, g: X.Grant)
    requires actual <= X.RX_BUFFER_LEN
    ensures var f := X.Complete(s, status, actual, script, g);
      f.o == s.o && f.stopping == s.stopping && (!s.running ==> !f.armed && f.timer == s.timer)
  {
    hide X.Settle, X.Rearm;
  }

  lemma ReleaseKeepsInv(s: State, ok: bool)
    requires T.Inv(s.tx) && X.Inv(s.rx) && s.rx.stopping && !s.tx.ready
    ensures var f := Release(s, ok);
      T.Inv(f.tx) && X.Inv(f.rx) && f.rx.stopping && !f.tx.ready && Released(f) && f.join == s.join
  {
    hide T.Inv, T.Return;
    T.StepKeepsInv(s.tx, T.Releases(ok));
    X.StepKeepsInv(s.rx, X.At(s.rx.clock, X.Releases));
    TxReleased(s.tx, ok);
  }

  lemma TxReleased(s: T.State, ok: bool)
    ensures var f := T.Release(s, ok);
      && f.o == T.Objects(false, false, false, false, false) && f.scratch.None? && !f.inFlight && f.packet.None?
      && f.ready == s.ready
  {
  }

  lemma StepKeepsInv(s: State, t: Timed)
    requires Inv(s) && Legal(s, t)
    ensures Inv(Step(s, t))
  {
    hide T.Inv, X.Inv, J.Inv, T.Step, X.Step, J.Step, Release, J.Begin, X.Fair, J.Legal;
    match t.event
    case Tx(e) =>
      TxOrdered(s.tx, e);
      T.StepKeepsInv(s.tx, e);
      TxKeepsObjects(s.tx, e);
    case Rx(e) =>
      X.StepKeepsInv(s.rx, X.At(t.time, e));
      RxKeepsObjects(s.rx, X.At(t.time, e));
      if s.rx.stopping {
        StoppingMeansNotRunning(s.rx);
      }
    case Quiesces =>
      QuiesceKeepsInv(s);
    case BeginsCancelling(ok) =>
      BegunKeepsInv(s, ok);
    case JoinMoves(e, ok) =>
      JoinStepKeepsInv(s, e, ok);
  }

  lemma TxOrdered(s: T.State, e: T.Event)
    requires !e.Releases?
    ensures T.Ordered(s, e)
  {
  }

  lemma StoppingMeansNotRunning(s: X.State)
    requires X.Inv(s) && s.stopping
    ensures !s.running
  {
  }

  lemma QuiesceKeepsInv(s: State)
    requires Inv(s) && s.join.None?
    ensures Inv(Quiesce(s))
  {
    hide T.Carries, T.CarriesPacket, T.Ledger;
  }

  lemma BegunKeepsInv(s: State, ok: bool)
    requires Inv(s) && s.rx.stopping && s.join.None?
    ensures Inv(Begun(s, ok))
  {
    hide T.Inv, X.Inv, J.Inv, Release, Released;
    J.BeginInv(Sources(s));
    var j := J.Begin(Sources(s));
    ReleaseKeepsInv(s.(join := Some(j)), ok);
  }

  lemma JoinStepKeepsInv(s: State, e: J.Event, ok: bool)
    requires Inv(s) && s.join.Some? && J.Legal(s.join.value, e)
    ensures Inv(Joins(s, e, ok))
  {
    hide T.Inv, X.Inv, J.Step, Release, J.Legal;
    J.StepKeepsInv(s.join.value, e);
    var j := J.Step(s.join.value, e);
    ReleaseKeepsInv(s.(join := Some(j)), ok);
  }

  lemma JoinInv(s: State)
    requires Inv(s) && s.join.Some?
    ensures J.Inv(s.join.value) && s.rx.stopping && !s.tx.ready && !s.rx.running
    ensures s.join.value.releases == s.join.value.supers <= 1
    ensures s.join.value.releases == 1 ==> Released(s)
    ensures s.join.value.releases == 0 ==> QueuesAlive(s)
  {
    hide T.Inv, J.Inv, Released;
    J.InvFacts(s.join.value);
  }

  lemma BufferHasPipe(s: State)
    requires Inv(s)
    ensures s.rx.o.bytes ==> s.rx.o.pipeIn
  {
    hide T.Inv;
  }

  /** The null test at a Cancel: the field is null unless it was counted and nothing has been released. */
  lemma SourcesAreAsCounted(s: State, i: nat)
    requires Inv(s) && s.join.Some? && i < |s.join.value.present| == 4
    ensures Sources(s)[i] <==> J.NonNull(s.join.value, i)
  {
    hide T.Inv, X.Inv;
  }

  /** Any subset of setupDatapath's acquisitions, with the packet queues Start created before it. */
  predicate Initial(s: State)
  {
    T.Initial(s.tx) && X.Initial(s.rx) && s.join.None? && QueuesAlive(s)
  }

  /**
   * Over every interleaving: objects are released once, by the last of the counted cancellations,
   * and until then every source the join counted is still there for its Cancel.
   */
  lemma {:induction false} TeardownIsOrderly(s: State, ts: seq<Timed>)
    requires Inv(s) && LegalRun(s, ts)
    ensures var f := Run(s, ts);
      && Inv(f)
      && (f.join.Some? ==> f.join.value.releases == f.join.value.supers <= 1)
      && (f.join.Some? && J.Complete(f.join.value) ==> Released(f) && f.join.value.supers == 1)
      // a stalled completion that finds the buffer finds the pipe to clear
      && (f.rx.o.bytes ==> f.rx.o.pipeIn)
      // running means nothing a completion dereferences is missing
      && (f.rx.running ==> X.Whole(f.rx.o) && !f.rx.stopping)
    decreases |ts|
  {
    hide Step, T.Inv, Legal;
    if ts != [] {
      StepKeepsInv(s, ts[0]);
      TeardownIsOrderly(Step(s, ts[0]), ts[1..]);
    } else if s.join.Some? && J.Complete(s.join.value) {
      J.JoinsExactlyOnce(s.join.value, []);
    }
  }

  /** The moves of the join among the events of a run. */
  function JoinEvents(ts: seq<Timed>): seq<J.Event>
  {
    if ts == [] then []
    else (if ts[0].event.JoinMoves? then [ts[0].event.join] else []) + JoinEvents(ts[1..])
  }

  lemma {:induction false} JoinFollows(s: State, ts: seq<Timed>)
    requires s.join.Some? && LegalRun(s, ts)
    ensures var es := JoinEvents(ts);
      J.LegalRun(s.join.value, es) && Run(s, ts).join == Some(J.Run(s.join.value, es))
    decreases |ts|
  {
    hide J.Step, J.Legal, T.Step, X.Step, X.Fair, Release, Begun;
    if ts != [] {
      StepMovesJoin(s, ts[0]);
      JoinFollows(Step(s, ts[0]), ts[1..]);
      if ts[0].event.JoinMoves? {
        assert JoinEvents(ts)[1..] == JoinEvents(ts[1..]);
      } else {
        assert JoinEvents(ts) == JoinEvents(ts[1..]);
      }
    }
  }

  lemma StepMovesJoin(s: State, t: Timed)
    requires s.join.Some? && Legal(s, t)
    ensures t.event.JoinMoves? ==> Step(s, t).join == Some(J.Step(s.join.value, t.event.join))
    ensures !t.event.JoinMoves? ==> Step(s, t).join == s.join
  {
    hide J.Step, T.Step, X.Step, X.Fair;
  }

  /**
   * Over every run of the whole driver: when the release comes, the idle timer, the doorbell's queue
   * and each of the two completion actions that was held when finishStop began has had a Cancel of its
   * own, in that order, and that cancellation has completed.
   */
  lemma EverythingHeldIsCancelled(s: State, start: Timed, ts: seq<Timed>)
    requires Inv(s) && start.event.BeginsCancelling? && Legal(s, start) && LegalRun(Step(s, start), ts)
    requires Run(Step(s, start), ts).join.Some? && Run(Step(s, start), ts).join.value.releases == 1
    ensures var es := JoinEvents(ts);
      && (s.rx.o.timer ==> J.CancelledIn(es, 0, 0))
      && (s.tx.o.dataQueue ==> J.CancelledIn(es, 0, 1))
      && (s.rx.o.action ==> J.CancelledIn(es, 0, 2))
      && (s.tx.o.action ==> J.CancelledIn(es, 0, 3))
  {
    hide Run, LegalRun, Inv, J.Inv, J.Step, J.CancelledIn, J.Count, Release, JoinEvents;
    var b := Step(s, start);
    BegunKeepsInv(s, start.event.reclaimOk);
    JoinInv(b);
    JoinFollows(b, ts);
    var sources := [s.rx.o.timer, s.tx.o.dataQueue, s.rx.o.action, s.tx.o.action];
    assert Sources(s) == sources;
    forall i | 0 <= i < 4 && sources[i] ensures J.CancelledIn(JoinEvents(ts), 0, i) {
      J.CountAtLeastOne(sources, i);
      J.EverySourceIsCancelled(b.join.value, JoinEvents(ts), i);
    }
  }

  lemma InitialInv(s: State)
    requires Initial(s)
    ensures Inv(s)
  {
    hide T.Inv, X.Inv, T.Initial, X.Initial;
    T.InitialInv(s.tx);
    X.InitialInv(s.rx);
    InitialNotStopping(s.rx);
  }

  lemma InitialNotStopping(s: X.State)
    requires X.Initial(s)
    ensures !s.stopping
  {
  }

  /** What must not move once teardown has latched. */
  predicate SameWork(s: State, f: State)
  {
    && f.tx.log.taken == s.tx.log.taken && f.tx.log.wire == s.tx.log.wire
    && f.rx.n.armCount == s.rx.n.armCount && f.rx.books == s.rx.books
  }

  lemma {:induction false} TxSingle(s: T.State, e: T.Event)
    requires !s.ready
    ensures var f := T.Step(s, e); !f.ready && f.log.taken == s.log.taken && f.log.wire == s.log.wire
  {
    hide T.Step;
    T.ClosedGateTakesNothing(s, [e]);
    assert [e][1..] == [];
  }

  lemma StepDoesNoWork(s: State, t: Timed)
    requires Inv(s) && s.rx.stopping && Legal(s, t)
    ensures SameWork(s, Step(s, t)) && Step(s, t).rx.stopping
  {
    hide T.Inv, T.Step, X.Step, J.Step, J.Begin, X.Fair, J.Legal, J.Inv, Released, Sources, T.Return;
    match t.event
    case Tx(e) =>
      TxSingle(s.tx, e);
    case Rx(e) =>
      StoppingMeansNotRunning(s.rx);
      X.StoppedStep(s.rx, X.At(t.time, e));
    case _ =>
  }

  /** Once teardown has latched no run takes or sends a packet, posts a read or delivers a frame. */
  lemma {:induction false} LatchedDoesNoWork(s: State, ts: seq<Timed>)
    requires Inv(s) && s.rx.stopping && LegalRun(s, ts)
    ensures var f := Run(s, ts); SameWork(s, f) && f.rx.stopping && !f.rx.running && !f.tx.ready
    decreases |ts|
  {
    hide Step, Legal, T.Inv;
    if ts != [] {
      StepKeepsInv(s, ts[0]);
      StepDoesNoWork(s, ts[0]);
      LatchedDoesNoWork(Step(s, ts[0]), ts[1..]);
    }
  }

  /** The release reclaims the packet in flight while the stack can still take it back. */
  lemma ReleaseReclaimsWhileQueuesLive(s: State, t: Timed)
    requires Inv(s) && Legal(s, t) && t.event.JoinMoves? && t.event.releaseReclaimOk
    requires s.join.value.releases == 0 && Step(s, t).join.value.releases == 1
    ensures var f := Step(s, t);
      && T.DisposedPackets(f.tx.log.disposed) == T.TakenPackets(f.tx.log.taken)
      && f.tx.n.lost == s.tx.n.lost && f.tx.n.dequeued == f.tx.n.returned + f.tx.n.lost
  {
    hide T.Inv, T.Release, J.Step, J.Inv, J.Legal, T.DisposedPackets, T.TakenPackets;
    T.ReleaseReclaims(s.tx, true);
  }

  /** ReleaseResources is idempotent from any state, however little of it was populated. */
  lemma ReleaseIsIdempotent(s: State, ok: bool, again: bool)
    ensures Release(Release(s, ok), again) == Release(s, ok)
  {
  }
}
