/**
 * The driver object that both halves of the datapath live in: setupDatapath, which may stop at any
 * of its steps, and the quiescing and releasing that must cope with wherever it stopped.
 */
module Driver {
  import opened Bytes
  import opened Packets
  import J = CancelJoin
  import Life = Teardown
  import R = RxRecords
  import T = TxSpec
  import X = RxSpec
  import Tx = TxPath
  import Rx = RxPath

  /** The fallible calls of setupDatapath, in order. */
  const STEPS := 13

  /** What the foreign side answers to call `k`; calls past the script succeed. */
  predicate Grants(answers: seq<bool>, k: nat)
  {
    k < |answers| ==> answers[k]
  }

  /** The calls of setupDatapath that have succeeded are the first `made`. */
  predicate StoppedAt(answers: seq<bool>, made: nat)
  {
    made <= STEPS && (forall k :: 0 <= k < made ==> Grants(answers, k)) && (made < STEPS ==> !Grants(answers, made))
  }

  function RxAfter(made: nat): X.Objects
  {
    X.Objects(made >= 1, made >= 5, made >= 3, made >= 10, true, true, true)
  }

  function TxAfter(made: nat): T.Objects
  {
    T.Objects(made >= 2, made >= 6, made >= 7, true, true)
  }

  /** The completions the two aborts deliver from inside themselves, if they do. */
  datatype Inside = Inside(rx: Option<RxLate>, tx: Option<TxLate>)

  datatype RxLate = RxLate(status: Status, actual: Length, script: seq<R.Answer>, grant: X.Grant)

  datatype TxLate = TxLate(status: Status, bytes: nat, returnOk: bool, rounds: seq<T.Round>)

  type Length = n: nat | n <= X.RX_BUFFER_LEN

  /** Delivered inside an abort or after it, a completion is the same step: only a pipe that is there is aborted. */
  function Aborts(s: Life.State, inside: Inside): Life.State
  {
    var t := if s.rx.o.pipeIn && inside.rx.Some? then s.(rx := LateRead(s.rx, inside.rx.value)) else s;
    if s.tx.o.pipeOut && inside.tx.Some? then t.(tx := LateWrite(t.tx, inside.tx.value)) else t
  }

  function LateRead(s: X.State, c: RxLate): X.State
  {
    X.Complete(s, c.status, c.actual, c.script, c.grant)
  }

  function LateWrite(s: T.State, c: TxLate): T.State
  {
    T.Done(s, c.status, c.bytes, c.returnOk, c.rounds)
  }

  class Driver {
    const tx: Tx.TxPath
    const rx: Rx.RxPath
    /** The countdown of finishStop. */
    const join: J.Join

    ghost predicate Valid()
      reads tx, rx, tx.txBytes, rx.rxBytes
    {
      tx.Valid() && rx.Valid() && (tx.txBytes != null ==> tx.txBytes != rx.rxBytes)
    }

    /** The value Teardown speaks of. */
    ghost function View(join: Option<J.State>): Life.State
      requires Valid()
      reads tx, rx, tx.txBytes, rx.rxBytes
    {
      Life.State(tx.View(), rx.View(), join)
    }

    /** `made` steps of the setup have succeeded, and nothing else has happened. */
    ghost predicate SetUpTo(made: nat)
      reads tx, rx, tx.txBytes, rx.rxBytes
    {
      && Valid()
      && tx.Objects() == TxAfter(made) && rx.Objects() == RxAfter(made)
      && (tx.txBytes != null <==> made >= 4)
      && T.Initial(tx.View()) && X.Initial(rx.View())
      && (tx.txDatapathReady <==> made == STEPS)
    }

    /** Start has created the packet pool and the four packet queues. */
    constructor (pool: Foreign, txSubmit: Foreign, txComplete: Foreign, rxSubmit: Foreign, rxComplete: Foreign)
      ensures SetUpTo(0)
    {
      tx := new Tx.TxPath(txSubmit, txComplete);
      rx := new Rx.RxPath(pool, rxSubmit, rxComplete);
      join := new J.Join();
    }

    method AcquirePipes(answers: seq<bool>) returns (ghost made: nat, ok: bool)
      requires SetUpTo(0)
      modifies tx`pipeOut, rx`pipeIn
      ensures SetUpTo(made) && made <= 2 && (ok <==> made == 2)
      ensures (forall k :: 0 <= k < made ==> Grants(answers, k)) && (!ok ==> !Grants(answers, made))
    {
      if !Grants(answers, 0) {
        return 0, false;
      }
      rx.pipeIn := new Foreign();
      if !Grants(answers, 1) {
        return 1, false;
      }
      tx.pipeOut := new Foreign();
      return 2, true;
    }

    method AllocateBuffers(answers: seq<bool>) returns (ghost made: nat, ok: bool)
      requires SetUpTo(2)
      modifies tx`txBytes, rx`rxBytes, rx`env
      ensures SetUpTo(made) && 2 <= made <= 4 && (ok <==> made == 4)
      ensures (forall k :: 2 <= k < made ==> Grants(answers, k)) && (!ok ==> !Grants(answers, made))
    {
      if !Grants(answers, 2) {
        return 2, false;
      }
      rx.rxBytes := new Byte[X.RX_BUFFER_LEN](_ => 0);
      rx.env := rx.env.(memory := rx.rxBytes[..]);
      if !Grants(answers, 3) {
        return 3, false;
      }
      tx.txBytes := new Byte[T.TX_BUFFER_LEN](_ => 0);
      return 4, true;
    }

    method CreateActions(answers: seq<bool>) returns (ghost made: nat, ok: bool)
      requires SetUpTo(4)
      modifies tx`txAction, rx`rxAction
      ensures SetUpTo(made) && 4 <= made <= 6 && (ok <==> made == 6)
      ensures (forall k :: 4 <= k < made ==> Grants(answers, k)) && (!ok ==> !Grants(answers, made))
    {
      if !Grants(answers, 4) {
        return 4, false;
      }
      rx.rxAction := new Foreign();
      if !Grants(answers, 5) {
        return 5, false;
      }
      tx.txAction := new Foreign();
      return 6, true;
    }

    /** The doorbell: its data queue, its action, and the handler set. */
    method HangDoorbell(answers: seq<bool>) returns (ghost made: nat, ok: bool)
      requires SetUpTo(6)
      modifies tx`txDataQueue
      ensures SetUpTo(made) && 6 <= made <= 9 && (ok <==> made == 9)
      ensures (forall k :: 6 <= k < made ==> Grants(answers, k)) && (!ok ==> !Grants(answers, made))
    {
      var queue := tx.txSubmit.Call(Grants(answers, 6));
      if !queue {
        return 6, false;
      }
      tx.txDataQueue := new Foreign();
      if !Grants(answers, 7) {
        return 7, false;
      }
      var handled := tx.txDataQueue.Call(Grants(answers, 8));
      if !handled {
        return 8, false;
      }
      return 9, true;
    }

    /** The idle timer and its action. */
    method CreateTimer(answers: seq<bool>) returns (ghost made: nat, ok: bool)
      requires SetUpTo(9)
      modifies rx`rxBackoffTimer
      ensures SetUpTo(made) && 9 <= made <= 11 && (ok <==> made == 11)
      ensures (forall k :: 9 <= k < made ==> Grants(answers, k)) && (!ok ==> !Grants(answers, made))
    {
      hide T.Initial;
      if !Grants(answers, 9) {
        return 9, false;
      }
      rx.rxBackoffTimer := new Foreign();
      if !Grants(answers, 10) {
        return 10, false;
      }
      return 11, true;
    }

    /** The timer gets its handler and is enabled; the transmit gate is the last thing to open. */
    method StartTimer(answers: seq<bool>) returns (ghost made: nat, ok: bool)
      requires SetUpTo(11)
      modifies tx`txDatapathReady
      ensures SetUpTo(made) && 11 <= made <= STEPS && (ok <==> made == STEPS)
      ensures (forall k :: 11 <= k < made ==> Grants(answers, k)) && (!ok ==> !Grants(answers, made))
    {
      hide X.Initial;
      var handled := rx.rxBackoffTimer.Call(Grants(answers, 11));
      if !handled {
        return 11, false;
      }
      var enabled := rx.rxBackoffTimer.Call(Grants(answers, 12));
      if !enabled {
        return 12, false;
      }
      tx.txDatapathReady := true;
      return STEPS, true;
    }

    method SetupDatapath(answers: seq<bool>) returns (ghost made: nat, ok: bool)
      requires SetUpTo(0)
      modifies tx, rx
      ensures SetUpTo(made) && StoppedAt(answers, made) && (ok <==> made == STEPS)
    {
      hide Grants, SetUpTo;
      made, ok := AcquirePipes(answers);
      if !ok {
        return;
      }
      made, ok := AllocateBuffers(answers);
      if !ok {
        return;
      }
      made, ok := CreateActions(answers);
      if !ok {
        return;
      }
      made, ok := HangDoorbell(answers);
      if !ok {
        return;
      }
      made, ok := CreateTimer(answers);
      if !ok {
        return;
      }
      made, ok := StartTimer(answers);
    }

    /**
     * quiesceDatapath: the gates close before the aborts, either of which may deliver its transfer's
     * completion while this method is still running.
     */
    method QuiesceDatapath(inside: Inside)
      requires Valid() && (rx.rxBytes != null ==> rx.pipeIn != null)
      modifies tx, rx, tx.txBytes
      ensures Valid() && View(None) == Aborts(Life.Quiesce(old(View(None))), inside)
      ensures tx.txBytes == old(tx.txBytes) && rx.rxBytes == old(rx.rxBytes)
    {
      hide X.Complete, T.Done;
      rx.Latch();
      tx.CloseGate();
      if rx.pipeIn != null && inside.rx.Some? {
        var c := inside.rx.value;
        var status := rx.pipeIn.Call(c.status);
        rx.RxComplete(status, c.actual, c.script, c.grant);
      }
      if tx.pipeOut != null && inside.tx.Some? {
        var c := inside.tx.value;
        var status := tx.pipeOut.Call(c.status);
        tx.TxComplete(status, c.bytes, c.returnOk, c.rounds);
      }
    }

    /** ReleaseResources: the datapath, then the queues, then the pool. */
    method ReleaseResources(reclaimOk: bool)
      requires Valid()
      modifies tx, rx
      ensures Valid() && forall join :: View(join) == Life.Release(old(View(join)), reclaimOk)
    {
      hide T.ReleaseDatapath;
      rx.ReleaseDatapath();
      tx.ReleaseDatapath(reclaimOk);
      tx.ReleaseQueues();
      rx.ReleaseQueuesAndPool();
    }

    /** Start's synchronous failure path, from wherever the setup stopped: nothing is left behind. */
    method FailStart(ghost made: nat)
      requires SetUpTo(made)
      modifies tx, rx, tx.txBytes
      ensures Valid() && Life.Released(View(None)) && !tx.txDatapathReady && rx.stopping
      ensures tx.n.lost == 0 && tx.log == old(tx.log)
    {
      hide Life.Quiesce, Life.Release, Life.Released, T.Initial, X.Initial;
      ghost var before := View(None);
      QuiesceDatapath(Inside(None, None));
      assert View(None) == Life.Quiesce(before);
      ReleaseResources(true);
      assert View(None) == Life.Release(Life.Quiesce(before), true);
      NothingToReclaim(before, true);
    }

    // ---- Stop: quiesce, join, release ----------------------------------------------------

    /** The whole driver, its countdown under way. */
    ghost function Joined(): Life.State
      requires Valid()
      reads tx, rx, tx.txBytes, rx.rxBytes, join
    {
      View(Some(join.View()))
    }

    /** The sources finishStop cancels, as their fields show them. */
    method Held(i: nat) returns (held: bool)
      requires Valid() && i < 4
      ensures held == Life.Sources(View(None))[i]
      ensures held == match i
        case 0 => rx.rxBackoffTimer != null
        case 1 => tx.txDataQueue != null
        case 2 => rx.rxAction != null
        case _ => tx.txAction != null
    {
      match i
      case 0 => held := rx.rxBackoffTimer != null;
      case 1 => held := tx.txDataQueue != null;
      case 2 => held := rx.rxAction != null;
      case _ => held := tx.txAction != null;
    }

    method HeldSources() returns (present: seq<bool>)
      requires Valid()
      ensures present == Life.Sources(View(None))
      ensures present == [rx.rxBackoffTimer != null, tx.txDataQueue != null, rx.rxAction != null, tx.txAction != null]
    {
      present := [rx.rxBackoffTimer != null, tx.txDataQueue != null, rx.rxAction != null, tx.txAction != null];
    }

    /** The block handed to every Cancel: the last one releases the resources and calls super. */
    method Finalize(reclaimOk: bool)
      requires Valid()
      modifies tx, rx, join
      ensures Valid() && join.View() == J.CountDown(old(join.View()))
      ensures var j := J.CountDown(old(join.View())); var s := old(View(None)).(join := Some(j));
        Joined() == if j.releases > old(join.releases) then Life.Release(s, reclaimOk) else s
    {
      hide Life.Release;
      var before := join.releases;
      join.Finalize();
      ghost var s := Joined();
      if join.releases > before {
        ReleaseResources(reclaimOk);
        assert Joined() == Life.Release(s, reclaimOk);
      }
    }

    /** finishStop up to the first Cancel. */
    method BeginCancelling(reclaimOk: bool) returns (cancelCount: nat)
      requires Valid()
      modifies tx, rx, join
      ensures join.next == if cancelCount == 0 then |join.sources| else 0
      ensures Valid() && Joined() == Life.Begun(old(View(None)), reclaimOk)
    {
      hide Life.Release, J.Count, Life.Sources;
      var present := HeldSources();
      cancelCount := join.Start(present);
      ghost var s := Joined();
      if cancelCount == 0 {
        ReleaseResources(reclaimOk);
        assert Joined() == Life.Release(s, reclaimOk);
      }
    }

    /** One Cancel, behind the null test of its own field; a refused one is completed inline. */
    method CancelNext(ok: bool, reclaimOk: bool)
      requires Valid() && Life.Inv(Joined()) && join.next < |join.sources| == 4
      modifies tx, rx, join
      ensures Valid() && Life.Inv(Joined()) && join.sources == old(join.sources) && join.next == old(join.next) + 1
      ensures Joined() == Life.Joins(old(Joined()), J.Issues(ok), reclaimOk)
    {
      hide Life.Release, Life.Inv, J.Inv;
      ghost var before := Joined();
      Life.SourcesAreAsCounted(before, join.next);
      Life.JoinStepKeepsInv(before, J.Issues(ok), reclaimOk);
      var i := join.next;
      var held := Held(i);
      join.next := i + 1;
      if held {
        if ok {
          join.live := join.live + {i};
        } else {
          Finalize(reclaimOk);
        }
      }
    }

    /**
     * finishStop: the sources are counted and cancelled in order. No handler runs meanwhile but those
     * of refused Cancels; whatever is then left to run ends with the one release.
     */
    method FinishStop(answers: seq<bool>, reclaimOk: bool)
      requires Valid() && Life.Inv(View(None)) && rx.stopping && |answers| == 4
      modifies tx, rx, join
      ensures Valid() && Life.Inv(Joined()) && join.next == |join.sources| == 4
      ensures Joined() == Life.Cancelled(old(View(None)), answers, reclaimOk)
      ensures join.releases == 1 <==> join.live == {}
    {
      hide Life.Inv, Life.Begun, Life.Joins, Life.Cancels, Life.Sources, Life.QueuesAlive, Life.Released;
      hide J.Inv, J.Count;
      Life.BegunKeepsInv(View(None), reclaimOk);
      var cancelCount := BeginCancelling(reclaimOk);
      if cancelCount != 0 {
        CancelInTurn(0, answers, reclaimOk);
        CancelInTurn(1, answers, reclaimOk);
        CancelInTurn(2, answers, reclaimOk);
        CancelInTurn(3, answers, reclaimOk);
      }
      assert answers[4..] == [];
      Life.NoCancels(Joined(), reclaimOk);
      Life.JoinInv(Joined());
      J.CompleteIsReleased(join.View());
    }

    /** Where the Cancels from the `k`-th on will have taken the driver. */
    ghost function AfterCancels(k: nat, answers: seq<bool>, reclaimOk: bool): Life.State
      requires Valid() && join.next == k <= |join.sources| == |answers| == 4
      reads tx, rx, tx.txBytes, rx.rxBytes, join
    {
      Life.Cancels(Joined(), answers[k..], reclaimOk)
    }

    /** The `k`-th Cancel of finishStop. */
    method CancelInTurn(k: nat, answers: seq<bool>, reclaimOk: bool)
      requires Valid() && Life.Inv(Joined()) && join.next == k < |join.sources| == |answers| == 4
      modifies tx, rx, join
      ensures Valid() && Life.Inv(Joined()) && join.next == k + 1 && |join.sources| == 4
      ensures AfterCancels(k + 1, answers, reclaimOk) == old(AfterCancels(k, answers, reclaimOk))
    {
      hide Life.Inv, Life.Joins, Life.Cancels;
      Life.NextCancel(Joined(), answers, k, reclaimOk);
      CancelNext(answers[k], reclaimOk);
    }

    /** Stop, and Start's registration failure: nothing is released here that a handler still needs. */
    method Stop(inside: Inside, answers: seq<bool>, reclaimOk: bool)
      requires Valid() && Life.Inv(View(None)) && |answers| == 4
      modifies tx, rx, tx.txBytes, join
      ensures Valid() && Life.Inv(Joined()) && join.next == |join.sources| == 4
      ensures Joined() == Life.Cancelled(Aborts(Life.Quiesce(old(View(None))), inside), answers, reclaimOk)
      // released at once if every Cancel was refused, and otherwise by the handler that runs last
      ensures join.live == {} ==> Life.Released(Joined()) && join.supers == 1
      ensures join.live != {} ==> Life.QueuesAlive(Joined()) && join.supers == 0
      ensures rx.stopping && !rx.rxRunning && !tx.txDatapathReady
    {
      hide Life.Inv, Life.Quiesce, Aborts, Life.Cancelled, Life.Released, Life.QueuesAlive;
      ghost var s := View(None);
      Life.BufferHasPipe(s);
      StoppedInv(s, inside);
      QuiesceDatapath(inside);
      FinishStop(answers, reclaimOk);
      Life.JoinInv(Joined());
    }

    /** A cancellation handler runs. */
    method HandlerRuns(i: nat, reclaimOk: bool)
      requires Valid() && Life.Inv(Joined()) && i in join.live
      modifies tx, rx, join
      ensures Valid() && Life.Inv(Joined())
      ensures Joined() == Life.Joins(old(Joined()), J.HandlerRuns(i), reclaimOk)
    {
      hide Life.Release, Life.Inv;
      Life.JoinStepKeepsInv(Joined(), J.HandlerRuns(i), reclaimOk);
      join.live := join.live - {i};
      Finalize(reclaimOk);
    }

    /**
     * Wherever the setup stopped, the driver is in a state from which every run is orderly: a buffer
     * a completion could find has its pipe, and the transmit gate is open only over a whole datapath.
     */
    lemma AnyPrefixIsSafe(made: nat)
      requires SetUpTo(made) && made <= STEPS
      ensures Life.Initial(View(None)) && Life.Inv(View(None))
      ensures rx.rxBytes != null ==> rx.pipeIn != null
      ensures tx.txDatapathReady ==>
        && tx.pipeOut != null && tx.txAction != null && tx.txBytes != null && tx.txDataQueue != null
        && X.Whole(rx.Objects())
    {
      hide T.Initial, X.Initial, Life.Inv;
      Life.InitialInv(View(None));
    }
  }

  /** Before any transfer the synchronous teardown has no packet to hand back. */
  lemma NothingToReclaim(s: Life.State, ok: bool)
    requires T.Initial(s.tx) && X.Initial(s.rx)
    ensures var f := Life.Release(Life.Quiesce(s), ok);
      Life.Released(f) && !f.tx.ready && f.rx.stopping && f.tx.n == s.tx.n == T.ZERO && f.tx.log == s.tx.log
  {
  }

  /** Quiescing, and the completions the aborts deliver, keep the whole driver's invariant. */
  lemma StoppedInv(s: Life.State, inside: Inside)
    requires Life.Inv(s) && s.join.None?
    ensures var t := Aborts(Life.Quiesce(s), inside); Life.Inv(t) && t.rx.stopping && t.join.None?
  {
    hide T.Inv, X.Inv, T.Step, X.Step;
    var q := Life.Quiesce(s);
    Life.QuiesceKeepsInv(s);
    var t := q;
    if q.rx.o.pipeIn && inside.rx.Some? {
      var c := inside.rx.value;
      var e := Life.At(q.rx.clock, Life.Rx(X.Completes(c.status, c.actual, c.script, c.grant)));
      LateReadIsAStep(q, c);
      Life.StepKeepsInv(q, e);
      t := Life.Step(q, e);
    }
    if q.tx.o.pipeOut && inside.tx.Some? {
      var c := inside.tx.value;
      var e := Life.At(t.rx.clock, Life.Tx(T.Completes(c.status, c.bytes, c.returnOk, c.rounds)));
      LateWriteIsAStep(t, c);
      Life.StepKeepsInv(t, e);
    }
  }

  /** A completion delivered inside an abort is the step of one delivered after it. */
  lemma LateReadIsAStep(s: Life.State, c: RxLate)
    ensures var e := Life.At(s.rx.clock, Life.Rx(X.Completes(c.status, c.actual, c.script, c.grant)));
      && Life.Legal(s, e) && Life.Step(s, e) == s.(rx := LateRead(s.rx, c))
      && Life.Step(s, e).rx.stopping == s.rx.stopping && Life.Step(s, e).rx.clock == s.rx.clock
  {
    hide X.Complete;
    assert s.rx.(clock := s.rx.clock) == s.rx;
    CompletionKeepsLatch(s.rx, c);
  }

  lemma CompletionKeepsLatch(s: X.State, c: RxLate)
    ensures var t := LateRead(s, c); t.stopping == s.stopping && t.clock == s.clock && t.o == s.o
  {
    hide X.Settle, X.Rearm;
  }

  lemma LateWriteIsAStep(s: Life.State, c: TxLate)
    ensures var e := Life.At(s.rx.clock, Life.Tx(T.Completes(c.status, c.bytes, c.returnOk, c.rounds)));
      Life.Legal(s, e) && Life.Step(s, e) == s.(tx := LateWrite(s.tx, c))
  {
    hide T.Done;
  }
}
