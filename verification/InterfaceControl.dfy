/**
 * setInterfaceEnable over any number of packet queues: the enable loop and its unwind, the order of
 * the disable, and what the family is told, with the receive path as the resource that is started.
 */
module InterfaceControl {
  import X = RxSpec
  import RX = RxPath

  datatype State = State(present: seq<bool>, enabled: seq<bool>, familyUp: bool, rx: X.State)

  /**
   * The environment's answers to one call: super::setInterfaceEnable, each queue, the link report,
   * AsyncIO, and super::setInterfaceEnable(false) in the unwind.
   */
  datatype Answers = Answers(superOk: bool, grants: seq<bool>, linkOk: bool, armOk: bool, unwindOk: bool)

  predicate Shaped(s: State)
  {
    |s.enabled| == |s.present|
  }

  /** A queue refuses to be enabled twice, and may refuse for reasons of its own. */
  predicate Refuses(present: seq<bool>, enabled: seq<bool>, grants: seq<bool>, i: nat)
    requires i < |present| == |enabled|
  {
    present[i] && (enabled[i] || i >= |grants| || !grants[i])
  }

  /** The first queue from `i` on that refuses, or the number of queues. */
  function FirstRefusal(present: seq<bool>, enabled: seq<bool>, grants: seq<bool>, i: nat): (k: nat)
    requires i <= |present| == |enabled|
    ensures i <= k <= |present|
    ensures k < |present| ==> Refuses(present, enabled, grants, k)
    ensures forall j :: i <= j < k ==> !Refuses(present, enabled, grants, j)
    decreases |present| - i
  {
    if i == |present| || Refuses(present, enabled, grants, i) then i
    else FirstRefusal(present, enabled, grants, i + 1)
  }

  /** The first `k` queues that are there are set to `on`. */
  function SetFirst(present: seq<bool>, enabled: seq<bool>, k: nat, on: bool): (e: seq<bool>)
    requires k <= |present| == |enabled|
    ensures |e| == |enabled|
    ensures forall i :: 0 <= i < |e| ==> e[i] == if i < k && present[i] then on else enabled[i]
  {
    seq(|enabled|, i requires 0 <= i < |enabled| => if i < k && present[i] then on else enabled[i])
  }

  /** The unwind: the queues enabled by this call go off, and the family is told. */
  function Unwind(s: State, k: nat, a: Answers): State
    requires Shaped(s) && k <= |s.present|
  {
    s.(enabled := SetFirst(s.present, s.enabled, k, false), familyUp := !a.unwindOk)
  }

  /** setInterfaceEnable(true). */
  function Enable(s: State, a: Answers): (State, bool)
    requires Shaped(s)
  {
    if s.rx.stopping then
      (s, false)
    else if !a.superOk then
      (s, false)
    else
      var n := |s.present|;
      var k := FirstRefusal(s.present, s.enabled, a.grants, 0);
      var t := s.(familyUp := true, enabled := SetFirst(s.present, s.enabled, k, true));
      if k < n then
        (Unwind(t, k, a), false)
      else if !a.linkOk then
        (Unwind(t, n, a), false)
      else
        var (rx, r) := X.StartReceiving(t.rx, a.armOk);
        if r != X.Armed then (Unwind(t.(rx := rx), n, a), false) else (t.(rx := rx), true)
  }

  /** setInterfaceEnable(false). */
  function Disable(s: State, a: Answers): (State, bool)
    requires Shaped(s)
  {
    if !a.superOk then
      (s, false)
    else
      (s.(familyUp := false, rx := X.StopReceiving(s.rx),
          enabled := SetFirst(s.present, s.enabled, |s.present|, false)), true)
  }

  predicate AllQueues(s: State, on: bool)
    requires Shaped(s)
  {
    forall i :: 0 <= i < |s.present| && s.present[i] ==> s.enabled[i] == on
  }

  /** Every queue is enabled and receive runs. */
  predicate On(s: State)
    requires Shaped(s)
  {
    AllQueues(s, true) && s.rx.running
  }

  /** No queue is enabled and receive does not run. */
  predicate Off(s: State)
    requires Shaped(s)
  {
    AllQueues(s, false) && !s.rx.running
  }

  datatype Event =
    | Control(enable: bool, answers: Answers)
    // a callback of the receive path
    | Receive(t: X.Timed)
    // Stop's quiesceDatapath, and the release that ends the teardown
    | Latches
    | Releases

  predicate IsCallback(e: X.Event)
  {
    e.Writes? || e.Completes? || e.TimerFires?
  }

  /**
   * Calls and callbacks come in any order, before Stop and after it; the release follows Stop, and
   * the family calls only an interface that was registered over a whole receive path.
   */
  predicate Legal(s: State, e: Event)
  {
    match e
    case Control(_, _) => !s.rx.stopping ==> X.Whole(s.rx.o)
    case Receive(t) => X.Fair(s.rx, t) && IsCallback(t.event)
    case Latches => true
    case Releases => s.rx.stopping
  }

  function Step(s: State, e: Event): (t: State)
    requires Shaped(s) && Legal(s, e)
    ensures Shaped(t)
  {
    match e
    case Control(true, a) => Enable(s, a).0
    case Control(false, a) => Disable(s, a).0
    case Receive(t) => s.(rx := X.Step(s.rx, t))
    case Latches => s.(rx := X.Quiesce(s.rx))
    case Releases => s.(present := seq(|s.present|, _ => false), rx := X.Release(s.rx))
  }

  predicate LegalRun(s: State, es: seq<Event>)
    requires Shaped(s)
    decreases |es|
  {
    es != [] ==> Legal(s, es[0]) && LegalRun(Step(s, es[0]), es[1..])
  }

  function Run(s: State, es: seq<Event>): (f: State)
    requires Shaped(s) && LegalRun(s, es)
    ensures Shaped(f)
    decreases |es|
  {
    if es == [] then s else Run(Step(s, es[0]), es[1..])
  }

  /** Callbacks start and stop nothing. */
  lemma CallbacksKeepRunning(s: X.State, t: X.Timed)
    requires X.Fair(s, t) && IsCallback(t.event)
    ensures var f := X.Step(s, t); f.running == s.running && f.stopping == s.stopping && f.o == s.o
  {
    hide X.Settle, X.Rearm;
  }

  /** Everything armRxRead asks for. */
  predicate CanArm(s: X.State)
  {
    s.o.pipeIn && s.o.action && s.o.bytes
  }

  lemma StartReceivingStarts(s: X.State, armOk: bool)
    ensures var (f, r) := X.StartReceiving(s, armOk);
      f.running == r.Armed? && f.stopping == s.stopping && f.o == s.o
    ensures X.StartReceiving(s, armOk).1.Armed? <==> !s.stopping && CanArm(s) && (s.armed || armOk)
  {
  }

  /** Teardown has not begun, and neither super, nor a queue, nor the link report nor AsyncIO refuses. */
  predicate Granted(s: State, a: Answers)
    requires Shaped(s)
  {
    && !s.rx.stopping && a.superOk && a.linkOk && CanArm(s.rx) && (s.rx.armed || a.armOk)
    && forall i :: 0 <= i < |s.present| && s.present[i] ==> i < |a.grants| && a.grants[i]
  }

  /** The first queue that is there refuses, so nothing is enabled and nothing is unwound. */
  lemma EnabledQueuesAreInTheWay(s: State, a: Answers)
    requires Shaped(s) && AllQueues(s, true)
    ensures var k := FirstRefusal(s.present, s.enabled, a.grants, 0);
      SetFirst(s.present, SetFirst(s.present, s.enabled, k, true), k, false) == s.enabled
  {
    var k := FirstRefusal(s.present, s.enabled, a.grants, 0);
    forall j | 0 <= j < k ensures !s.present[j] {
      assert !Refuses(s.present, s.enabled, a.grants, j);
    }
  }

  /**
   * One enable, wherever a failure hits, ends with everything on or everything off; and one of an
   * interface that was off succeeds exactly when nobody refuses, so no queue is ever in the way.
   */
  lemma EnableIsAllOrNothing(s: State, a: Answers)
    requires Shaped(s) && (On(s) || Off(s))
    ensures var (t, ok) := Enable(s, a);
      && (On(t) || Off(t)) && t.present == s.present && t.rx.stopping == s.rx.stopping && t.rx.o == s.rx.o
      && (ok ==> On(t))
      && (Off(s) && !ok ==> Off(t))
      && (Off(s) && ok ==> t.familyUp)
      && (Off(s) ==> (ok <==> Granted(s, a)))
  {
    hide X.StartReceiving;
    StartReceivingStarts(s.rx, a.armOk);
    var k := FirstRefusal(s.present, s.enabled, a.grants, 0);
    if AllQueues(s, true) {
      EnabledQueuesAreInTheWay(s, a);
    }
    if Off(s) && k == |s.present| {
      forall i | 0 <= i < |s.present| && s.present[i] ensures i < |a.grants| && a.grants[i] {
        assert !Refuses(s.present, s.enabled, a.grants, i);
      }
    }
  }

  lemma StepIsAllOrNothing(s: State, e: Event)
    requires Shaped(s) && (s.rx.stopping || On(s) || Off(s)) && Legal(s, e)
    ensures var t := Step(s, e);
      && (t.rx.stopping || On(t) || Off(t))
      && (t.rx.stopping <==> s.rx.stopping || e.Latches?)
  {
    hide Enable, X.Step, X.Fair, On, Off;
    match e
    case Control(true, a) =>
      if s.rx.stopping {
        StoppedEnableIsRefused(s, a);
      } else {
        EnableIsAllOrNothing(s, a);
      }
    case Control(false, a) =>
      DisableIsOff(s, a);
    case Receive(t) =>
      CallbacksKeepRunning(s.rx, t);
      OnOffOf(s, Step(s, e));
    case _ =>
  }

  lemma StoppedEnableIsRefused(s: State, a: Answers)
    requires Shaped(s) && s.rx.stopping
    ensures Enable(s, a) == (s, false)
  {
  }

  lemma DisableIsOff(s: State, a: Answers)
    requires Shaped(s)
    ensures var (t, ok) := Disable(s, a);
      ok == a.superOk && t.rx.stopping == s.rx.stopping && if ok then Off(t) && !t.familyUp else t == s
  {
  }

  lemma OnOffOf(s: State, t: State)
    requires Shaped(s) && t.present == s.present && t.enabled == s.enabled && t.rx.running == s.rx.running
    ensures (On(t) <==> On(s)) && (Off(t) <==> Off(s))
  {
  }

  /**
   * After every call, wherever a failure hits and whatever callbacks come between: all queues are
   * enabled and receive runs, or none is and it does not -- until Stop latches the teardown. The
   * calls need not alternate.
   */
  lemma {:induction false} AllOrNothing(s: State, es: seq<Event>)
    requires Shaped(s) && (s.rx.stopping || On(s) || Off(s)) && LegalRun(s, es)
    ensures var f := Run(s, es);
      && (f.rx.stopping || On(f) || Off(f))
      && (f.rx.stopping <==> s.rx.stopping || Latches in es)
    decreases |es|
  {
    hide Step, Legal, On, Off;
    if es != [] {
      StepIsAllOrNothing(s, es[0]);
      AllOrNothing(Step(s, es[0]), es[1..]);
      assert Latches in es <==> es[0].Latches? || Latches in es[1..];
    }
  }

  // ---- after Stop ----------------------------------------------------------------------

  /** No queue is on that was not. */
  predicate NoneMore(s: State, t: State)
  {
    |t.enabled| == |s.enabled| && forall i :: 0 <= i < |t.enabled| && t.enabled[i] ==> s.enabled[i]
  }

  /** What turns the queues off once Stop has latched: a disable that super accepts, or the release. */
  predicate TurnsOff(e: Event)
  {
    e.Releases? || (e.Control? && !e.enable && e.answers.superOk)
  }

  lemma StoppedStep(s: State, e: Event)
    requires Shaped(s) && Legal(s, e) && s.rx.stopping && !s.rx.running
    ensures var t := Step(s, e);
      && t.rx.stopping && !t.rx.running && NoneMore(s, t)
      && t.rx.n.armCount == s.rx.n.armCount && t.rx.books == s.rx.books
      && (e.Control? && e.enable ==> t == s)
      && (!TurnsOff(e) ==> t.present == s.present && t.enabled == s.enabled)
      && (Off(t) <==> Off(s) || TurnsOff(e))
  {
    hide Enable, Disable, X.Step, X.Fair;
    match e
    case Control(true, a) =>
      StoppedEnableIsRefused(s, a);
    case Control(false, a) =>
      DisableIsOff(s, a);
      DisableTurnsNothingOn(s, a);
    case Receive(t) =>
      X.StoppedStep(s.rx, t);
    case _ =>
  }

  lemma DisableTurnsNothingOn(s: State, a: Answers)
    requires Shaped(s)
    ensures var t := Disable(s, a).0;
      && NoneMore(s, t) && t.rx.n == s.rx.n && t.rx.books == s.rx.books
      && (!s.rx.running ==> !t.rx.running)
  {
  }

  predicate AnyTurnsOff(es: seq<Event>)
  {
    exists e :: e in es && TurnsOff(e)
  }

  /**
   * Once Stop has latched: every enable is refused before anything is touched, no queue goes on and
   * no read is posted; and an interface is off at the end exactly if it was off, or super accepted a
   * disable, or the resources were released.
   */
  lemma {:induction false} NothingStartsAfterStop(s: State, es: seq<Event>)
    requires Shaped(s) && s.rx.stopping && !s.rx.running && LegalRun(s, es)
    ensures var f := Run(s, es);
      && f.rx.stopping && !f.rx.running && NoneMore(s, f)
      && f.rx.n.armCount == s.rx.n.armCount && f.rx.books == s.rx.books
      && (!AnyTurnsOff(es) ==> f.present == s.present && f.enabled == s.enabled)
      && (Off(f) <==> Off(s) || AnyTurnsOff(es))
    decreases |es|
  {
    hide Step, Legal, Off, TurnsOff;
    if es != [] {
      StoppedStep(s, es[0]);
      NothingStartsAfterStop(Step(s, es[0]), es[1..]);
      assert AnyTurnsOff(es) <==> TurnsOff(es[0]) || AnyTurnsOff(es[1..]) by {
        assert es == [es[0]] + es[1..];
      }
    }
  }

  /**
   * Stop leaves the queues as they are: the interface is all on or all off after it exactly if it
   * was off. One that was on has every queue enabled and receive stopped.
   */
  lemma StopLeavesQueuesEnabled(s: State)
    requires Shaped(s) && HasQueue(s) && (On(s) || Off(s))
    ensures var t := Step(s, Latches);
      && t.present == s.present && t.enabled == s.enabled && !t.rx.running
      && (On(t) || Off(t) <==> Off(s))
      && (On(s) ==> AllQueues(t, true) && !Off(t))
  {
    var i :| 0 <= i < |s.present| && s.present[i];
    assert s.enabled[i] || !s.enabled[i];
  }

  /**
   * All or nothing across Stop: of an interface that is all on or all off when Stop comes, the same
   * can be said at the end of any run from there exactly if it was off, or super has accepted a
   * disable since, or the resources have been released.
   */
  lemma AllOrNothingAcrossStop(s: State, after: seq<Event>)
    requires Shaped(s) && HasQueue(s) && (On(s) || Off(s)) && LegalRun(s, [Latches] + after)
    ensures var f := Run(s, [Latches] + after);
      On(f) || Off(f) <==> Off(s) || AnyTurnsOff(after)
  {
    hide Step, AnyTurnsOff, HasQueue;
    assert ([Latches] + after)[1..] == after;
    StopLeavesQueuesEnabled(s);
    var t := Step(s, Latches);
    LatchedIsStopped(s);
    NothingStartsAfterStop(t, after);
  }

  lemma LatchedIsStopped(s: State)
    requires Shaped(s)
    ensures Step(s, Latches).rx.stopping
  {
  }

  /** The input: an attached driver is enabled and then stopped, and is neither on nor off. */
  lemma StoppedWhileUp(rx: X.State)
    requires X.Initial(rx) && X.Whole(rx.o)
    ensures var es := [Control(true, GRANTED), Latches];
      && LegalRun(Attached(rx), es)
      && var f := Run(Attached(rx), es); !On(f) && !Off(f) && AllQueues(f, true) && !f.rx.running
  {
    hide X.StartReceiving, X.Initial;
    var s := Attached(rx);
    var e := Control(true, GRANTED);
    AttachedIsOff(rx);
    EnableIsAllOrNothing(s, GRANTED);
    var s1 := Step(s, e);
    assert HasQueue(s1) by { assert s1.present[0]; }
    StopLeavesQueuesEnabled(s1);
    assert [e, Latches][1..] == [Latches] && [Latches][1..] == [];
    var s2 := Step(s1, Latches);
    assert LegalRun(s2, []) && Run(s2, []) == s2;
    assert Run(s1, [Latches]) == s2;
  }

  // ---- what the family believes --------------------------------------------------------

  /** The family and the driver agree on whether the interface is up. */
  predicate Agree(s: State)
    requires Shaped(s)
  {
    s.familyUp <==> On(s)
  }

  predicate HasQueue(s: State)
  {
    exists i :: 0 <= i < |s.present| && s.present[i]
  }

  /** The enable gets as far as its unwind: super accepts it, and a queue, the link or AsyncIO refuses. */
  predicate Unwinds(s: State, a: Answers)
    requires Shaped(s)
  {
    !s.rx.stopping && a.superOk && !Granted(s, a)
  }

  /**
   * A failed enable is meant to leave both sides with the interface down. From a state in which the
   * two agree they stop agreeing exactly when: the interface was off, the enable unwinds and super refuses the
   * unwind; or it was on, and super accepts the repeated enable and then the unwind. So a repeated
   * enable that super accepts tells the family the interface is down while every queue stays enabled
   * and receive keeps running.
   */
  lemma AgreementAfterEnable(s: State, a: Answers)
    requires Shaped(s) && (On(s) || Off(s)) && Agree(s) && HasQueue(s)
    ensures var t := Enable(s, a).0;
      !Agree(t) <==>
        if On(s) then !s.rx.stopping && a.superOk && a.unwindOk
        else Unwinds(s, a) && !a.unwindOk
    ensures On(s) ==> On(Enable(s, a).0) && !Enable(s, a).1
  {
    hide X.StartReceiving, Granted;
    StartReceivingStarts(s.rx, a.armOk);
    var q :| 0 <= q < |s.present| && s.present[q];
    assert On(s) ==> Refuses(s.present, s.enabled, a.grants, q);
    EnableIsAllOrNothing(s, a);
  }

  /** An attached driver before its first enable: four queues, all off, over a whole receive path. */
  function Attached(rx: X.State): State
  {
    State([true, true, true, true], [false, false, false, false], false, rx)
  }

  const GRANTED := Answers(true, [true, true, true, true], true, true, true)

  /** The input: two enables in a row, with nobody refusing anything but the first queue the second. */
  lemma RepeatedEnableDisagrees(rx: X.State)
    requires X.Initial(rx) && X.Whole(rx.o)
    ensures var es := [Control(true, GRANTED), Control(true, GRANTED)];
      && LegalRun(Attached(rx), es[..1]) && Agree(Run(Attached(rx), es[..1])) && On(Run(Attached(rx), es[..1]))
      && LegalRun(Attached(rx), es)
      && var f := Run(Attached(rx), es); On(f) && !f.familyUp && !Agree(f)
  {
    hide X.StartReceiving, X.Initial;
    var s := Attached(rx);
    var e := Control(true, GRANTED);
    AttachedIsOff(rx);
    EnableIsAllOrNothing(s, GRANTED);
    var s1 := Step(s, e);
    StartReceivingStarts(rx, true);
    assert HasQueue(s1) by { assert s1.present[0]; }
    AgreementAfterEnable(s1, GRANTED);
    assert Run(s1, []) == s1 && LegalRun(s1, []);
    assert [e, e][..1] == [e] && [e][1..] == [] && [e, e][1..] == [e];
    var s2 := Step(s1, e);
    assert Run(s2, []) == s2 && LegalRun(s2, []);
    assert Run(s1, [e]) == s2;
  }

  lemma AttachedIsOff(rx: X.State)
    requires X.Initial(rx) && X.Whole(rx.o)
    ensures Off(Attached(rx)) && Granted(Attached(rx), GRANTED) && !rx.stopping
  {
  }

  /** The family alternates its calls as it believes them to have gone, and super accepts every unwind. */
  predicate Alternates(s: State, e: Event)
  {
    e.Control? ==> e.enable == !s.familyUp && (e.enable ==> e.answers.unwindOk)
  }

  predicate AlternatingRun(s: State, es: seq<Event>)
    requires Shaped(s) && LegalRun(s, es)
    decreases |es|
  {
    es != [] ==> Alternates(s, es[0]) && AlternatingRun(Step(s, es[0]), es[1..])
  }

  lemma AlternatingStepAgrees(s: State, e: Event)
    requires Shaped(s) && Legal(s, e) && Alternates(s, e)
    requires s.rx.stopping || ((On(s) || Off(s)) && Agree(s) && HasQueue(s))
    ensures var t := Step(s, e); t.rx.stopping || ((On(t) || Off(t)) && Agree(t) && HasQueue(t))
  {
    hide Enable, Disable, X.Step, X.Fair, On, Off;
    StepIsAllOrNothing(s, e);
    if !s.rx.stopping {
      NotBoth(s);
      match e
      case Control(true, a) =>
        AgreementAfterEnable(s, a);
        EnableIsAllOrNothing(s, a);
      case Control(false, a) =>
        DisableIsOff(s, a);
        NotBoth(Step(s, e));
      case Receive(t) =>
        CallbacksKeepRunning(s.rx, t);
        OnOffOf(s, Step(s, e));
      case _ =>
    }
  }

  lemma NotBoth(s: State)
    requires Shaped(s)
    ensures !On(s) || !Off(s)
    ensures forall a :: Disable(s, a).0.present == s.present
  {
  }

  /** Calls that alternate, with every unwind accepted, keep the two sides agreeing over every run before Stop. */
  lemma {:induction false} AlternatingCallsAgree(s: State, es: seq<Event>)
    requires Shaped(s) && LegalRun(s, es) && AlternatingRun(s, es)
    requires s.rx.stopping || ((On(s) || Off(s)) && Agree(s) && HasQueue(s))
    ensures var f := Run(s, es); f.rx.stopping || Agree(f)
    decreases |es|
  {
    hide Step, Legal, On, Off, Agree, HasQueue, Alternates;
    if es != [] {
      AlternatingStepAgrees(s, es[0]);
      AlternatingCallsAgree(Step(s, es[0]), es[1..]);
    }
  }

  // ---- the same, in place --------------------------------------------------------------

  class Interface {
    const present: seq<bool>
    var enabled: seq<bool>
    var familyUp: bool
    const rx: RX.RxPath

    ghost predicate Valid()
      reads this, rx, rx.rxBytes
    {
      rx.Valid() && |enabled| == |present|
    }

    ghost function View(): State
      reads this, rx
    {
      State(present, enabled, familyUp, rx.View())
    }

    constructor (queues: seq<bool>, receive: RX.RxPath)
      requires receive.Valid()
      ensures Valid() && present == queues && rx == receive && !familyUp && AllQueues(View(), false)
    {
      present, rx, familyUp := queues, receive, false;
      enabled := seq(|queues|, _ => false);
    }

    /** queues[i]->setEnable(true): refused if the queue is already enabled. */
    method EnableQueue(i: nat, grants: seq<bool>) returns (ok: bool)
      requires i < |present| == |enabled| && present[i]
      modifies this`enabled
      ensures ok == !Refuses(present, old(enabled), grants, i)
      ensures enabled == if ok then old(enabled)[i := true] else old(enabled)
    {
      ok := !enabled[i] && i < |grants| && grants[i];
      if ok {
        enabled := enabled[i := true];
      }
    }

    /** The unwind of a failed enable. */
    method UnwindEnable(enabledCount: nat, a: Answers)
      requires Valid() && enabledCount <= |present|
      modifies this`enabled, this`familyUp
      ensures Valid() && View() == Unwind(old(View()), enabledCount, a)
    {
      var i := 0;
      while i < enabledCount
        invariant 0 <= i <= enabledCount && |enabled| == |present|
        invariant enabled == SetFirst(present, old(enabled), i, false)
      {
        if present[i] {
          enabled := enabled[i := false];
        }
        i := i + 1;
      }
      if a.unwindOk {
        familyUp := false;
      } else {
        familyUp := true;
      }
    }

    method EnableQueues(a: Answers) returns (ok: bool, enabledCount: nat)
      requires Valid()
      modifies this`enabled
      ensures enabledCount == FirstRefusal(present, old(enabled), a.grants, 0)
      ensures ok <==> enabledCount == |present|
      ensures Valid() && enabled == SetFirst(present, old(enabled), enabledCount, true)
    {
      enabledCount := 0;
      ghost var k := FirstRefusal(present, enabled, a.grants, 0);
      while enabledCount < |present|
        invariant 0 <= enabledCount <= k && |enabled| == |present|
        invariant enabled == SetFirst(present, old(enabled), enabledCount, true)
      {
        assert enabledCount < k <==> !Refuses(present, old(enabled), a.grants, enabledCount);
        if present[enabledCount] {
          var granted := EnableQueue(enabledCount, a.grants);
          if !granted {
            return false, enabledCount;
          }
        }
        enabledCount := enabledCount + 1;
      }
      ok := true;
    }

    method SetInterfaceEnable(enable: bool, a: Answers) returns (ok: bool)
      requires Valid()
      modifies this, rx
      ensures Valid()
      ensures View() == (if enable then Enable(old(View()), a) else Disable(old(View()), a)).0
      ensures ok == (if enable then Enable(old(View()), a) else Disable(old(View()), a)).1
    {
      hide X.StartReceiving, X.StopReceiving;
      if enable && rx.stopping {
        return false;
      }
      if !a.superOk {
        return false;
      }
      if enable {
        familyUp := true;
        var all, enabledCount := EnableQueues(a);
        if !all {
          UnwindEnable(enabledCount, a);
          return false;
        }
        if !a.linkOk {
          UnwindEnable(enabledCount, a);
          return false;
        }
        var r := rx.StartReceiving(a.armOk);
        if r != X.Armed {
          UnwindEnable(enabledCount, a);
          return false;
        }
        return true;
      }
      familyUp := false;
      rx.StopReceiving();
      DisableQueues();
      return true;
    }

    /** The disable, in reverse order. */
    method DisableQueues()
      requires Valid()
      modifies this`enabled
      ensures Valid() && enabled == SetFirst(present, old(enabled), |present|, false)
    {
      var i := |present|;
      while i > 0
        invariant 0 <= i <= |present| == |enabled|
        invariant forall j :: 0 <= j < |present| ==>
          enabled[j] == if i <= j && present[j] then false else old(enabled)[j]
      {
        i := i - 1;
        if present[i] {
          enabled := enabled[i := false];
        }
      }
    }
  }
}
