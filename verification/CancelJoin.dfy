/**
 * The cancel-countdown join of finishStop, for any number of sources: each present source is
 * cancelled, each cancellation is completed once -- by its handler, or inline when Cancel fails --
 * and whichever completion is last releases the driver and calls super::Stop. Handlers may run at
 * any point, between two Cancel calls included.
 */
module CancelJoin {

  const UINT32_MAX := 0xFFFF_FFFF

  datatype State = State(
    // which sources were there to be counted, and how many have been passed
    present: seq<bool>, next: nat,
    // accepted cancellations whose handler has not run
    live: set<nat>,
    // stopCancelsPending
    pending: nat,
    // how often the resources were released and super::Stop called, and references still held
    releases: nat, supers: nat, driverRefs: int, providerRefs: int)

  datatype Event =
    | Issues(ok: bool)
    | HandlerRuns(source: nat)

  function Count(present: seq<bool>): nat
  {
    if present == [] then 0 else (if present[0] then 1 else 0) + Count(present[1..])
  }

  /** finishStop up to the first Cancel. */
  function Begin(present: seq<bool>): State
  {
    var n := Count(present);
    if n == 0 then
      State(present, |present|, {}, 0, 1, 1, 0, 0)
    else
      State(present, 0, {}, n, 0, 0, 1, 1)
  }

  /** atomic_fetch_sub on an unsigned 32-bit counter. */
  function Decrement(pending: nat): nat
  {
    if pending == 0 then UINT32_MAX else pending - 1
  }

  /** The block handed to every Cancel. */
  function CountDown(s: State): State
  {
    var t := s.(pending := Decrement(s.pending));
    if s.pending != 1 then
      t
    else
      t.(releases := t.releases + 1, supers := t.supers + 1,
         driverRefs := t.driverRefs - 1, providerRefs := t.providerRefs - 1)
  }

  /** The test before each Cancel: the source is there, and has not been released meanwhile. */
  predicate NonNull(s: State, i: nat)
  {
    i < |s.present| && s.present[i] && s.releases == 0
  }

  predicate Legal(s: State, e: Event)
  {
    match e
    case Issues(_) => s.next < |s.present|
    case HandlerRuns(i) => i in s.live
  }

  function Step(s: State, e: Event): State
    requires Legal(s, e)
  {
    match e
    case Issues(ok) =>
      var t := s.(next := s.next + 1);
      if !NonNull(s, s.next) then t
      else if ok then t.(live := t.live + {s.next})
      else CountDown(t)
    case HandlerRuns(i) =>
      CountDown(s.(live := s.live - {i}))
  }

  predicate LegalRun(s: State, es: seq<Event>)
    decreases |es|
  {
    es != [] ==> Legal(s, es[0]) && LegalRun(Step(s, es[0]), es[1..])
  }

  function Run(s: State, es: seq<Event>): State
    requires LegalRun(s, es)
    decreases |es|
  {
    if es == [] then s else Run(Step(s, es[0]), es[1..])
  }

  /** Every source has been passed and every accepted cancellation has completed. */
  predicate Complete(s: State)
  {
    s.next == |s.present| && s.live == {}
  }

  /** Cancellations neither issued nor skipped yet. */
  function Ahead(s: State): nat
    requires s.next <= |s.present|
  {
    Count(s.present[s.next..])
  }

  predicate Inv(s: State)
  {
    && s.next <= |s.present|
    && (forall i :: i in s.live ==> i < s.next)
    && s.pending == |s.live| + Ahead(s)
    && s.releases == s.supers == (if s.pending == 0 then 1 else 0)
    && s.driverRefs == s.providerRefs == (if s.pending == 0 then 0 else 1)
  }

  lemma InvFacts(s: State)
    requires Inv(s)
    ensures s.releases == s.supers <= 1
  {
  }

  lemma BeginInv(present: seq<bool>)
    ensures Inv(Begin(present))
  {
    assert present[0..] == present && present[|present|..] == [];
  }

  lemma AheadAtNext(s: State)
    requires s.next < |s.present|
    ensures Count(s.present[s.next..]) == (if s.present[s.next] then 1 else 0) + Count(s.present[s.next + 1..])
  {
    assert s.present[s.next..][1..] == s.present[s.next + 1..];
  }

  /** The null test at each Cancel agrees with the count: what was counted is still there. */
  lemma RetestAgrees(s: State)
    requires Inv(s) && s.next < |s.present|
    ensures NonNull(s, s.next) <==> s.present[s.next]
  {
    AheadAtNext(s);
  }

  lemma StepKeepsInv(s: State, e: Event)
    requires Inv(s) && Legal(s, e)
    ensures Inv(Step(s, e)) && Step(s, e).present == s.present
    ensures 0 < s.pending || Step(s, e).pending == 0
    ensures s.releases <= Step(s, e).releases
  {
    match e
    case Issues(ok) =>
      AheadAtNext(s);
    case HandlerRuns(i) =>
      assert |s.live - {i}| == |s.live| - 1;
  }

  /**
   * Whatever the answers and the interleaving: the resources are released and super::Stop is called
   * at most once, and exactly when every counted cancellation has completed; retains and releases
   * balance; and the counter never wraps.
   */
  lemma {:induction false} JoinsExactlyOnce(s: State, es: seq<Event>)
    requires Inv(s) && LegalRun(s, es)
    ensures var f := Run(s, es);
      && Inv(f)
      && f.releases == f.supers <= 1
      && (f.releases == 1 <==> f.live == {} && Ahead(f) == 0)
      && (Complete(f) ==> f.releases == 1 && f.pending == 0 && f.driverRefs == 0 && f.providerRefs == 0)
      && f.pending <= |f.present|
    decreases |es|
  {
    if es != [] {
      StepKeepsInv(s, es[0]);
      JoinsExactlyOnce(Step(s, es[0]), es[1..]);
    } else {
      assert s.pending == 0 <==> s.live == {} && Ahead(s) == 0;
      assert s.next == |s.present| ==> s.present[s.next..] == [];
      CountBound(s.present[s.next..]);
      LiveBound(s.live, s.next);
    }
  }

  /**
   * Source `i` is cancelled in a run whose first Cancel is that of source `n`: its Cancel is issued,
   * and either refused or followed by its handler.
   */
  predicate CancelledIn(es: seq<Event>, n: nat, i: nat)
  {
    es != [] &&
    match es[0]
    case Issues(ok) => if n == i then !ok || HandlerRuns(i) in es[1..] else CancelledIn(es[1..], n + 1, i)
    case HandlerRuns(_) => CancelledIn(es[1..], n, i)
  }

  lemma {:induction false} CountAtLeastOne(present: seq<bool>, i: nat)
    requires i < |present| && present[i]
    ensures Count(present) > 0
  {
    if i > 0 {
      CountAtLeastOne(present[1..], i - 1);
    }
  }

  /** When the release has come, every source that was there has had its own cancellation completed. */
  lemma {:induction false} EverySourceIsCancelled(s: State, es: seq<Event>, i: nat)
    requires Inv(s) && LegalRun(s, es) && i < |s.present| && s.present[i] && Run(s, es).releases == 1
    ensures i < s.next && i in s.live ==> HandlerRuns(i) in es
    ensures i >= s.next ==> CancelledIn(es, s.next, i)
    decreases |es|
  {
    if i >= s.next {
      CountAtLeastOne(s.present[s.next..], i - s.next);
    }
    if es != [] {
      StepKeepsInv(s, es[0]);
      EverySourceIsCancelled(Step(s, es[0]), es[1..], i);
      assert forall e :: e in es[1..] ==> e in es;
    }
  }

  lemma {:induction false} CountBound(present: seq<bool>)
    ensures Count(present) <= |present|
  {
    if present != [] {
      CountBound(present[1..]);
    }
  }

  lemma {:induction false} LiveBound(live: set<nat>, n: nat)
    requires forall i :: i in live ==> i < n
    ensures |live| <= n
    decreases n
  {
    if n > 0 {
      LiveBound(live - {n - 1}, n - 1);
    } else {
      assert live == {};
    }
  }

  /** Steps still to come: no run is longer than this, and none can stick before it is complete. */
  function Cost(s: State): nat
    requires s.next <= |s.present|
  {
    2 * (|s.present| - s.next) + |s.live|
  }

  lemma {:induction false} RunsEnd(s: State, es: seq<Event>)
    requires Inv(s) && LegalRun(s, es)
    ensures |es| <= Cost(s)
    ensures Inv(Run(s, es))
    ensures !Complete(Run(s, es)) ==> exists e :: Legal(Run(s, es), e)
    decreases |es|
  {
    if es != [] {
      StepKeepsInv(s, es[0]);
      if es[0].HandlerRuns? {
        assert |s.live - {es[0].source}| == |s.live| - 1;
      }
      RunsEnd(Step(s, es[0]), es[1..]);
    } else if s.next < |s.present| {
      assert Legal(s, Issues(true));
    } else if s.live != {} {
      var i :| i in s.live;
      assert Legal(s, HandlerRuns(i));
    }
  }

  // ---- the same, in place --------------------------------------------------------------

  /** The handlers that run before the next Cancel is issued, and that Cancel's answer. */
  datatype Gap = Gap(handlers: seq<nat>, ok: bool)

  /** Handlers that are not live do not run. */
  function RunHandlers(s: State, handlers: seq<nat>): State
    decreases |handlers|
  {
    if handlers == [] then s
    else if handlers[0] in s.live then RunHandlers(Step(s, HandlerRuns(handlers[0])), handlers[1..])
    else RunHandlers(s, handlers[1..])
  }

  /** The rest of finishStop: a Cancel for every source not yet passed. */
  function CancelRest(s: State, gaps: seq<Gap>): State
    requires s.next + |gaps| <= |s.present|
    decreases |gaps|
  {
    if gaps == [] then s
    else
      var t := RunHandlers(s, gaps[0].handlers);
      HandlersKeepPlace(s, gaps[0].handlers);
      CancelRest(Step(t, Issues(gaps[0].ok)), gaps[1..])
  }

  lemma {:induction false} HandlersKeepPlace(s: State, handlers: seq<nat>)
    ensures var t := RunHandlers(s, handlers); t.next == s.next && t.present == s.present
    decreases |handlers|
  {
    if handlers != [] {
      if handlers[0] in s.live {
        HandlersKeepPlace(Step(s, HandlerRuns(handlers[0])), handlers[1..]);
      } else {
        HandlersKeepPlace(s, handlers[1..]);
      }
    }
  }

  lemma {:induction false} HandlersKeepInv(s: State, handlers: seq<nat>)
    requires Inv(s)
    ensures Inv(RunHandlers(s, handlers))
    decreases |handlers|
  {
    if handlers != [] {
      if handlers[0] in s.live {
        StepKeepsInv(s, HandlerRuns(handlers[0]));
        HandlersKeepInv(Step(s, HandlerRuns(handlers[0])), handlers[1..]);
      } else {
        HandlersKeepInv(s, handlers[1..]);
      }
    }
  }

  /** finishStop returns in a state of the join, with only handlers still to come. */
  lemma {:induction false} CancelRestKeepsInv(s: State, gaps: seq<Gap>)
    requires Inv(s) && s.next + |gaps| <= |s.present|
    ensures var f := CancelRest(s, gaps); Inv(f) && f.present == s.present && f.next == s.next + |gaps|
    decreases |gaps|
  {
    if gaps != [] {
      HandlersKeepInv(s, gaps[0].handlers);
      HandlersKeepPlace(s, gaps[0].handlers);
      var t := RunHandlers(s, gaps[0].handlers);
      StepKeepsInv(t, Issues(gaps[0].ok));
      CancelRestKeepsInv(Step(t, Issues(gaps[0].ok)), gaps[1..]);
    }
  }

  class Join {
    var sources: seq<bool>
    var next: nat
    var stopCancelsPending: nat
    var live: set<nat>
    var releases: nat
    var supers: nat
    var driverRefs: int
    var providerRefs: int

    ghost function View(): State
      reads this
    {
      State(sources, next, live, stopCancelsPending, releases, supers, driverRefs, providerRefs)
    }

    constructor ()
      ensures View() == State([], 0, {}, 0, 0, 0, 0, 0)
    {
      sources, next, live, stopCancelsPending := [], 0, {}, 0;
      releases, supers, driverRefs, providerRefs := 0, 0, 0, 0;
    }

    /** The count is taken; with nothing to cancel the teardown finishes in this frame. */
    method Start(present: seq<bool>) returns (cancelCount: nat)
      modifies this
      ensures cancelCount == Count(present) && View() == Begin(present)
    {
      hide Count;
      cancelCount := CountSources(present);
      sources, stopCancelsPending, live := present, cancelCount, {};
      if cancelCount == 0 {
        next, releases, supers, driverRefs, providerRefs := |present|, 1, 1, 0, 0;
      } else {
        next, releases, supers, driverRefs, providerRefs := 0, 0, 0, 1, 1;
      }
    }

    method Finalize()
      modifies this
      ensures View() == CountDown(old(View()))
    {
      var prior := stopCancelsPending;
      stopCancelsPending := Decrement(prior);
      if prior != 1 {
        return;
      }
      releases := releases + 1;
      supers := supers + 1;
      providerRefs := providerRefs - 1;
      driverRefs := driverRefs - 1;
    }

    /** The environment runs handlers of accepted cancellations; others cannot run. */
    method LetHandlersRun(handlers: seq<nat>)
      modifies this
      ensures View() == RunHandlers(old(View()), handlers)
    {
      var k := 0;
      while k < |handlers|
        invariant 0 <= k <= |handlers|
        invariant RunHandlers(View(), handlers[k..]) == RunHandlers(old(View()), handlers)
      {
        assert handlers[k..][0] == handlers[k] && handlers[k..][1..] == handlers[k + 1..];
        if handlers[k] in live {
          live := live - {handlers[k]};
          Finalize();
        }
        k := k + 1;
      }
    }

    method CountSources(present: seq<bool>) returns (cancelCount: nat)
      ensures cancelCount == Count(present)
    {
      cancelCount := 0;
      var k := 0;
      while k < |present|
        invariant 0 <= k <= |present|
        invariant cancelCount + Count(present[k..]) == Count(present)
      {
        assert present[k..][1..] == present[k + 1..];
        if present[k] {
          cancelCount := cancelCount + 1;
        }
        k := k + 1;
      }
    }

    /** The next Cancel of finishStop, after the handlers that run before it. */
    method CancelNext(gap: Gap)
      requires Inv(View()) && next < |sources|
      modifies this
      ensures var t := RunHandlers(old(View()), gap.handlers);
        Legal(t, Issues(gap.ok)) && View() == Step(t, Issues(gap.ok))
      ensures Inv(View()) && sources == old(sources) && next == old(next) + 1
    {
      HandlersKeepInv(View(), gap.handlers);
      HandlersKeepPlace(View(), gap.handlers);
      StepKeepsInv(RunHandlers(View(), gap.handlers), Issues(gap.ok));
      LetHandlersRun(gap.handlers);
      var i := next;
      next := next + 1;
      if sources[i] && releases == 0 {
        if gap.ok {
          live := live + {i};
        } else {
          Finalize();
        }
      }
    }

    /**
     * finishStop: count the sources, then cancel each. If there are none the teardown finishes in
     * this frame; otherwise it is complete when the last handler has run.
     */
    method FinishStop(present: seq<bool>, gaps: seq<Gap>)
      requires |gaps| == |present|
      modifies this
      ensures View() == if Count(present) == 0 then Begin(present) else CancelRest(Begin(present), gaps)
      ensures Inv(View()) && next == |present|
      ensures releases == 1 <==> live == {}
    {
      hide Inv, Count, CountDown, RunHandlers;
      BeginInv(present);
      var cancelCount := Start(present);
      if cancelCount == 0 {
        CompleteIsReleased(View());
        return;
      }
      ghost var start := View();
      assert start == Begin(present) && gaps[0..] == gaps;
      while next < |present|
        invariant next <= |present| && sources == present && Inv(View())
        invariant CancelRest(View(), gaps[next..]) == CancelRest(start, gaps)
      {
        assert gaps[next..][0] == gaps[next] && gaps[next..][1..] == gaps[next + 1..];
        CancelNext(gaps[next]);
      }
      assert gaps[next..] == [];
      CompleteIsReleased(View());
    }
  }

  lemma CompleteIsReleased(s: State)
    requires Inv(s) && s.next == |s.present|
    ensures s.releases == 1 <==> s.live == {}
  {
    assert s.present[s.next..] == [];
  }
}
