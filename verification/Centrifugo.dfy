/**
 The double-checked locking singleton of the Centrifugo client: threads running `_get_client`
 and `reset_client`, interleaved between any two reads or writes of the shared variables.
 */
module Centrifugo {
  import opened Wrappers

  type Thread = nat
  /** The n-th client object assigned to the global, counting from 0. */
  type Client = nat

  /**
   The next step of a thread. `since` remembers the number of resets at the moment the thread
   last knew the global to be set; it is bookkeeping, nothing branches on it.
   */
  datatype Pc =
    | Idle
    | FirstCheck                               // if _client_instance is not None
    | FastReturn(since: nat)                   // return _client_instance, without the lock
    | ReadConfig                               // config = get_config(); is_valid()
    | AcquireLock
    | SecondCheck                              // if _client_instance is not None, under the lock
    | LockedReturn                             // return _client_instance, under the lock
    | Construct                                // Client(...)
    | Publish                                  // _client_instance = ...
    | LeaveAndReturn(outcome: Outcome)         // release the lock, then return
    | Leave(since: nat)                        // release the lock
    | LastRead(since: nat)                     // return _client_instance, without the lock
    | ResetAcquire
    | ResetWrite                               // _client_instance = None
    | ResetLeave

  /** Why a call returned what it did: it read the global, its config was invalid, or its own construction failed. */
  datatype Cause = FromGlobal(since: nat, resets: nat) | InvalidConfig | ConstructionFailed

  datatype Outcome = Outcome(thread: Thread, result: Option<Client>, cause: Cause)

  /** `published[c]` is the number of resets that had happened when client c was published. */
  datatype State = State(
    pcs: map<Thread, Pc>,
    global: Option<Client>,
    lock: Option<Thread>,
    published: seq<nat>,
    resets: nat,
    outcomes: seq<Outcome>)
  {
    function PcOf(t: Thread): Pc {
      if t in pcs then pcs[t] else Idle
    }

    function At(t: Thread, pc: Pc): State {
      this.(pcs := pcs[t := pc])
    }

    function Return(t: Thread, outcome: Outcome): State {
      At(t, Idle).(outcomes := outcomes + [outcome])
    }

    /** What thread `t` gets by returning the global now. */
    function Reading(t: Thread, since: nat): Outcome {
      Outcome(t, global, FromGlobal(since, resets))
    }
  }

  const INITIAL := State(map[], None, None, [], 0, [])

  /** `Advance` executes the thread's next step; `ok` decides config validity and construction success. */
  datatype Action = CallGet(thread: Thread) | CallReset(thread: Thread) | Advance(thread: Thread, ok: bool)

  predicate Enabled(s: State, a: Action) {
    var pc := s.PcOf(a.thread);
    if a.Advance? then pc != Idle && (pc.AcquireLock? || pc.ResetAcquire? ==> s.lock == None)
    else pc == Idle
  }

  function Step(s: State, a: Action): State
    requires Enabled(s, a)
  {
    var t := a.thread;
    match a
    case CallGet(_) => s.At(t, FirstCheck)
    case CallReset(_) => s.At(t, ResetAcquire)
    case Advance(_, ok) =>
      match s.PcOf(t)
      case FirstCheck => if s.global.Some? then s.At(t, FastReturn(s.resets)) else s.At(t, ReadConfig)
      case FastReturn(since) => s.Return(t, s.Reading(t, since))
      case ReadConfig => if ok then s.At(t, AcquireLock) else s.Return(t, Outcome(t, None, InvalidConfig))
      case AcquireLock => s.At(t, SecondCheck).(lock := Some(t))
      case SecondCheck => if s.global.Some? then s.At(t, LockedReturn) else s.At(t, Construct)
      case LockedReturn => s.At(t, LeaveAndReturn(s.Reading(t, s.resets)))
      case Construct => if ok then s.At(t, Publish) else s.At(t, LeaveAndReturn(Outcome(t, None, ConstructionFailed)))
      case Publish => s.At(t, Leave(s.resets)).(global := Some(|s.published|), published := s.published + [s.resets])
      case LeaveAndReturn(outcome) => s.Return(t, outcome).(lock := None)
      case Leave(since) => s.At(t, LastRead(since)).(lock := None)
      case LastRead(since) => s.Return(t, s.Reading(t, since))
      case ResetAcquire => s.At(t, ResetWrite).(lock := Some(t))
      case ResetWrite => s.At(t, ResetLeave).(global := None, resets := s.resets + 1)
      case ResetLeave => s.At(t, Idle).(lock := None)
      case Idle => s
  }

  /** A run of any actions in any order; one that is not enabled leaves the state as it is. */
  function Run(actions: seq<Action>): State {
    if actions == [] then INITIAL
    else
      var s := Run(actions[..|actions| - 1]);
      var a := actions[|actions| - 1];
      if Enabled(s, a) then Step(s, a) else s
  }

  // ---------- The invariant ----------

  predicate HoldsLock(pc: Pc) {
    || pc.SecondCheck? || pc.LockedReturn? || pc.Construct? || pc.Publish?
    || pc.LeaveAndReturn? || pc.Leave? || pc.ResetWrite? || pc.ResetLeave?
  }

  /** At most one client per reset count, in increasing order, and the newest one is the global, if any is. */
  ghost predicate PublishedInv(s: State) {
    && (forall i, j :: 0 <= i < j < |s.published| ==> s.published[i] < s.published[j])
    && (forall i :: 0 <= i < |s.published| ==>
          s.published[i] < s.resets || (s.published[i] == s.resets && s.global == Some(i)))
    && (s.global.Some? ==> s.global.value < |s.published| && s.published[s.global.value] == s.resets)
  }

  /** If no reset happened since a thread knew the global to be set, it still is. */
  predicate StillSet(s: State, since: nat) {
    since <= s.resets && (since == s.resets ==> s.global.Some?)
  }

  predicate GoodOutcome(s: State, o: Outcome) {
    match o.cause
    case FromGlobal(since, resets) =>
      && since <= resets <= s.resets
      && (o.result.None? ==> since < resets)
      && (o.result.Some? ==> o.result.value < |s.published| && s.published[o.result.value] == resets)
    case _ => o.result.None?
  }

  ghost predicate ThreadInv(s: State, t: Thread) {
    var pc := s.PcOf(t);
    && (HoldsLock(pc) <==> s.lock == Some(t))
    && (pc.FastReturn? || pc.Leave? || pc.LastRead? ==> StillSet(s, pc.since))
    && (pc.LockedReturn? ==> s.global.Some?)
    && (pc.Construct? || pc.Publish? ==> s.global.None?)
    && (pc.LeaveAndReturn? ==>
          && GoodOutcome(s, pc.outcome) && pc.outcome.thread == t
          && (pc.outcome.result.None? <==> pc.outcome.cause.ConstructionFailed?))
  }

  ghost predicate Inv(s: State) {
    && PublishedInv(s)
    && (forall t: Thread :: ThreadInv(s, t))
    && (forall i :: 0 <= i < |s.outcomes| ==> GoodOutcome(s, s.outcomes[i]))
  }

  lemma OutcomesStayGood(s: State, s': State)
    requires s.published <= s'.published && s.resets <= s'.resets
    ensures forall o :: GoodOutcome(s, o) ==> GoodOutcome(s', o)
  {
  }

  lemma PublishKeepsOrder(s: State)
    requires PublishedInv(s) && s.global.None?
    ensures PublishedInv(s.(global := Some(|s.published|), published := s.published + [s.resets]))
  {
  }

  lemma StepKeepsPublished(s: State, a: Action)
    requires Inv(s) && Enabled(s, a)
    ensures PublishedInv(Step(s, a))
    ensures s.published <= Step(s, a).published && s.resets <= Step(s, a).resets
  {
    assert ThreadInv(s, a.thread);
    if a.Advance? && s.PcOf(a.thread).Publish? {
      PublishKeepsOrder(s);
    }
  }

  /** The step of another thread keeps this thread's part of the invariant. */
  lemma StepKeepsOthers(s: State, a: Action, t: Thread)
    requires Inv(s) && Enabled(s, a) && t != a.thread
    ensures ThreadInv(Step(s, a), t)
  {
    assert ThreadInv(s, a.thread) && ThreadInv(s, t);
    StepKeepsPublished(s, a);
    OutcomesStayGood(s, Step(s, a));
    assert Step(s, a).PcOf(t) == s.PcOf(t);
  }

  lemma StepKeepsOwn(s: State, a: Action)
    requires Inv(s) && Enabled(s, a)
    ensures ThreadInv(Step(s, a), a.thread)
  {
    assert ThreadInv(s, a.thread);
    StepKeepsPublished(s, a);
    OutcomesStayGood(s, Step(s, a));
  }

  lemma StepKeepsOutcomes(s: State, a: Action)
    requires Inv(s) && Enabled(s, a)
    ensures forall i :: 0 <= i < |Step(s, a).outcomes| ==> GoodOutcome(Step(s, a), Step(s, a).outcomes[i])
  {
    assert ThreadInv(s, a.thread);
    StepKeepsPublished(s, a);
    OutcomesStayGood(s, Step(s, a));
  }

  /** The invariant holds throughout every run, under every interleaving. */
  lemma {:induction false} InvHolds(actions: seq<Action>)
    ensures Inv(Run(actions))
  {
    if actions != [] {
      var s := Run(actions[..|actions| - 1]);
      var a := actions[|actions| - 1];
      InvHolds(actions[..|actions| - 1]);
      if Enabled(s, a) {
        StepKeepsPublished(s, a);
        StepKeepsOutcomes(s, a);
        forall t: Thread
          ensures ThreadInv(Step(s, a), t)
        {
          if t == a.thread {
            StepKeepsOwn(s, a);
          } else {
            StepKeepsOthers(s, a, t);
          }
        }
      }
    }
  }

  // ---------- What every run promises ----------

  lemma MutualExclusion(actions: seq<Action>, t: Thread, u: Thread)
    requires HoldsLock(Run(actions).PcOf(t)) && HoldsLock(Run(actions).PcOf(u))
    ensures t == u
  {
    InvHolds(actions);
    assert ThreadInv(Run(actions), t) && ThreadInv(Run(actions), u);
  }

  lemma {:induction false} IncreasingIsAtLeastIndex(xs: seq<nat>, i: nat)
    requires i < |xs| && forall j, k :: 0 <= j < k < |xs| ==> xs[j] < xs[k]
    ensures xs[i] >= i
    decreases i
  {
    if i > 0 {
      IncreasingIsAtLeastIndex(xs, i - 1);
    }
  }

  /** The clients ever published never exceed the resets plus one. */
  lemma ClientsBoundedByResets(actions: seq<Action>)
    ensures |Run(actions).published| <= Run(actions).resets + 1
  {
    InvHolds(actions);
    var p := Run(actions).published;
    if p != [] {
      IncreasingIsAtLeastIndex(p, |p| - 1);
    }
  }

  /** Two calls that read a client with the same number of resets behind them got the same client. */
  lemma SameEpochSameClient(actions: seq<Action>, i: nat, j: nat)
    requires i < |Run(actions).outcomes| && j < |Run(actions).outcomes|
    requires var o, p := Run(actions).outcomes[i], Run(actions).outcomes[j];
             o.result.Some? && p.result.Some? && o.cause.FromGlobal? && p.cause.FromGlobal?
             && o.cause.resets == p.cause.resets
    ensures Run(actions).outcomes[i].result == Run(actions).outcomes[j].result
  {
    InvHolds(actions);
    var s := Run(actions);
    var c, d := s.outcomes[i].result.value, s.outcomes[j].result.value;
    assert GoodOutcome(s, s.outcomes[i]) && GoodOutcome(s, s.outcomes[j]);
    assert s.published[c] == s.published[d];
  }

  // ---------- What the causes of None rest on ----------

  /** The place that a thread's latest step left, and how that step's condition came out. */
  function LatestStep(actions: seq<Action>, t: Thread): Option<(Pc, bool)> {
    if actions == [] then None
    else
      var before, a := actions[..|actions| - 1], actions[|actions| - 1];
      if a.thread == t && Enabled(Run(before), a) then
        if a.Advance? then Some((Run(before).PcOf(t), a.ok)) else None
      else LatestStep(before, t)
  }

  /** At some step of the run this thread's own construction failed, or it found the configuration invalid. */
  ghost predicate OwnFailure(actions: seq<Action>, t: Thread, pc: Pc) {
    exists k :: 0 <= k < |actions| && FailsAt(actions, k, t, pc)
  }

  predicate FailsAt(actions: seq<Action>, k: nat, t: Thread, pc: Pc)
    requires k < |actions|
  {
    actions[k] == Advance(t, false) && Run(actions[..k]).PcOf(t) == pc
  }

  lemma FailureStays(actions: seq<Action>, t: Thread, pc: Pc)
    requires actions != [] && OwnFailure(actions[..|actions| - 1], t, pc)
    ensures OwnFailure(actions, t, pc)
  {
    var before := actions[..|actions| - 1];
    var k :| 0 <= k < |before| && FailsAt(before, k, t, pc);
    assert before[..k] == actions[..k];
    assert FailsAt(actions, k, t, pc);
  }

  /** A cause that names a failure is backed by one of that same thread. */
  ghost predicate Backed(actions: seq<Action>, o: Outcome) {
    && (o.cause.ConstructionFailed? ==> OwnFailure(actions, o.thread, Construct))
    && (o.cause.InvalidConfig? ==> OwnFailure(actions, o.thread, ReadConfig))
  }

  lemma BackedStays(actions: seq<Action>, o: Outcome)
    requires actions != [] && Backed(actions[..|actions| - 1], o)
    ensures Backed(actions, o)
  {
    if o.cause.ConstructionFailed? {
      FailureStays(actions, o.thread, Construct);
    } else if o.cause.InvalidConfig? {
      FailureStays(actions, o.thread, ReadConfig);
    }
  }

  lemma FailureIsNow(actions: seq<Action>, t: Thread)
    requires actions != [] && actions[|actions| - 1] == Advance(t, false)
    ensures OwnFailure(actions, t, Run(actions[..|actions| - 1]).PcOf(t))
  {
    assert FailsAt(actions, |actions| - 1, t, Run(actions[..|actions| - 1]).PcOf(t));
  }

  lemma WhereCallsReturn(s: State, t: Thread, ok: bool)
    requires Enabled(s, Advance(t, ok))
    ensures var pc := s.PcOf(t);
            var s' := Step(s, Advance(t, ok));
            if pc.FastReturn? || pc.LastRead? then s'.outcomes == s.outcomes + [s.Reading(t, pc.since)]
            else if pc.LeaveAndReturn? then s'.outcomes == s.outcomes + [pc.outcome]
            else if pc.ReadConfig? && !ok then s'.outcomes == s.outcomes + [Outcome(t, None, InvalidConfig)]
            else s'.outcomes == s.outcomes
  {
  }

  /** A thread gets to its way out of the lock with None exactly by a construction of its own that fails. */
  lemma EntersLeaveExactly(s: State, a: Action)
    requires Inv(s) && Enabled(s, a) && Step(s, a).PcOf(a.thread).LeaveAndReturn?
    ensures a.Advance? && Step(s, a).PcOf(a.thread).outcome.thread == a.thread
    ensures var o := Step(s, a).PcOf(a.thread).outcome;
            var pc := s.PcOf(a.thread);
            && (pc == Construct && !a.ok <==> o.result.None?)
            && (o.result.None? <==> o.cause.ConstructionFailed?)
            && !o.cause.InvalidConfig?
  {
    assert ThreadInv(s, a.thread);
  }

  /** A thread on its way out of the lock holds None exactly if its latest step was its own failed construction. */
  lemma {:induction false} LeavesEmptyHandedExactly(actions: seq<Action>, t: Thread)
    requires Run(actions).PcOf(t).LeaveAndReturn?
    ensures Run(actions).PcOf(t).outcome.result.None? <==> LatestStep(actions, t) == Some((Construct, false))
  {
    var before, a := actions[..|actions| - 1], actions[|actions| - 1];
    if a.thread == t && Enabled(Run(before), a) {
      InvHolds(before);
      EntersLeaveExactly(Run(before), a);
    } else {
      assert Run(before).PcOf(t) == Run(actions).PcOf(t);
      LeavesEmptyHandedExactly(before, t);
    }
  }

  /** The outcome that a step makes ready for return is backed. */
  lemma HeldIsBacked(actions: seq<Action>)
    requires actions != []
    requires var s, a := Run(actions[..|actions| - 1]), actions[|actions| - 1];
             Enabled(s, a) && Step(s, a).PcOf(a.thread).LeaveAndReturn?
    ensures Backed(actions, Run(actions).PcOf(actions[|actions| - 1].thread).outcome)
  {
    var s, a := Run(actions[..|actions| - 1]), actions[|actions| - 1];
    InvHolds(actions[..|actions| - 1]);
    EntersLeaveExactly(s, a);
    if !a.ok {
      FailureIsNow(actions, a.thread);
    }
  }

  /** Whatever a thread holds ready for return is backed. */
  ghost predicate HeldBacked(actions: seq<Action>, t: Thread) {
    Run(actions).PcOf(t).LeaveAndReturn? ==> Backed(actions, Run(actions).PcOf(t).outcome)
  }

  lemma StepLeavesOthers(s: State, a: Action, t: Thread)
    requires Enabled(s, a) && t != a.thread
    ensures Step(s, a).PcOf(t) == s.PcOf(t)
  {
  }

  lemma OtherStepLeaves(actions: seq<Action>, t: Thread)
    requires actions != []
    requires !(t == actions[|actions| - 1].thread && Enabled(Run(actions[..|actions| - 1]), actions[|actions| - 1]))
    ensures Run(actions).PcOf(t) == Run(actions[..|actions| - 1]).PcOf(t)
  {
    var s, a := Run(actions[..|actions| - 1]), actions[|actions| - 1];
    if Enabled(s, a) {
      StepLeavesOthers(s, a, t);
    }
  }

  lemma {:induction false} HeldIsAlwaysBacked(actions: seq<Action>, t: Thread)
    ensures HeldBacked(actions, t)
  {
    if actions != [] && Run(actions).PcOf(t).LeaveAndReturn? {
      var before, a := actions[..|actions| - 1], actions[|actions| - 1];
      if t == a.thread && Enabled(Run(before), a) {
        HeldIsBacked(actions);
      } else {
        OtherStepLeaves(actions, t);
        HeldIsAlwaysBacked(before, t);
        BackedStays(actions, Run(before).PcOf(t).outcome);
      }
    }
  }

  /** The outcome that a step returns is backed. */
  lemma ReturnedIsBacked(actions: seq<Action>, o: Outcome)
    requires actions != []
    requires var s, a := Run(actions[..|actions| - 1]), actions[|actions| - 1];
             Enabled(s, a) && a.Advance? && Step(s, a).outcomes == s.outcomes + [o]
    ensures Backed(actions, o)
  {
    var s, a := Run(actions[..|actions| - 1]), actions[|actions| - 1];
    var pc := s.PcOf(a.thread);
    WhereCallsReturn(s, a.thread, a.ok);
    assert o == Step(s, a).outcomes[|s.outcomes|];
    if pc.LeaveAndReturn? {
      HeldIsAlwaysBacked(actions[..|actions| - 1], a.thread);
      BackedStays(actions, o);
    } else if pc.ReadConfig? && !a.ok {
      FailureIsNow(actions, a.thread);
    }
  }

  lemma {:induction false} CausesAreBacked(actions: seq<Action>, i: nat)
    requires i < |Run(actions).outcomes|
    ensures Backed(actions, Run(actions).outcomes[i])
  {
    var before, a := actions[..|actions| - 1], actions[|actions| - 1];
    var s := Run(before);
    if Enabled(s, a) && a.Advance? {
      WhereCallsReturn(s, a.thread, a.ok);
    }
    if i < |s.outcomes| {
      CausesAreBacked(before, i);
      BackedStays(actions, s.outcomes[i]);
    } else {
      ReturnedIsBacked(actions, Run(actions).outcomes[i]);
    }
  }

  /**
   Without resets there is one client: every non-None result is it, and None is returned only to a
   thread that found the configuration invalid or whose own construction failed in that run.
   */
  lemma SingletonWithoutResets(actions: seq<Action>)
    requires Run(actions).resets == 0
    ensures forall o <- Run(actions).outcomes ::
              if o.result.Some? then o.result == Some(0)
              else OwnFailure(actions, o.thread, ReadConfig) || OwnFailure(actions, o.thread, Construct)
  {
    InvHolds(actions);
    ClientsBoundedByResets(actions);
    var s := Run(actions);
    forall o <- s.outcomes
      ensures GoodOutcome(s, o) && Backed(actions, o)
    {
      var i :| 0 <= i < |s.outcomes| && s.outcomes[i] == o;
      CausesAreBacked(actions, i);
    }
  }

  /** So if no configuration is invalid and no construction fails, every call without resets returns the one client. */
  lemma EveryCallGetsTheClient(actions: seq<Action>)
    requires Run(actions).resets == 0 && forall a <- actions :: a.Advance? ==> a.ok
    ensures forall o <- Run(actions).outcomes :: o.result == Some(0)
  {
    SingletonWithoutResets(actions);
    forall o <- Run(actions).outcomes
      ensures o.result == Some(0)
    {
      NoFailure(actions, o.thread, ReadConfig);
      NoFailure(actions, o.thread, Construct);
    }
  }

  lemma NoFailure(actions: seq<Action>, t: Thread, pc: Pc)
    requires forall a <- actions :: a.Advance? ==> a.ok
    ensures !OwnFailure(actions, t, pc)
  {
    forall k | 0 <= k < |actions|
      ensures !FailsAt(actions, k, t, pc)
    {
      assert actions[k] in actions;
    }
  }

  /** With resets, a call can also return None by reading the global after a reset overtook it, and only then. */
  lemma NoneMeansOvertaken(actions: seq<Action>, i: nat)
    requires i < |Run(actions).outcomes| && Run(actions).outcomes[i].result.None?
    requires Run(actions).outcomes[i].cause.FromGlobal?
    ensures var cause := Run(actions).outcomes[i].cause;
            cause.since < cause.resets <= Run(actions).resets
  {
    InvHolds(actions);
    assert GoodOutcome(Run(actions), Run(actions).outcomes[i]);
  }

  /** A reset came after thread `t` knew the global to be set, and no client has been published since the last reset. */
  predicate Overtaken(s: State, since: nat) {
    since < s.resets && forall i :: 0 <= i < |s.published| ==> s.published[i] < s.resets
  }

  lemma UnsetExactly(s: State, t: Thread)
    requires Inv(s) && (s.PcOf(t).FastReturn? || s.PcOf(t).LastRead?)
    ensures s.global.None? <==> Overtaken(s, s.PcOf(t).since)
  {
    assert ThreadInv(s, t);
    if s.global.Some? {
      assert s.published[s.global.value] == s.resets;
    }
  }

  predicate Returns(s: State, t: Thread, ok: bool)
    requires Enabled(s, Advance(t, ok))
  {
    |Step(s, Advance(t, ok)).outcomes| > |s.outcomes|
  }

  /**
   Exactly when a returning call yields None: its config is invalid, its latest step was its own
   construction and failed, or it reads the global without the lock after a reset has overtaken it.
   */
  lemma ReturnsNoneExactly(actions: seq<Action>, t: Thread, ok: bool)
    requires Enabled(Run(actions), Advance(t, ok)) && Returns(Run(actions), t, ok)
    ensures var s := Run(actions);
            var pc := s.PcOf(t);
            Step(s, Advance(t, ok)).outcomes[|s.outcomes|].result.None? <==>
              || (pc.ReadConfig? && !ok)
              || (pc.LeaveAndReturn? && LatestStep(actions, t) == Some((Construct, false)))
              || ((pc.FastReturn? || pc.LastRead?) && Overtaken(s, pc.since))
  {
    InvHolds(actions);
    var s := Run(actions);
    WhereCallsReturn(s, t, ok);
    assert ThreadInv(s, t);
    if s.PcOf(t).FastReturn? || s.PcOf(t).LastRead? {
      UnsetExactly(s, t);
    } else if s.PcOf(t).LeaveAndReturn? {
      LeavesEmptyHandedExactly(actions, t);
    }
  }

  lemma RunExtends(actions: seq<Action>, a: Action)
    requires Enabled(Run(actions), a)
    ensures Run(actions + [a]) == Step(Run(actions), a)
  {
    assert (actions + [a])[..|actions|] == actions;
  }

  /** Thread 0 alone, up to its last, unlocked read. */
  lemma CallerUpToLastRead() returns (actions: seq<Action>)
    ensures Run(actions) == State(map[0 := LastRead(0)], Some(0), None, [0], 0, [])
    ensures forall a <- actions :: a.Advance? ==> a.ok
  {
    var get := Advance(0, true);
    actions := [CallGet(0)];
    RunExtends([], CallGet(0));
    for i := 0 to 7
      invariant forall a <- actions :: a.Advance? ==> a.ok
      invariant Run(actions) == SoloCaller(i)
    {
      RunExtends(actions, get);
      actions := actions + [get];
    }
  }

  /** The state after a lone caller has made i steps. */
  function SoloCaller(i: nat): State
    requires i <= 7
  {
    var s := INITIAL;
    if i == 0 then s.At(0, FirstCheck)
    else if i == 1 then s.At(0, ReadConfig)
    else if i == 2 then s.At(0, AcquireLock)
    else if i == 3 then s.At(0, SecondCheck).(lock := Some(0))
    else if i == 4 then s.At(0, Construct).(lock := Some(0))
    else if i == 5 then s.At(0, Publish).(lock := Some(0))
    else if i == 6 then s.At(0, Leave(0)).(lock := Some(0), global := Some(0), published := [0])
    else s.At(0, LastRead(0)).(global := Some(0), published := [0])
  }

  /** It happens: a caller whose config is valid and whose own construction succeeded gets None. */
  lemma OvertakenCallerGetsNone()
    ensures exists actions: seq<Action> ::
              && Run(actions).outcomes == [Outcome(0, None, FromGlobal(0, 1))]
              && Run(actions).published == [0]
              && forall a <- actions :: a.Advance? ==> a.ok
  {
    var r0 := CallerUpToLastRead();
    var get, reset := Advance(0, true), Advance(1, true);
    var r1 := r0 + [CallReset(1)];
    RunExtends(r0, CallReset(1));
    var r2 := r1 + [reset];
    RunExtends(r1, reset);
    var r3 := r2 + [reset];
    RunExtends(r2, reset);
    var r4 := r3 + [get];
    RunExtends(r3, get);
  }

  /** No deadlock: while some call is under way, some thread can take its next step. */
  lemma NoDeadlock(actions: seq<Action>, t: Thread)
    requires Run(actions).PcOf(t) != Idle
    ensures exists u: Thread :: Run(actions).PcOf(u) != Idle && Enabled(Run(actions), Advance(u, true))
  {
    InvHolds(actions);
    var s := Run(actions);
    if s.lock.Some? {
      assert ThreadInv(s, s.lock.value);
      assert Enabled(s, Advance(s.lock.value, true));
    } else {
      assert Enabled(s, Advance(t, true));
    }
  }
}
