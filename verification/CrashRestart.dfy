/** How often, and after what delay, a crashed core is started again. */
module CrashRestart {
  import opened Basics

  const MAX_CONFLICT_RESTARTS: nat := 1
  const STABLE_RUN_MS := 60000
  const MAX_CRASH_RESTARTS: nat := 5

  /** How a core ended: which one, the TUN circumstances, and how long it had run. */
  datatype Exit = Exit(auxiliary: bool, windows: bool, tun: bool, conflict: bool, runMs: int)

  datatype Decision = Restart(delayMs: int, auxiliary: bool)
                    | Disable(auxiliary: bool)
                    | DisableAfterTunConflict

  datatype Policy = Policy(conflictRetries: nat, coreCrashes: nat, auxiliaryCrashes: nat) {
    function Crashes(auxiliary: bool): nat {
      if auxiliary then auxiliaryCrashes else coreCrashes
    }

    function WithCrashes(auxiliary: bool, n: nat): Policy {
      if auxiliary then this.(auxiliaryCrashes := n) else this.(coreCrashes := n)
    }

    predicate Retries(e: Exit) {
      !e.auxiliary && e.windows && e.tun && e.conflict && conflictRetries < MAX_CONFLICT_RESTARTS
    }

    function Decide(e: Exit): (Policy, Decision) {
      if Retries(e) then (this.(conflictRetries := conflictRetries + 1), Restart(1000, false))
      else if !e.auxiliary && e.conflict then (this, DisableAfterTunConflict)
      else
        var n := (if e.runMs > STABLE_RUN_MS then 0 else Crashes(e.auxiliary)) + 1;
        (WithCrashes(e.auxiliary, n),
         if n > MAX_CRASH_RESTARTS then Disable(e.auxiliary)
         else Restart(if 3000 * n < 30000 then 3000 * n else 30000, e.auxiliary))
    }
  }

  class ProxyCrashRestartPolicy {
    var coreTunAdapterConflictRetryCount: nat
    var coreCrashRestartCount: nat
    var auxiliaryCrashRestartCount: nat

    function View(): Policy
      reads this
    {
      Policy(coreTunAdapterConflictRetryCount, coreCrashRestartCount, auxiliaryCrashRestartCount)
    }

    constructor ()
      ensures View() == Policy(0, 0, 0)
    {
      coreTunAdapterConflictRetryCount, coreCrashRestartCount, auxiliaryCrashRestartCount := 0, 0, 0;
    }

    method ResetTunConflictRetries()
      modifies this
      ensures View() == old(View()).(conflictRetries := 0)
    {
      coreTunAdapterConflictRetryCount := 0;
    }

    method Decide(e: Exit) returns (decision: Decision)
      modifies this
      ensures (View(), decision) == old(View()).Decide(e)
      ensures !e.auxiliary && e.conflict ==>
                && auxiliaryCrashRestartCount == old(auxiliaryCrashRestartCount)
                && coreCrashRestartCount == old(coreCrashRestartCount)
                && (decision == Restart(1000, false) <==>
                      e.windows && e.tun && old(coreTunAdapterConflictRetryCount) == 0)
                && (decision == Restart(1000, false) || decision == DisableAfterTunConflict)
                && coreTunAdapterConflictRetryCount
                   == old(coreTunAdapterConflictRetryCount) + if decision.Restart? then 1 else 0
      ensures e.auxiliary || !e.conflict ==>
                var before := old(if e.auxiliary then auxiliaryCrashRestartCount else coreCrashRestartCount);
                var n := if e.runMs > 60000 then 1 else before + 1;
                && decision == (if n <= 5 then Restart(3000 * n, e.auxiliary) else Disable(e.auxiliary))
                && auxiliaryCrashRestartCount == (if e.auxiliary then n else old(auxiliaryCrashRestartCount))
                && coreCrashRestartCount == (if e.auxiliary then old(coreCrashRestartCount) else n)
                && coreTunAdapterConflictRetryCount == old(coreTunAdapterConflictRetryCount)
    {
      if !e.auxiliary && e.windows && e.tun && e.conflict
         && coreTunAdapterConflictRetryCount < MAX_CONFLICT_RESTARTS {
        coreTunAdapterConflictRetryCount := coreTunAdapterConflictRetryCount + 1;
        return Restart(1000, false);
      }
      if !e.auxiliary && e.conflict {
        return DisableAfterTunConflict;
      }
      var count := if e.auxiliary then auxiliaryCrashRestartCount else coreCrashRestartCount;
      if e.runMs > STABLE_RUN_MS {
        count := 0;
      }
      count := count + 1;
      if e.auxiliary {
        auxiliaryCrashRestartCount := count;
      } else {
        coreCrashRestartCount := count;
      }
      if count > MAX_CRASH_RESTARTS {
        return Disable(e.auxiliary);
      }
      var delayMs := if 3000 * count < 30000 then 3000 * count else 30000;
      return Restart(delayMs, e.auxiliary);
    }
  }

  // ----- Traces ---------------------------------------------------------------------------------

  datatype Event = Ended(exit: Exit) | ConflictReset

  /** The policy after the events, oldest first, starting fresh. */
  function After(es: seq<Event>): Policy {
    if es == [] then Policy(0, 0, 0) else
    match Last(es)
    case Ended(exit) => After(Front(es)).Decide(exit).0
    case ConflictReset => After(Front(es)).(conflictRetries := 0)
  }

  /** What is decided when a core ends this way after these events. */
  function Decided(es: seq<Event>, exit: Exit): Decision {
    After(es).Decide(exit).1
  }

  /** An end that counts as a crash of that core: the main core's conflicts do not. */
  predicate Crash(e: Event, auxiliary: bool) {
    e.Ended? && e.exit.auxiliary == auxiliary && (auxiliary || !e.exit.conflict)
  }

  predicate LongRun(e: Event) {
    e.Ended? && e.exit.runMs > STABLE_RUN_MS
  }

  /** The crashes of one core from its last one after a long run on, all of them if none was. */
  function CrashesSinceLongRun(es: seq<Event>, auxiliary: bool): nat {
    if es == [] then 0
    else if !Crash(Last(es), auxiliary) then CrashesSinceLongRun(Front(es), auxiliary)
    else if LongRun(Last(es)) then 1
    else CrashesSinceLongRun(Front(es), auxiliary) + 1
  }

  lemma {:induction false} CountsSinceLongRun(es: seq<Event>, auxiliary: bool)
    ensures After(es).Crashes(auxiliary) == CrashesSinceLongRun(es, auxiliary)
    decreases |es|
  {
    if es != [] {
      CountsSinceLongRun(Front(es), auxiliary);
    }
  }

  /** A crash is answered by its number since the last long run alone: up to the fifth a restart
      after three seconds times that number, never the cap; from the sixth on none. */
  lemma CrashDecisionIsItsNumber(es: seq<Event>, exit: Exit)
    requires Crash(Ended(exit), exit.auxiliary)
    ensures var n := CrashesSinceLongRun(es + [Ended(exit)], exit.auxiliary);
      && (n <= 5 ==> Decided(es, exit) == Restart(3000 * n, exit.auxiliary) && 3000 * n <= 15000)
      && (n > 5 ==> Decided(es, exit) == Disable(exit.auxiliary))
  {
    CountsSinceLongRun(es, exit.auxiliary);
    assert Front(es + [Ended(exit)]) == es;
  }

  /** The crashes of one core in a trace that were answered by a restart. */
  function CrashRestarts(before: seq<Event>, es: seq<Event>, auxiliary: bool): nat {
    if es == [] then 0
    else CrashRestarts(before, Front(es), auxiliary) +
         if Crash(Last(es), auxiliary) && Decided(before + Front(es), Last(es).exit).Restart? then 1 else 0
  }

  predicate NoLongRun(es: seq<Event>, auxiliary: bool) {
    forall k :: 0 <= k < |es| ==> !(Crash(es[k], auxiliary) && LongRun(es[k]))
  }

  lemma {:induction false} RestartsUseTheBudget(before: seq<Event>, es: seq<Event>, auxiliary: bool)
    requires NoLongRun(es, auxiliary)
    ensures var n := CrashesSinceLongRun(before, auxiliary);
      && CrashesSinceLongRun(before + es, auxiliary) >= n
      && CrashRestarts(before, es, auxiliary)
         == Capped(CrashesSinceLongRun(before + es, auxiliary)) - Capped(n)
    decreases |es|
  {
    if es == [] {
      assert before + es == before;
    } else {
      RestartsUseTheBudget(before, Front(es), auxiliary);
      assert Front(before + es) == before + Front(es) && Last(before + es) == Last(es);
      assert NoLongRun(Front(es), auxiliary);
      if Crash(Last(es), auxiliary) {
        assert !LongRun(Last(es));
        assert before + es == (before + Front(es)) + [Ended(Last(es).exit)];
        CrashDecisionIsItsNumber(before + Front(es), Last(es).exit);
      }
    }
  }

  function Capped(n: nat): nat {
    if n < MAX_CRASH_RESTARTS then n else MAX_CRASH_RESTARTS
  }

  /** Between two long runs of a core at most five of its crashes are answered by a restart,
      whatever else happens meanwhile. */
  lemma AtMostFiveRestarts(before: seq<Event>, es: seq<Event>, auxiliary: bool)
    requires es != [] && NoLongRun(es[1..], auxiliary)
    ensures CrashRestarts(before, es, auxiliary) <= 5
  {
    hide Decided;
    var first := before + [es[0]];
    RestartsUseTheBudget(first, es[1..], auxiliary);
    SplitRestarts(before, es, auxiliary);
    if Crash(es[0], auxiliary) {
      assert Last(first) == es[0];
      assert CrashesSinceLongRun(first, auxiliary) >= 1;
    }
  }

  lemma {:induction false} SplitRestarts(before: seq<Event>, es: seq<Event>, auxiliary: bool)
    requires es != []
    ensures CrashRestarts(before, es, auxiliary) <=
            (if Crash(es[0], auxiliary) then 1 else 0) + CrashRestarts(before + [es[0]], es[1..], auxiliary)
    decreases |es|
  {
    hide Decided;
    if |es| > 1 {
      SplitRestarts(before, Front(es), auxiliary);
      assert Front(es)[1..] == Front(es[1..]);
      assert before + Front(es) == (before + [es[0]]) + Front(es[1..]);
    } else {
      assert Front(es) == [] && es[1..] == [];
    }
  }

  /** Once disabled, a core stays disabled until one of its runs was long. */
  lemma OnlyALongRunReenables(before: seq<Event>, es: seq<Event>, exit: Exit, auxiliary: bool)
    requires CrashesSinceLongRun(before, auxiliary) > 5 && NoLongRun(es, auxiliary)
    requires Crash(Ended(exit), auxiliary)
    ensures Decided(before + es, exit) == Disable(auxiliary) <==> !LongRun(Ended(exit))
  {
    RestartsUseTheBudget(before, es, auxiliary);
    CrashDecisionIsItsNumber(before + es, exit);
    assert Front(before + es + [Ended(exit)]) == before + es;
  }

  /** The trace with only one core's crashes in it. */
  function Only(es: seq<Event>, auxiliary: bool): seq<Event> {
    if es == [] then []
    else Only(Front(es), auxiliary) + if Crash(Last(es), auxiliary) then [Last(es)] else []
  }

  lemma {:induction false} OthersDoNotCount(es: seq<Event>, auxiliary: bool)
    ensures CrashesSinceLongRun(Only(es, auxiliary), auxiliary) == CrashesSinceLongRun(es, auxiliary)
    decreases |es|
  {
    if es != [] {
      OthersDoNotCount(Front(es), auxiliary);
      if Crash(Last(es), auxiliary) {
        assert Front(Only(es, auxiliary)) == Only(Front(es), auxiliary);
      } else {
        assert Only(es, auxiliary) == Only(Front(es), auxiliary);
      }
    }
  }

  /** Neither core's budget is touched by the other's crashes, by conflicts, or by conflict resets. */
  lemma BudgetsDoNotInterfere(es: seq<Event>, exit: Exit)
    requires Crash(Ended(exit), exit.auxiliary)
    ensures Decided(es, exit) == Decided(Only(es, exit.auxiliary), exit)
  {
    CountsSinceLongRun(es, exit.auxiliary);
    CountsSinceLongRun(Only(es, exit.auxiliary), exit.auxiliary);
    OthersDoNotCount(es, exit.auxiliary);
  }

  // ----- Conflicts ------------------------------------------------------------------------------

  /** A main-core end the conflict retry is meant for. */
  predicate Retryable(e: Event) {
    e.Ended? && !e.exit.auxiliary && e.exit.windows && e.exit.tun && e.exit.conflict
  }

  /** One such end since the last reset. */
  predicate RetriedSinceReset(es: seq<Event>) {
    es != [] && Last(es) != ConflictReset && (Retryable(Last(es)) || RetriedSinceReset(Front(es)))
  }

  lemma {:induction false} RetryCountIsHistory(es: seq<Event>)
    ensures After(es).conflictRetries == if RetriedSinceReset(es) then 1 else 0
    decreases |es|
  {
    if es != [] {
      RetryCountIsHistory(Front(es));
    }
  }

  /** A conflict of the main core is retried, after one second, exactly when it is the first
      retryable one since the last reset; every other conflict disables restarting. */
  lemma {:induction false} ConflictRetriedOncePerReset(es: seq<Event>, exit: Exit)
    requires !exit.auxiliary && exit.conflict
    ensures Decided(es, exit) == if Retryable(Ended(exit)) && !RetriedSinceReset(es) then Restart(1000, false)
                                 else DisableAfterTunConflict
  {
    RetryCountIsHistory(es);
  }
}
