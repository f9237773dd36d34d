/** The node health watch's decision: how probe results become "warn" and "clear". */
module HealthWatchPolicy {
  import opened Basics

  datatype Action = Quiet | Warn(failures: nat) | Clear

  datatype Policy = Policy(threshold: nat, failures: nat, warned: bool) {
    function Record(reachable: bool): (Policy, Action) {
      if reachable then (this.(failures := 0, warned := false), if warned then Clear else Quiet)
      else if warned || failures + 1 < threshold then (this.(failures := failures + 1), Quiet)
      else (this.(failures := failures + 1, warned := true), Warn(failures + 1))
    }

    function Reset(): Policy {
      this.(failures := 0, warned := false)
    }
  }

  /** A threshold below one means one. */
  function Threshold(failuresBeforeWarn: int): (n: nat)
    ensures n >= 1 && n >= failuresBeforeWarn && (n > 1 ==> n == failuresBeforeWarn)
  {
    if failuresBeforeWarn < 1 then 1 else failuresBeforeWarn
  }

  class ProxyHealthWatchPolicy {
    const failuresBeforeWarn: nat
    var consecutiveFailures: nat
    var warningShown: bool

    function View(): Policy
      reads this
    {
      Policy(failuresBeforeWarn, consecutiveFailures, warningShown)
    }

    constructor (failuresBeforeWarn: int)
      ensures View() == Policy(Threshold(failuresBeforeWarn), 0, false)
    {
      this.failuresBeforeWarn := if failuresBeforeWarn < 1 then 1 else failuresBeforeWarn;
      consecutiveFailures := 0;
      warningShown := false;
    }

    method RecordResult(reachable: bool) returns (action: Action)
      modifies this
      ensures (View(), action) == old(View()).Record(reachable)
      ensures action.Clear? <==> reachable && old(warningShown)
      ensures action.Warn? <==> !reachable && !old(warningShown) && old(consecutiveFailures) + 1 >= failuresBeforeWarn
      ensures consecutiveFailures == (if reachable then 0 else old(consecutiveFailures) + 1)
      ensures warningShown <==> !reachable && (old(warningShown) || action.Warn?)
    {
      if reachable {
        var hadWarning := warningShown;
        consecutiveFailures := 0;
        warningShown := false;
        return if hadWarning then Clear else Quiet;
      }
      consecutiveFailures := consecutiveFailures + 1;
      if warningShown || consecutiveFailures < failuresBeforeWarn {
        return Quiet;
      }
      warningShown := true;
      return Warn(consecutiveFailures);
    }

    method Reset()
      modifies this
      ensures View() == old(View()).Reset() && consecutiveFailures == 0 && !warningShown
    {
      consecutiveFailures := 0;
      warningShown := false;
    }
  }

  // ----- What any sequence of results since a reset leads to --------------------------------------

  /** The policy after `results`, oldest first, starting from a reset. */
  function After(threshold: nat, results: seq<bool>): Policy {
    if results == [] then Policy(threshold, 0, false)
    else After(threshold, Front(results)).Record(Last(results)).0
  }

  /** The decision on the last of `results`. */
  function Decided(threshold: nat, results: seq<bool>): Action
    requires results != []
  {
    After(threshold, Front(results)).Record(Last(results)).1
  }

  /** Every decision that was not to stay quiet, in order. */
  function Alerts(threshold: nat, results: seq<bool>): seq<Action> {
    if results == [] then []
    else Alerts(threshold, Front(results)) +
         if Decided(threshold, results) == Quiet then [] else [Decided(threshold, results)]
  }

  /** The last `n` results exist and all failed. */
  predicate LastFailed(results: seq<bool>, n: nat) {
    n <= |results| && forall k :: |results| - n <= k < |results| ==> !results[k]
  }

  lemma OneMoreFailure(results: seq<bool>, n: nat)
    requires results != []
    ensures LastFailed(results, n + 1) <==> !Last(results) && LastFailed(Front(results), n)
  {
    var front := Front(results);
    assert forall k :: 0 <= k < |front| ==> front[k] == results[k];
    if !Last(results) && LastFailed(front, n) {
      forall k | |results| - (n + 1) <= k < |results| ensures !results[k] {
        assert k < |front| ==> !front[k];
      }
    }
  }

  /** The failure count is the length of the run of failures the results end with. */
  lemma {:induction false} CountsTheRun(threshold: nat, results: seq<bool>)
    requires threshold >= 1
    ensures var p := After(threshold, results);
      p.threshold == threshold && LastFailed(results, p.failures) && !LastFailed(results, p.failures + 1)
    decreases |results|
  {
    if results != [] {
      CountsTheRun(threshold, Front(results));
      var f := After(threshold, Front(results)).failures;
      OneMoreFailure(results, f);
      OneMoreFailure(results, f + 1);
    }
  }

  lemma LongerRunFails(results: seq<bool>, n: nat, m: nat)
    requires n <= m && LastFailed(results, m)
    ensures LastFailed(results, n)
  {
  }

  /** The warning is up exactly when the last `threshold` results all failed. */
  lemma {:induction false} ShownExactlyAfterFailures(threshold: nat, results: seq<bool>)
    requires threshold >= 1
    ensures After(threshold, results).warned <==> LastFailed(results, threshold)
    decreases |results|
  {
    CountsTheRun(threshold, results);
    WarnedIsRunLength(threshold, results);
    var f := After(threshold, results).failures;
    if threshold <= f {
      LongerRunFails(results, threshold, f);
    } else if LastFailed(results, threshold) {
      LongerRunFails(results, f + 1, threshold);
    }
  }

  lemma {:induction false} WarnedIsRunLength(threshold: nat, results: seq<bool>)
    requires threshold >= 1
    ensures After(threshold, results).threshold == threshold
    ensures After(threshold, results).warned <==> After(threshold, results).failures >= threshold
    decreases |results|
  {
    if results != [] {
      WarnedIsRunLength(threshold, Front(results));
    }
  }

  /** Warn fires exactly when a run of failures reaches the threshold, and reports that many;
      Clear exactly when an answer ends a run at least that long. */
  lemma AlertsExactly(threshold: nat, results: seq<bool>)
    requires threshold >= 1 && results != []
    ensures Decided(threshold, results).Warn? <==>
              LastFailed(results, threshold) && !LastFailed(results, threshold + 1)
    ensures Decided(threshold, results).Warn? ==> Decided(threshold, results).failures == threshold
    ensures Decided(threshold, results).Clear? <==> Last(results) && LastFailed(Front(results), threshold)
  {
    var before := Front(results);
    WarnedIsRunLength(threshold, before);
    CountsTheRun(threshold, results);
    ShownExactlyAfterFailures(threshold, before);
    ShownExactlyAfterFailures(threshold, results);
    var f := After(threshold, results).failures;
    if f > threshold {
      LongerRunFails(results, threshold + 1, f);
    } else if LastFailed(results, threshold + 1) {
      LongerRunFails(results, f + 1, threshold + 1);
    }
  }

  /** Warn and Clear alternate, Warn first. */
  lemma {:induction false} AlertsAlternate(threshold: nat, results: seq<bool>)
    requires threshold >= 1
    ensures var a := Alerts(threshold, results);
      && (forall k :: 0 <= k < |a| ==> if k % 2 == 0 then a[k].Warn? else a[k].Clear?)
      && (After(threshold, results).warned <==> |a| % 2 == 1)
    decreases |results|
  {
    if results != [] {
      AlertsAlternate(threshold, Front(results));
    }
  }
}
