/** One unbroken streak of failures in a group: which members the handlers switch to before the
    ceiling stops the switching.  The ceiling's stated purpose is that every other member gets exactly
    one switch; that is true of the round robin, and the exact condition for it is proved here. */
module SwitchCoverage {
  import opened Basics
  import opened SwitchGroup
  import opened AutoSwitch

  /** A streak is played in one group: the servers and the location stay, and only the current server
      moves, to wherever the last switch went. */
  ghost predicate FixedGroup(env: Env, ids: seq<ServerId>) {
    && env.enabled && !env.occupied && env.groupWired && env.probeWired
    && DistinctIds(env.servers) && ids == MemberIds(env.servers, env.location) && |ids| >= 2
  }

  /** What one failure of the streak meets: the clock and the measurements then, what the probe runner
      answers, and the clock and the measurements once a probe it started is over. */
  datatype Round = Round(now: int, warm: WarmMap, buildable: set<string>, starts: bool, later: int, measured: WarmMap)

  function Seen(env: Env, current: string, now: int, r: Round): Env {
    env.(currentServer := current, now := now, buildable := r.buildable, probeStarts := r.starts)
  }

  /** One failure, followed by the completion of the probe it started, if it started one. */
  function Resolve(p: Policy, env: Env, current: string, r: Round): (Policy, Option<string>) {
    var failed := OnSessionFailure(p.(warm := r.warm), Seen(env, current, r.now, r));
    if !failed.policy.failoverProbePending then (failed.policy, failed.switchTo) else
    var finished := OnFailoverProbeFinished(failed.policy.(warm := r.measured), Seen(env, current, r.later, r));
    (finished.policy, finished.switchTo)
  }

  /** The targets of the failures in a row, starting with `current` failing. */
  function Targets(p: Policy, env: Env, current: string, rounds: seq<Round>): seq<string>
    decreases |rounds|
  {
    if rounds == [] then [] else
    var (p', target) := Resolve(p, env, current, rounds[0]);
    if target.None? then [] else [target.value] + Targets(p', env, target.value, rounds[1..])
  }

  /** Every member but the failed one is tried, and exactly once. */
  ghost predicate TriesEveryoneElse(targets: seq<string>, ids: seq<ServerId>, failed: nat)
    requires failed < |ids|
  {
    SwitchGroup.Distinct(targets) && forall id :: id in targets <==> id in ids && id != ids[failed]
  }

  // ----- The walk over positions ----------------------------------------------------------------

  /** The position after `i`, wrapping. */
  function Successor(i: nat, n: nat): (next: nat)
    requires i < n
    ensures next < n
  {
    if i + 1 == n then 0 else i + 1
  }

  lemma SuccessorIsModular(i: nat, n: nat)
    requires i < n
    ensures Successor(i, n) == (i + 1) % n
  {
    if i + 1 == n {
      assert (i + 1) % n == 0;
    }
  }

  /** Where the group goes on these measurements when the member at `current` fails: the best warm
      member, or the next one. */
  function NextIndex(ids: seq<ServerId>, current: nat, warm: WarmMap, now: int): (next: nat)
    requires current < |ids|
    ensures next < |ids|
  {
    var best := BestIndex(ids, ids[current], warm, now, WARM_RESULT_TTL_MS);
    if best >= 0 then best else Successor(current, |ids|)
  }

  /** The measurements a round is decided on: those at the failure, unless they name nobody and a
      probe starts. */
  predicate DecidedLater(env: Env, ids: seq<ServerId>, current: nat, r: Round)
    requires current < |ids|
  {
    BestIndex(ids, ids[current], r.warm, r.now, WARM_RESULT_TTL_MS) == -1 && ProbeStarts(env, ids, r)
  }

  predicate ProbeStarts(env: Env, ids: seq<ServerId>, r: Round) {
    ProbeItems(RankableIds(ids, env.servers), r.buildable) != [] && r.starts
  }

  function NextIn(env: Env, ids: seq<ServerId>, current: nat, r: Round): (next: nat)
    requires current < |ids|
    ensures next < |ids|
  {
    if DecidedLater(env, ids, current, r) then NextIndex(ids, current, r.measured, r.later)
    else NextIndex(ids, current, r.warm, r.now)
  }

  /** The ids at the positions the rounds lead to. */
  function Walk(env: Env, ids: seq<ServerId>, current: nat, rounds: seq<Round>): seq<string>
    requires current < |ids|
    decreases |rounds|
  {
    if rounds == [] then [] else
    var next := NextIn(env, ids, current, rounds[0]);
    [ids[next]] + Walk(env, ids, next, rounds[1..])
  }

  lemma FixedGroupScan(env: Env, ids: seq<ServerId>, current: nat, now: int, r: Round)
    requires FixedGroup(env, ids) && current < |ids|
    ensures ScanCurrentGroup(Seen(env, ids[current], now, r)) == GroupScan(ids, current)
    ensures Trim(ids[current]) == ids[current]
  {
    MembersAreTrimmed(env.servers, env.location, ids[current]);
    MembersAreDistinct(env.servers, env.location);
    var last := LastIndexOf(ids, ids[current]);
    assert last == current;
  }

  /** A failure below the ceiling either switches at once or starts a probe. */
  lemma FailureSwitchesOrAsks(p: Policy, env: Env, ids: seq<ServerId>, current: nat, r: Round)
    requires FixedGroup(env, ids) && current < |ids| && !p.failoverProbePending
    ensures var reaction := OnSessionFailure(p.(warm := r.warm), Seen(env, ids[current], r.now, r));
      if p.consecutiveSwitches >= |ids| - 1 then
        reaction.policy == p.(warm := r.warm) && reaction.switchTo == None
      else if DecidedLater(env, ids, current, r) then
        reaction.policy == p.(warm := r.warm, failoverProbePending := true)
      else
        && reaction.policy == p.(warm := r.warm, consecutiveSwitches := p.consecutiveSwitches + 1)
        && reaction.switchTo == Some(ids[NextIndex(ids, current, r.warm, r.now)])
  {
    hide BestIndex, ScanCurrentGroup, ProbeItems, RankableIds, Trim;
    FixedGroupScan(env, ids, current, r.now, r);
    SuccessorIsModular(current, |ids|);
  }

  /** A finished probe below the ceiling switches. */
  lemma FinishSwitches(p: Policy, env: Env, ids: seq<ServerId>, current: nat, r: Round)
    requires FixedGroup(env, ids) && current < |ids| && p.consecutiveSwitches < |ids| - 1
    ensures var reaction := OnFailoverProbeFinished(p, Seen(env, ids[current], r.later, r));
      && reaction.policy == p.(failoverProbePending := false, consecutiveSwitches := p.consecutiveSwitches + 1)
      && reaction.switchTo == Some(ids[NextIndex(ids, current, p.warm, r.later)])
  {
    hide BestIndex, ScanCurrentGroup, Trim;
    FixedGroupScan(env, ids, current, r.later, r);
    SuccessorIsModular(current, |ids|);
  }

  /** One failure below the ceiling ends with a switch to the next position, probe or no probe. */
  lemma FailureMovesOn(p: Policy, env: Env, ids: seq<ServerId>, current: nat, r: Round)
    requires FixedGroup(env, ids) && current < |ids| && !p.failoverProbePending
    ensures var (p', target) := Resolve(p, env, ids[current], r);
      && !p'.failoverProbePending
      && if p.consecutiveSwitches < |ids| - 1
         then p'.consecutiveSwitches == p.consecutiveSwitches + 1
              && target == Some(ids[NextIn(env, ids, current, r)])
         else p'.consecutiveSwitches == p.consecutiveSwitches && target == None
  {
    hide OnSessionFailure, OnFailoverProbeFinished, NextIndex, DecidedLater, FixedGroup;
    FailureSwitchesOrAsks(p, env, ids, current, r);
    if p.consecutiveSwitches < |ids| - 1 && DecidedLater(env, ids, current, r) {
      FinishSwitches(p.(warm := r.measured, failoverProbePending := true), env, ids, current, r);
    }
  }

  /** A whole streak, whatever clock, measurements and probe answers its failures meet: the failures
      walk from member to member until the ceiling, and nobody is tried after that. */
  lemma {:induction false} StreakWalks(p: Policy, env: Env, ids: seq<ServerId>, current: nat, rounds: seq<Round>)
    requires FixedGroup(env, ids) && current < |ids| && !p.failoverProbePending
    requires p.consecutiveSwitches < |ids|
    ensures var left := |ids| - 1 - p.consecutiveSwitches;
      Targets(p, env, ids[current], rounds)
      == Walk(env, ids, current, if |rounds| < left then rounds else rounds[..left])
    decreases |rounds|
  {
    hide Resolve, NextIn, FixedGroup;
    if rounds != [] {
      FailureMovesOn(p, env, ids, current, rounds[0]);
      var left := |ids| - 1 - p.consecutiveSwitches;
      if left > 0 {
        var (p', _) := Resolve(p, env, ids[current], rounds[0]);
        StreakWalks(p', env, ids, NextIn(env, ids, current, rounds[0]), rounds[1..]);
        if |rounds| >= left {
          assert rounds[..left][1..] == rounds[1..][..left - 1];
        }
      }
    }
  }

  // ----- Round robin ----------------------------------------------------------------------------

  ghost predicate NothingWarm(ids: seq<ServerId>, warm: WarmMap, now: int) {
    forall i :: 0 <= i < |ids| ==> !FreshReachable(warm, ids[i], now, WARM_RESULT_TTL_MS)
  }

  /** No failure of the streak finds a fresh reachable member, not even after its probe. */
  ghost predicate Cold(ids: seq<ServerId>, rounds: seq<Round>) {
    forall k :: 0 <= k < |rounds| ==>
      NothingWarm(ids, rounds[k].warm, rounds[k].now) && NothingWarm(ids, rounds[k].measured, rounds[k].later)
  }

  function Around(i: nat, k: nat, n: nat): nat {
    if i + k < n then i + k else i + k - n
  }

  /** The targets are the ids of the positions after `current`, in order and wrapping. */
  ghost predicate GoesAround(ids: seq<ServerId>, current: nat, targets: seq<string>) {
    forall k :: 0 <= k < |targets| ==> PassesAt(ids, current, targets, k)
  }

  predicate PassesAt(ids: seq<ServerId>, current: nat, targets: seq<string>, k: nat)
    requires k < |targets|
  {
    Around(current, k + 1, |ids|) < |ids| && targets[k] == ids[Around(current, k + 1, |ids|)]
  }

  lemma {:induction false} ColdWalkIsRoundRobin(env: Env, ids: seq<ServerId>, current: nat, rounds: seq<Round>)
    requires current < |ids| && Cold(ids, rounds) && |rounds| < |ids|
    ensures var targets := Walk(env, ids, current, rounds);
      |targets| == |rounds| && GoesAround(ids, current, targets)
    decreases |rounds|
  {
    if rounds != [] {
      hide NextIn, NothingWarm, FreshReachable;
      var next := NextIn(env, ids, current, rounds[0]);
      ColdNext(env, ids, current, rounds[0]);
      ColdWalkIsRoundRobin(env, ids, next, rounds[1..]);
      OneFurtherAround(ids, current, Walk(env, ids, next, rounds[1..]));
    }
  }

  lemma ColdNext(env: Env, ids: seq<ServerId>, current: nat, r: Round)
    requires current < |ids| && NothingWarm(ids, r.warm, r.now) && NothingWarm(ids, r.measured, r.later)
    ensures NextIn(env, ids, current, r) == Successor(current, |ids|)
  {
    hide NothingWarm, BestIndex;
    NobodyToPick(ids, ids[current], r.warm, r.now);
    NobodyToPick(ids, ids[current], r.measured, r.later);
  }

  lemma NobodyToPick(ids: seq<ServerId>, failed: ServerId, warm: WarmMap, now: int)
    requires NothingWarm(ids, warm, now)
    ensures BestIndex(ids, failed, warm, now, WARM_RESULT_TTL_MS) == -1
  {
    forall i | 0 <= i < |ids| ensures !Candidate(ids[i], failed, warm, now, WARM_RESULT_TTL_MS) {
      assert !FreshReachable(warm, ids[i], now, WARM_RESULT_TTL_MS);
    }
  }

  lemma OneFurtherAround(ids: seq<ServerId>, current: nat, rest: seq<string>)
    requires current < |ids| && |rest| + 1 < |ids| && GoesAround(ids, Successor(current, |ids|), rest)
    ensures GoesAround(ids, current, [ids[Successor(current, |ids|)]] + rest)
  {
    var targets := [ids[Successor(current, |ids|)]] + rest;
    forall k | 0 <= k < |targets| ensures PassesAt(ids, current, targets, k) {
      if k > 0 {
        assert targets[k] == rest[k - 1] && PassesAt(ids, Successor(current, |ids|), rest, k - 1);
      }
    }
  }

  /** Round robin in the code's own terms: if no failure of the streak finds anyone warm, n failures
      in a row from any member make n - 1 switches, to every other member once, and the n-th none. */
  lemma RoundRobinTriesEveryone(p: Policy, env: Env, ids: seq<ServerId>, failed: nat, rounds: seq<Round>)
    requires FixedGroup(env, ids) && failed < |ids| && !p.failoverProbePending && p.consecutiveSwitches == 0
    requires |rounds| == |ids| && Cold(ids, rounds)
    ensures var targets := Targets(p, env, ids[failed], rounds);
      |targets| == |ids| - 1 && TriesEveryoneElse(targets, ids, failed)
  {
    hide Targets, FixedGroup, TriesEveryoneElse, NothingWarm;
    FreshStreak(p, env, ids, failed, rounds);
    RoundRobinWalkIsEveryoneElse(env, ids, failed, rounds[..|ids| - 1]);
  }

  lemma RoundRobinWalkIsEveryoneElse(env: Env, ids: seq<ServerId>, failed: nat, rounds: seq<Round>)
    requires SwitchGroup.Distinct(ids) && failed < |ids| && |rounds| == |ids| - 1 && Cold(ids, rounds)
    ensures |Walk(env, ids, failed, rounds)| == |ids| - 1
    ensures TriesEveryoneElse(Walk(env, ids, failed, rounds), ids, failed)
  {
    ColdWalkIsRoundRobin(env, ids, failed, rounds);
    hide Walk, Cold;
    AroundIsEveryoneElse(ids, failed, Walk(env, ids, failed, rounds));
  }

  lemma AroundIsEveryoneElse(ids: seq<ServerId>, failed: nat, targets: seq<string>)
    requires SwitchGroup.Distinct(ids) && failed < |ids| && |targets| == |ids| - 1
    requires GoesAround(ids, failed, targets)
    ensures TriesEveryoneElse(targets, ids, failed)
  {
    forall j, k | 0 <= j < k < |targets| ensures targets[j] != targets[k] {
      assert PassesAt(ids, failed, targets, j) && PassesAt(ids, failed, targets, k);
      assert Around(failed, j + 1, |ids|) != Around(failed, k + 1, |ids|);
    }
    forall id ensures id in targets <==> id in ids && id != ids[failed] {
      if id in ids && id != ids[failed] {
        var i :| 0 <= i < |ids| && ids[i] == id;
        var k := if i > failed then i - failed - 1 else i + |ids| - failed - 1;
        assert Around(failed, k + 1, |ids|) == i && PassesAt(ids, failed, targets, k);
        assert targets[k] == id;
      }
      if id in targets {
        var k :| 0 <= k < |targets| && targets[k] == id;
        assert Around(failed, k + 1, |ids|) != failed && PassesAt(ids, failed, targets, k);
      }
    }
  }

  // ----- Exactly one switch each? ---------------------------------------------------------------

  /** The member looks the same in both: fresh and reachable in both or in neither, at one latency. */
  predicate LooksSame(id: ServerId, warm: WarmMap, now: int, warm': WarmMap, now': int) {
    && (FreshReachable(warm, id, now, WARM_RESULT_TTL_MS) <==> FreshReachable(warm', id, now', WARM_RESULT_TTL_MS))
    && (FreshReachable(warm, id, now, WARM_RESULT_TTL_MS) ==> warm[id].latencyMs == warm'[id].latencyMs)
  }

  ghost predicate SameView(ids: seq<ServerId>, warm: WarmMap, now: int, warm': WarmMap, now': int) {
    forall i :: 0 <= i < |ids| ==> LooksSame(ids[i], warm, now, warm', now')
  }

  /** Whoever fails in this round, the choice falls on what `warm` shows at `now`: that is the view at
      the failure, or nobody was warm then and the probe that starts ends with that view. */
  ghost predicate DecidedOn(env: Env, ids: seq<ServerId>, r: Round, warm: WarmMap, now: int) {
    && SameView(ids, warm, now, r.measured, r.later)
    && (SameView(ids, warm, now, r.warm, r.now) || (NothingWarm(ids, r.warm, r.now) && ProbeStarts(env, ids, r)))
  }

  /** Every failure of the streak is decided on one view of the group; clock and measurements may
      differ from failure to failure as long as that view is the same. */
  ghost predicate Steady(env: Env, ids: seq<ServerId>, rounds: seq<Round>, warm: WarmMap, now: int) {
    forall k :: 0 <= k < |rounds| ==> DecidedOn(env, ids, rounds[k], warm, now)
  }

  /** The clock moves, between `start` and `last`, and the measurements stay. */
  ghost predicate OneMap(rounds: seq<Round>, warm: WarmMap, start: int, last: int) {
    forall k :: 0 <= k < |rounds| ==>
      && rounds[k].warm == rounds[k].measured == warm
      && start <= rounds[k].now <= last && start <= rounds[k].later <= last
  }

  /** No member that is fresh at `start` has expired at `last`. */
  ghost predicate NoneExpires(ids: seq<ServerId>, warm: WarmMap, start: int, last: int) {
    forall i :: 0 <= i < |ids| && FreshReachable(warm, ids[i], start, WARM_RESULT_TTL_MS) ==>
      FreshReachable(warm, ids[i], last, WARM_RESULT_TTL_MS)
  }

  /** The passing of time alone leaves a streak steady until a result expires. */
  lemma OneMapIsSteady(env: Env, ids: seq<ServerId>, rounds: seq<Round>, warm: WarmMap, start: int, last: int)
    requires OneMap(rounds, warm, start, last) && NoneExpires(ids, warm, start, last)
    ensures Steady(env, ids, rounds, warm, start)
  {
    forall k | 0 <= k < |rounds| ensures DecidedOn(env, ids, rounds[k], warm, start) {
      StillTheSame(ids, warm, start, rounds[k].now, last);
      StillTheSame(ids, warm, start, rounds[k].later, last);
    }
  }

  lemma StillTheSame(ids: seq<ServerId>, warm: WarmMap, start: int, now: int, last: int)
    requires start <= now <= last && NoneExpires(ids, warm, start, last)
    ensures SameView(ids, warm, start, warm, now)
  {
  }

  lemma SameViewSameNext(ids: seq<ServerId>, current: nat, warm: WarmMap, now: int, warm': WarmMap, now': int)
    requires current < |ids| && SameView(ids, warm, now, warm', now')
    ensures BestIndex(ids, ids[current], warm, now, WARM_RESULT_TTL_MS)
         == BestIndex(ids, ids[current], warm', now', WARM_RESULT_TTL_MS)
    ensures NextIndex(ids, current, warm, now) == NextIndex(ids, current, warm', now')
  {
    hide FreshReachable;
    SameViewSameBest(ids, ids[current], warm, now, warm', now');
  }

  lemma {:induction false} SameViewSameBest(ids: seq<ServerId>, failed: ServerId, warm: WarmMap, now: int,
                                            warm': WarmMap, now': int)
    requires SameView(ids, warm, now, warm', now')
    ensures BestIndex(ids, failed, warm, now, WARM_RESULT_TTL_MS)
         == BestIndex(ids, failed, warm', now', WARM_RESULT_TTL_MS)
    decreases |ids|
  {
    if ids != [] {
      var n := |ids| - 1;
      forall i | 0 <= i < n ensures LooksSame(ids[..n][i], warm, now, warm', now') {
        assert LooksSame(ids[i], warm, now, warm', now');
      }
      SameViewSameBest(ids[..n], failed, warm, now, warm', now');
      assert LooksSame(ids[n], warm, now, warm', now');
      var best := BestIndex(ids[..n], failed, warm, now, WARM_RESULT_TTL_MS);
      if best >= 0 {
        assert LooksSame(ids[best], warm, now, warm', now');
      }
    }
  }

  lemma SteadyNext(env: Env, ids: seq<ServerId>, current: nat, r: Round, warm: WarmMap, now: int)
    requires current < |ids| && DecidedOn(env, ids, r, warm, now)
    ensures NextIn(env, ids, current, r) == NextIndex(ids, current, warm, now)
  {
    hide SameView, NothingWarm, ProbeStarts, NextIndex, BestIndex;
    SameViewSameNext(ids, current, warm, now, r.measured, r.later);
    if SameView(ids, warm, now, r.warm, r.now) {
      SameViewSameNext(ids, current, warm, now, r.warm, r.now);
    } else {
      NobodyToPick(ids, ids[current], r.warm, r.now);
    }
  }

  lemma SteadyIsCold(env: Env, ids: seq<ServerId>, rounds: seq<Round>, warm: WarmMap, now: int)
    requires Steady(env, ids, rounds, warm, now) && NothingWarm(ids, warm, now)
    ensures Cold(ids, rounds)
  {
    hide FreshReachable;
    forall k | 0 <= k < |rounds|
      ensures NothingWarm(ids, rounds[k].warm, rounds[k].now) && NothingWarm(ids, rounds[k].measured, rounds[k].later)
    {
      assert DecidedOn(env, ids, rounds[k], warm, now);
      ColdView(ids, warm, now, rounds[k].measured, rounds[k].later);
      if SameView(ids, warm, now, rounds[k].warm, rounds[k].now) {
        ColdView(ids, warm, now, rounds[k].warm, rounds[k].now);
      }
    }
  }

  lemma ColdView(ids: seq<ServerId>, warm: WarmMap, now: int, warm': WarmMap, now': int)
    requires SameView(ids, warm, now, warm', now') && NothingWarm(ids, warm, now)
    ensures NothingWarm(ids, warm', now')
  {
    hide FreshReachable;
    forall i | 0 <= i < |ids| ensures !FreshReachable(warm', ids[i], now', WARM_RESULT_TTL_MS) {
      assert LooksSame(ids[i], warm, now, warm', now');
    }
  }

  /** The first three targets of a steady streak. */
  lemma SteadyStart(env: Env, ids: seq<ServerId>, failed: nat, rounds: seq<Round>, warm: WarmMap, now: int)
    requires failed < |ids| && Steady(env, ids, rounds, warm, now)
    ensures var v1 := NextIndex(ids, failed, warm, now);
      var v2 := NextIndex(ids, v1, warm, now);
      var v3 := NextIndex(ids, v2, warm, now);
      var targets := Walk(env, ids, failed, rounds);
      && |targets| == |rounds|
      && (|rounds| > 0 ==> targets[0] == ids[v1])
      && (|rounds| > 1 ==> targets[1] == ids[v2])
      && (|rounds| > 2 ==> targets[2] == ids[v3])
  {
    hide NextIndex, NextIn, DecidedOn;
    var targets := Walk(env, ids, failed, rounds);
    WalkLength(env, ids, failed, rounds);
    if |rounds| > 0 {
      SteadyNext(env, ids, failed, rounds[0], warm, now);
      var v1 := NextIndex(ids, failed, warm, now);
      var after1 := Walk(env, ids, v1, rounds[1..]);
      assert targets == [ids[v1]] + after1;
      if |rounds| > 1 {
        SteadyNext(env, ids, v1, rounds[1], warm, now);
        var v2 := NextIndex(ids, v1, warm, now);
        assert rounds[1..][1..] == rounds[2..];
        var after2 := Walk(env, ids, v2, rounds[2..]);
        assert after1 == [ids[v2]] + after2;
        if |rounds| > 2 {
          SteadyNext(env, ids, v2, rounds[2], warm, now);
          assert after2[0] == ids[NextIndex(ids, v2, warm, now)];
          assert targets[2] == after1[1] == after2[0];
        }
      }
    }
  }

  lemma {:induction false} WalkLength(env: Env, ids: seq<ServerId>, current: nat, rounds: seq<Round>)
    requires current < |ids|
    ensures |Walk(env, ids, current, rounds)| == |rounds|
    decreases |rounds|
  {
    if rounds != [] {
      WalkLength(env, ids, NextIn(env, ids, current, rounds[0]), rounds[1..]);
    }
  }

  lemma NextIsElsewhere(ids: seq<ServerId>, current: nat, warm: WarmMap, now: int)
    requires |ids| >= 2 && current < |ids|
    ensures NextIndex(ids, current, warm, now) != current
  {
  }

  /** Fresh and reachable, and ahead of everyone else that is: by latency, then by place. */
  predicate Leads(ids: seq<ServerId>, warm: WarmMap, now: int, i: nat) {
    && i < |ids| && FreshReachable(warm, ids[i], now, WARM_RESULT_TTL_MS)
    && forall j: nat :: j < |ids| && j != i && FreshReachable(warm, ids[j], now, WARM_RESULT_TTL_MS) ==>
         warm[ids[i]].latencyMs < warm[ids[j]].latencyMs || (warm[ids[i]].latencyMs == warm[ids[j]].latencyMs && i < j)
  }

  lemma SomeoneLeads(ids: seq<ServerId>, warm: WarmMap, now: int) returns (best: nat)
    requires !NothingWarm(ids, warm, now)
    ensures Leads(ids, warm, now, best)
  {
    var i :| 0 <= i < |ids| && FreshReachable(warm, ids[i], now, WARM_RESULT_TTL_MS);
    assert Candidate(ids[i], "", warm, now, WARM_RESULT_TTL_MS);
    best := BestIndex(ids, "", warm, now, WARM_RESULT_TTL_MS);
    forall j: nat | j < |ids| && FreshReachable(warm, ids[j], now, WARM_RESULT_TTL_MS)
      ensures Candidate(ids[j], "", warm, now, WARM_RESULT_TTL_MS)
    {
    }
  }

  /** Whoever is not the leader hands over to it. */
  lemma EveryoneElseGoesToTheLeader(ids: seq<ServerId>, current: nat, warm: WarmMap, now: int, best: nat)
    requires SwitchGroup.Distinct(ids) && current < |ids| && Leads(ids, warm, now, best) && current != best
    ensures NextIndex(ids, current, warm, now) == best
  {
    var next := BestIndex(ids, ids[current], warm, now, WARM_RESULT_TTL_MS);
    assert Candidate(ids[best], ids[current], warm, now, WARM_RESULT_TTL_MS);
    assert next >= 0 && FreshReachable(warm, ids[next], now, WARM_RESULT_TTL_MS);
  }

  /** In a group of three: the leader is tried first, and hands on to the remaining member, which is
      warm and ahead of the failed one or, if neither of the two is warm, next in list order. */
  ghost predicate LeaderHandsOn(ids: seq<ServerId>, failed: nat, warm: WarmMap, now: int)
    requires failed < |ids|
  {
    |ids| == 3 && exists best: nat, other: nat ::
      && best < 3 && other < 3 && best != failed && other != failed && best != other
      && Leads(ids, warm, now, best) && Follows(ids, warm, now, best, other, failed)
  }

  predicate Follows(ids: seq<ServerId>, warm: WarmMap, now: int, best: nat, other: nat, failed: nat)
    requires best < |ids| && other < |ids| && failed < |ids|
  {
    if FreshReachable(warm, ids[other], now, WARM_RESULT_TTL_MS) then
      FreshReachable(warm, ids[failed], now, WARM_RESULT_TTL_MS) ==>
        || warm[ids[other]].latencyMs < warm[ids[failed]].latencyMs
        || (warm[ids[other]].latencyMs == warm[ids[failed]].latencyMs && other < failed)
    else !FreshReachable(warm, ids[failed], now, WARM_RESULT_TTL_MS) && (best + 1 == other || best == other + |ids| - 1)
  }

  lemma LeaderOfThree(ids: seq<ServerId>, warm: WarmMap, now: int, best: nat, other: nat, failed: nat)
    requires SwitchGroup.Distinct(ids) && |ids| == 3 && best < 3 && other < 3 && failed < 3
    requires best != failed && other != failed && best != other
    ensures Follows(ids, warm, now, best, other, failed) <==> NextIndex(ids, best, warm, now) == other
  {
    assert ids[other] != ids[best] && ids[failed] != ids[best];
    assert Candidate(ids[other], ids[best], warm, now, WARM_RESULT_TTL_MS)
      <==> FreshReachable(warm, ids[other], now, WARM_RESULT_TTL_MS);
    assert Candidate(ids[failed], ids[best], warm, now, WARM_RESULT_TTL_MS)
      <==> FreshReachable(warm, ids[failed], now, WARM_RESULT_TTL_MS);
    assert best + other + failed == 3;
  }

  /** From three members on, a streak with a leader comes back to someone: to the failed member, or to
      the leader a second time - unless the group has three and the leader hands on. */
  lemma WarmStreakRepeats(env: Env, ids: seq<ServerId>, failed: nat, rounds: seq<Round>, warm: WarmMap, now: int)
    requires SwitchGroup.Distinct(ids) && failed < |ids| && |ids| >= 3
    requires Steady(env, ids, rounds, warm, now) && |rounds| == |ids| - 1 && !NothingWarm(ids, warm, now)
    ensures TriesEveryoneElse(Walk(env, ids, failed, rounds), ids, failed) <==> LeaderHandsOn(ids, failed, warm, now)
  {
    var targets := Walk(env, ids, failed, rounds);
    var best := SomeoneLeads(ids, warm, now);
    SteadyStart(env, ids, failed, rounds, warm, now);
    hide Walk, NextIndex, Leads, Follows, Steady, FreshReachable;
    var v1 := NextIndex(ids, failed, warm, now);
    var v2 := NextIndex(ids, v1, warm, now);
    NextIsElsewhere(ids, failed, warm, now);
    NextIsElsewhere(ids, v1, warm, now);
    if failed == best {
      EveryoneElseGoesToTheLeader(ids, v1, warm, now, best);
      assert targets[1] in targets;
      OneLeader(ids, warm, now, best);
    } else {
      EveryoneElseGoesToTheLeader(ids, failed, warm, now, best);
      EveryoneElseGoesToTheLeader(ids, v2, warm, now, best);
      OneLeader(ids, warm, now, best);
      if |ids| == 3 {
        ThreeMembers(ids, failed, warm, now, best, v2, targets);
      }
    }
  }

  lemma OneLeader(ids: seq<ServerId>, warm: WarmMap, now: int, best: nat)
    requires Leads(ids, warm, now, best)
    ensures forall i: nat :: Leads(ids, warm, now, i) ==> i == best
  {
  }

  lemma ThreeMembers(ids: seq<ServerId>, failed: nat, warm: WarmMap, now: int, best: nat, v2: nat, targets: seq<string>)
    requires SwitchGroup.Distinct(ids) && |ids| == 3 && failed < 3 && best < 3 && v2 < 3
    requires failed != best && Leads(ids, warm, now, best) && v2 == NextIndex(ids, best, warm, now) != best
    requires targets == [ids[best], ids[v2]]
    ensures TriesEveryoneElse(targets, ids, failed) <==> LeaderHandsOn(ids, failed, warm, now)
  {
    hide Leads, Follows, NextIndex, TriesEveryoneElse, LeaderHandsOn;
    var other: nat := 3 - failed - best;
    HandsOnWhen(ids, failed, warm, now, best, other);
    TwoOfThree(ids, failed, best, other, v2, targets);
  }

  lemma HandsOnWhen(ids: seq<ServerId>, failed: nat, warm: WarmMap, now: int, best: nat, other: nat)
    requires SwitchGroup.Distinct(ids) && |ids| == 3 && failed < 3 && best < 3 && other < 3
    requires failed != best && failed != other && best != other && Leads(ids, warm, now, best)
    ensures LeaderHandsOn(ids, failed, warm, now) <==> NextIndex(ids, best, warm, now) == other
  {
    OneLeader(ids, warm, now, best);
    LeaderOfThree(ids, warm, now, best, other, failed);
    hide Leads, Follows, NextIndex;
    if LeaderHandsOn(ids, failed, warm, now) {
      var b: nat, o: nat :| && b < 3 && o < 3 && b != failed && o != failed && b != o
        && Leads(ids, warm, now, b) && Follows(ids, warm, now, b, o, failed);
      assert b == best && o == other;
    }
  }

  lemma TwoOfThree(ids: seq<ServerId>, failed: nat, best: nat, other: nat, v2: nat, targets: seq<string>)
    requires SwitchGroup.Distinct(ids) && |ids| == 3 && failed < 3 && best < 3 && other < 3
    requires failed != best && failed != other && best != other && (v2 == failed || v2 == other)
    requires targets == [ids[best], ids[v2]]
    ensures TriesEveryoneElse(targets, ids, failed) <==> v2 == other
  {
    assert ids[best] != ids[other] && ids[best] != ids[failed] && ids[other] != ids[failed];
    assert targets[1] in targets && ids[other] in ids;
    if v2 == other {
      forall id ensures id in targets <==> id in ids && id != ids[failed] {
        if id in ids {
          var k :| 0 <= k < 3 && ids[k] == id;
          assert k == best || k == other || k == failed;
        }
        assert targets[0] == ids[best] && targets[1] == ids[other];
      }
    }
  }

  /** Exactly when "every other member gets exactly one auto-switch", for a streak whose failures are
      decided on one view of the group: with no fresh reachable member (pure round robin), in a group of
      two, or in a group of three whose leader did not fail first and hands on to the remaining one. */
  lemma CoversExactlyWhen(p: Policy, env: Env, ids: seq<ServerId>, failed: nat, rounds: seq<Round>, warm: WarmMap,
                          now: int)
    requires FixedGroup(env, ids) && failed < |ids| && !p.failoverProbePending && p.consecutiveSwitches == 0
    requires |rounds| == |ids| && Steady(env, ids, rounds[..|ids| - 1], warm, now)
    ensures TriesEveryoneElse(Targets(p, env, ids[failed], rounds), ids, failed) <==>
              NothingWarm(ids, warm, now) || |ids| == 2 || LeaderHandsOn(ids, failed, warm, now)
  {
    hide Targets, FixedGroup, Walk, NextIndex, LeaderHandsOn, TriesEveryoneElse, FreshReachable, Steady;
    FreshStreak(p, env, ids, failed, rounds);
    var played := rounds[..|ids| - 1];
    if NothingWarm(ids, warm, now) {
      SteadyIsCold(env, ids, played, warm, now);
      RoundRobinWalkIsEveryoneElse(env, ids, failed, played);
    } else if |ids| == 2 {
      SteadyStart(env, ids, failed, played, warm, now);
      NextIsElsewhere(ids, failed, warm, now);
      PairTriesTheOther(ids, failed, Walk(env, ids, failed, played));
    } else {
      WarmStreakRepeats(env, ids, failed, played, warm, now);
    }
  }

  /** So it is while the clock moves on, until a result that was fresh at the first failure expires. */
  lemma CoversExactlyWhileFresh(p: Policy, env: Env, ids: seq<ServerId>, failed: nat, rounds: seq<Round>, warm: WarmMap,
                                start: int, last: int)
    requires FixedGroup(env, ids) && failed < |ids| && !p.failoverProbePending && p.consecutiveSwitches == 0
    requires |rounds| == |ids| && OneMap(rounds, warm, start, last) && NoneExpires(ids, warm, start, last)
    ensures TriesEveryoneElse(Targets(p, env, ids[failed], rounds), ids, failed) <==>
              NothingWarm(ids, warm, start) || |ids| == 2 || LeaderHandsOn(ids, failed, warm, start)
  {
    hide FixedGroup, TriesEveryoneElse, LeaderHandsOn, NothingWarm, NoneExpires, Steady;
    OneMapIsSteady(env, ids, rounds[..|ids| - 1], warm, start, last);
    CoversExactlyWhen(p, env, ids, failed, rounds, warm, start);
  }

  /** A streak from the first failure on: everything before the ceiling is played. */
  lemma FreshStreak(p: Policy, env: Env, ids: seq<ServerId>, failed: nat, rounds: seq<Round>)
    requires FixedGroup(env, ids) && failed < |ids| && !p.failoverProbePending && p.consecutiveSwitches == 0
    requires |rounds| == |ids|
    ensures Targets(p, env, ids[failed], rounds) == Walk(env, ids, failed, rounds[..|ids| - 1])
    ensures SwitchGroup.Distinct(ids) && |ids| >= 2
  {
    hide Targets, Walk;
    StreakWalks(p, env, ids, failed, rounds);
    MembersAreDistinct(env.servers, env.location);
  }

  lemma PairTriesTheOther(ids: seq<ServerId>, failed: nat, targets: seq<string>)
    requires SwitchGroup.Distinct(ids) && |ids| == 2 && failed < 2 && targets == [ids[1 - failed]]
    ensures TriesEveryoneElse(targets, ids, failed)
  {
    assert targets[0] in targets;
  }

  /** Only the second and the third member are warm, the second ahead. */
  predicate TwoWarm(ids: seq<ServerId>, warm: WarmMap, now: int)
    requires |ids| == 4
  {
    now > 0 && warm == map[ids[1] := WarmProbe(10.0, now), ids[2] := WarmProbe(20.0, now)]
  }

  /** The claim is not true in general: of four members, two of them warm, a streak bounces between
      those two and never tries the fourth, whenever its failures come before the two results expire. */
  lemma WarmStreakSkipsMembers(p: Policy, env: Env, ids: seq<ServerId>, rounds: seq<Round>, warm: WarmMap, now: int)
    requires FixedGroup(env, ids) && |ids| == 4 && !p.failoverProbePending && p.consecutiveSwitches == 0
    requires TwoWarm(ids, warm, now)
    requires |rounds| == 4 && OneMap(rounds, warm, now, now + WARM_RESULT_TTL_MS)
    ensures Targets(p, env, ids[0], rounds) == [ids[1], ids[2], ids[1]]
    ensures !TriesEveryoneElse(Targets(p, env, ids[0], rounds), ids, 0)
  {
    hide Targets, FixedGroup, Walk, TwoWarm, OneMap, TriesEveryoneElse;
    FreshStreak(p, env, ids, 0, rounds);
    SomeOfOneMap(rounds, 3, warm, now, now + WARM_RESULT_TTL_MS);
    TwoWarmWalk(env, ids, rounds[..3], warm, now);
    TriedTwice(Targets(p, env, ids[0], rounds), ids);
  }

  lemma TwoWarmWalk(env: Env, ids: seq<ServerId>, rounds: seq<Round>, warm: WarmMap, now: int)
    requires SwitchGroup.Distinct(ids) && |ids| == 4 && TwoWarm(ids, warm, now)
    requires |rounds| == 3 && OneMap(rounds, warm, now, now + WARM_RESULT_TTL_MS)
    ensures Walk(env, ids, 0, rounds) == [ids[1], ids[2], ids[1]]
  {
    TwoWarmLast(ids, warm, now);
    TwoWarmOfFour(ids, warm, now);
    hide Walk, NextIndex, TwoWarm, Steady, NoneExpires, OneMap, SwitchGroup.Distinct;
    OneMapIsSteady(env, ids, rounds, warm, now, now + WARM_RESULT_TTL_MS);
    SteadyStart(env, ids, 0, rounds, warm, now);
  }

  lemma SomeOfOneMap(rounds: seq<Round>, n: nat, warm: WarmMap, start: int, last: int)
    requires n <= |rounds| && OneMap(rounds, warm, start, last)
    ensures OneMap(rounds[..n], warm, start, last)
  {
  }

  lemma TriedTwice(targets: seq<string>, ids: seq<ServerId>)
    requires |ids| > 0 && |targets| == 3 && targets[0] == targets[2]
    ensures !TriesEveryoneElse(targets, ids, 0)
  {
    assert targets[0] in targets;
  }

  lemma TwoWarmLast(ids: seq<ServerId>, warm: WarmMap, now: int)
    requires |ids| == 4 && TwoWarm(ids, warm, now)
    ensures NoneExpires(ids, warm, now, now + WARM_RESULT_TTL_MS)
  {
  }

  lemma TwoWarmOfFour(ids: seq<ServerId>, warm: WarmMap, now: int)
    requires SwitchGroup.Distinct(ids) && |ids| == 4 && TwoWarm(ids, warm, now)
    ensures NextIndex(ids, 0, warm, now) == NextIndex(ids, 2, warm, now) == 1 && NextIndex(ids, 1, warm, now) == 2
  {
    assert ids[1] != ids[2] && ids[0] != ids[1] && ids[0] != ids[2] && ids[3] != ids[1] && ids[3] != ids[2];
    assert Leads(ids, warm, now, 1);
    EveryoneElseGoesToTheLeader(ids, 0, warm, now, 1);
    EveryoneElseGoesToTheLeader(ids, 2, warm, now, 1);
    assert Candidate(ids[2], ids[1], warm, now, WARM_RESULT_TTL_MS);
    var next := BestIndex(ids, ids[1], warm, now, WARM_RESULT_TTL_MS);
    assert ids[next] == ids[2];
  }
}
