/** What the auto-switch handlers do, read off the measurements, servers and counters themselves: which
    member a failure goes to and when, whom a probe asks, and what an answer leaves behind. */
module AutoSwitchLaws {
  import opened Basics
  import opened SwitchGroup
  import opened SwitchGroupLaws
  import opened AutoSwitch

  // ----- Whom a probe asks ----------------------------------------------------------------------

  /** A member can be ranked exactly if the first server with its id has no custom configuration. */
  lemma {:induction false} RankableExactlyWhen(servers: seq<Server>, id: string)
    ensures Rankable(servers, id) <==>
              id != "" && exists k :: (
                && 0 <= k < |servers| && Trim(servers[k].indexId) == id && !servers[k].custom
                && forall j :: 0 <= j < k ==> Trim(servers[j].indexId) != id)
    decreases |servers|
  {
    hide Trim;
    if servers != [] && Trim(servers[0].indexId) != id {
      RankableExactlyWhen(servers[1..], id);
      if Rankable(servers[1..], id) {
        var k :| 0 <= k < |servers[1..]| && Trim(servers[1..][k].indexId) == id && !servers[1..][k].custom
          && forall j :: 0 <= j < k ==> Trim(servers[1..][j].indexId) != id;
        assert servers[k + 1] == servers[1..][k];
        assert forall j :: 0 < j < k + 1 ==> servers[j] == servers[1..][j - 1];
      }
      forall k | 0 <= k < |servers| && Trim(servers[k].indexId) == id && !servers[k].custom
                 && forall j :: 0 <= j < k ==> Trim(servers[j].indexId) != id
        ensures id != "" ==> Rankable(servers[1..], id)
      {
        assert servers[1..][k - 1] == servers[k];
        assert forall j :: 0 <= j < k - 1 ==> servers[1..][j] == servers[j + 1];
      }
    }
  }

  /** The members a failover probe measures. */
  function Measurable(ids: seq<ServerId>, env: Env): seq<ServerId> {
    ProbeItems(RankableIds(ids, env.servers), env.buildable)
  }

  /** Exactly the rankable ones for which a request can be built, in the group's order. */
  lemma {:induction false} MeasurableAre(ids: seq<ServerId>, env: Env) returns (from: seq<nat>)
    ensures var items := Measurable(ids, env);
      && |from| == |items|
      && (forall j :: 0 <= j < |from| ==> from[j] < |ids| && ids[from[j]] == items[j])
      && (forall i, j :: 0 <= i < j < |from| ==> from[i] < from[j])
      && forall k: nat :: k < |ids| ==> (k in from <==> Rankable(env.servers, ids[k]) && ids[k] in env.buildable)
    decreases |ids|
  {
    hide Rankable;
    from := [];
    if ids != [] {
      var n := |ids| - 1;
      from := MeasurableAre(ids[..n], env);
      var before := RankableIds(ids[..n], env.servers);
      assert (before + [ids[n]])[..|before|] == before && before + [] == before;
      assert RankableIds(ids, env.servers) == if Rankable(env.servers, ids[n]) then before + [ids[n]] else before;
      var items := ProbeItems(before, env.buildable);
      assert items + [] == items;
      forall k: nat | k < n ensures k in from <==> Rankable(env.servers, ids[k]) && ids[k] in env.buildable {
        assert ids[..n][k] == ids[k];
      }
      if Rankable(env.servers, ids[n]) && ids[n] in env.buildable {
        from := from + [n];
      }
    }
  }

  // ----- What a failure does --------------------------------------------------------------------

  /** Another member than the failed one, measured and answering within the last six minutes. */
  ghost predicate Usable(ids: seq<ServerId>, failed: string, warm: WarmMap, now: int, id: string) {
    && id in ids && id != failed && id in warm
    && 0 < warm[id].measuredAtMs && now - warm[id].measuredAtMs <= 360000 && warm[id].latencyMs >= 0.0
  }

  /** The switch goes to the fastest usable member, without a word and without a probe. */
  ghost predicate GoesToTheFastest(p: Policy, ids: seq<ServerId>, failed: string, now: int, r: Reaction) {
    && r.switchTo.Some? && Usable(ids, failed, p.warm, now, r.switchTo.value)
    && (forall id :: Usable(ids, failed, p.warm, now, id) ==>
          p.warm[r.switchTo.value].latencyMs <= p.warm[id].latencyMs)
    && r.notice == Silent && r.ask == None
    && r.policy == p.(consecutiveSwitches := p.consecutiveSwitches + 1)
  }

  lemma WarmChoice(p: Policy, ids: seq<ServerId>, failed: string, now: int)
    ensures var target := SwitchTarget(ids, failed, p.warm, now, WARM_RESULT_TTL_MS);
      if exists id :: Usable(ids, failed, p.warm, now, id) then
        target != "" && GoesToTheFastest(p, ids, failed, now, Switch(p, Silent, None, target))
      else target == ""
  {
    var target := SwitchTarget(ids, failed, p.warm, now, WARM_RESULT_TTL_MS);
    TargetIsBest(ids, failed, p.warm, now, WARM_RESULT_TTL_MS);
    hide SwitchTarget;
    forall id | Usable(ids, failed, p.warm, now, id)
      ensures target != "" && p.warm[target].latencyMs <= p.warm[id].latencyMs
    {
      var i :| 0 <= i < |ids| && ids[i] == id;
    }
    assert target != "" ==> Usable(ids, failed, p.warm, now, target);
  }

  /** A failure of the current server, from the first guard to the last resort: nothing while switched
      off or busy or outside a group; a word about a group of one or one that has been tried through;
      else a switch to the fastest usable member; else, unless a failover probe is already pending, a
      probe of the measurable members, and the next member in order where no probe gets started. */
  lemma FailureIsAnswered(p: Policy, env: Env)
    ensures var r, scan := OnSessionFailure(p, env), ScanCurrentGroup(env);
      var ids, at := scan.memberIds, scan.failedIndex;
      if !env.enabled || env.occupied || at < 0 then r == Reaction(p, Silent, None, None)
      else if |ids| == 1 then r == Reaction(p, GroupTooSmall, None, None)
      else if p.consecutiveSwitches >= |ids| - 1 then r == Reaction(p, GroupExhausted, None, None)
      else if exists id :: Usable(ids, Trim(env.currentServer), p.warm, env.now, id) then
        GoesToTheFastest(p, ids, Trim(env.currentServer), env.now, r)
      else if p.failoverProbePending || !env.probeWired then r == Reaction(p, Silent, None, None)
      else
        var items := Measurable(ids, env);
        var moved := p.(consecutiveSwitches := p.consecutiveSwitches + 1);
        var next := Some(ids[if at + 1 == |ids| then 0 else at + 1]);
        if items == [] then r == Reaction(moved, Silent, None, next)
        else if env.probeStarts then
          r == Reaction(p.(failoverProbePending := true), Probing(|items|), Some(Ask(items, true, true)), None)
        else r == Reaction(moved, Probing(|items|), Some(Ask(items, true, false)), next)
  {
    hide SwitchTarget, Usable, Trim, ProbeItems, RankableIds;
    var scan := ScanCurrentGroup(env);
    if scan.failedIndex >= 0 {
      ScannedIsCurrent(env);
      WarmChoice(p, scan.memberIds, Trim(env.currentServer), env.now);
      NextInOrder(scan.failedIndex, |scan.memberIds|);
    }
  }

  /** A finished failover probe: no longer pending, and then the same choice without another probe. */
  lemma ProbeIsFollowedUp(pending: Policy, env: Env)
    ensures var r, scan := OnFailoverProbeFinished(pending, env), ScanCurrentGroup(env);
      var p := pending.(failoverProbePending := false);
      var ids, at := scan.memberIds, scan.failedIndex;
      if !env.enabled || env.occupied || at < 0 || |ids| == 1 || p.consecutiveSwitches >= |ids| - 1 then
        r == Reaction(p, Silent, None, None)
      else if exists id :: Usable(ids, Trim(env.currentServer), p.warm, env.now, id) then
        GoesToTheFastest(p, ids, Trim(env.currentServer), env.now, r)
      else
        var next := Some(ids[if at + 1 == |ids| then 0 else at + 1]);
        r == Reaction(p.(consecutiveSwitches := p.consecutiveSwitches + 1), Silent, None, next)
  {
    hide SwitchTarget, Usable, Trim;
    var scan := ScanCurrentGroup(env);
    if scan.failedIndex >= 0 {
      ScannedIsCurrent(env);
      WarmChoice(pending.(failoverProbePending := false), scan.memberIds, Trim(env.currentServer), env.now);
      NextInOrder(scan.failedIndex, |scan.memberIds|);
    }
  }

  lemma ScannedIsCurrent(env: Env)
    requires ScanCurrentGroup(env).failedIndex >= 0
    ensures var scan := ScanCurrentGroup(env);
      && env.groupWired && scan.failedIndex < |scan.memberIds|
      && Trim(scan.memberIds[scan.failedIndex]) == scan.memberIds[scan.failedIndex] == Trim(env.currentServer)
  {
    hide Trim, MemberIds;
    TrimIdempotent(env.currentServer);
  }

  lemma NextInOrder(i: nat, n: nat)
    requires i < n
    ensures n >= 2 ==> RoundRobinFallbackIndex(i, n) == if i + 1 == n then 0 else i + 1
  {
    if i + 1 == n {
      assert (i + 1) % n == 0;
    }
  }

  // ----- Warm rounds and answers ----------------------------------------------------------------

  /** Past its guards a warm round asks the best five of the rankable members, as far as requests can be
      built for them; ranking them before the prune would give the same five. */
  lemma WarmRoundAsksTheBest(p: Policy, env: Env)
    ensures var r, ids := OnWarmRound(p, env), ScanCurrentGroup(env).memberIds;
      var best := ProbeList(RankableIds(ids, env.servers), p.warm, env.now, 5, 360000);
      var items := ProbeItems(best, env.buildable);
      && r.ask == (if !p.failoverProbePending && env.enabled && env.proxying && env.probeWired && |ids| >= 2
                      && items != [] then Some(Ask(items, false, env.probeStarts)) else None)
      && r.notice == Silent && r.switchTo == None
      && r.policy == p.(warm := r.policy.warm)
  {
    hide ScanCurrentGroup, ProbeItems, ProbeList, Pruned, RankableIds;
    var ids := ScanCurrentGroup(env).memberIds;
    var rankable := RankableIds(ids, env.servers);
    if |ids| >= 2 {
      forall id | id in rankable ensures id in ids {
        RankableIdsAre(ids, env.servers, id);
      }
      PruningIsInvisible(p.warm, ids, env.now, rankable, "", env.now, 5, 360000);
    }
  }

  /** An activation forgets the streak and is otherwise a warm round. */
  lemma ActivationIsAWarmRound(p: Policy, env: Env)
    ensures var r, warm := OnSessionActivated(p, env), OnWarmRound(p, env);
      r == warm.(policy := warm.policy.(consecutiveSwitches := 0))
  {
    hide ScanCurrentGroup, ProbeItems, ProbeList, Pruned, RankableIds;
  }

  /** A probe's answer is on record from then on, as a latency or as a failure, dated now; of the rest
      exactly what is no older than six minutes stays, as it was. */
  lemma AnswerIsRecorded(p: Policy, indexId: string, parsed: Option<real>, now: int)
    ensures var after, id := OnProbeResult(p, indexId, parsed, now), Trim(indexId);
      && after == p.(warm := after.warm)
      && (id != "" ==>
            && id in after.warm && after.warm[id].measuredAtMs == now
            && (parsed.Some? ==> after.warm[id].latencyMs == parsed.value)
            && (parsed.None? ==> after.warm[id].latencyMs < 0.0))
      && (forall other :: other != id || id == "" ==>
            && (other in after.warm <==> other in p.warm && now - p.warm[other].measuredAtMs <= 360000)
            && (other in after.warm ==> after.warm[other] == p.warm[other]))
  {
    hide Trim;
  }

  /** A member whose last answer was no measurement is not chosen until it answers again. */
  lemma UnparsableIsNotUsable(p: Policy, ids: seq<ServerId>, failed: string, indexId: string, answered: int, now: int)
    requires Trim(indexId) != ""
    ensures !Usable(ids, failed, OnProbeResult(p, indexId, None, answered).warm, now, Trim(indexId))
  {
    AnswerIsRecorded(p, indexId, None, answered);
  }
}
