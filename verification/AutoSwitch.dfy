/** The auto-switch coordinator: what it remembers between events, and what each event makes it do.
    Everything it reads from the rest of the program at decision time is a parameter. */
module AutoSwitch {
  import opened Basics
  import opened SwitchGroup

  /** The world as one event sees it.  A dependency that was never wired reads as `false`. */
  datatype Env = Env(
    enabled: bool,              // the "auto switch in group" preference
    occupied: bool,             // something is proxying or activating
    proxying: bool,             // a session is proxying
    groupWired: bool,           // location, current server and server list can be read
    probeWired: bool,           // probes can be built and run
    servers: seq<Server>,
    location: string,
    currentServer: string,
    buildable: set<string>,     // ids for which a probe item can be built
    probeStarts: bool,          // what the probe runner answers if it is asked now
    now: int)

  datatype Policy = Policy(warm: WarmMap, consecutiveSwitches: nat, failoverProbePending: bool)

  datatype Notice = Silent | GroupTooSmall | GroupExhausted | Probing(count: nat)

  /** One call of the probe runner and its answer. */
  datatype Ask = Ask(ids: seq<ServerId>, failover: bool, started: bool)

  /** A handler says at most one thing, then asks for at most one probe, then switches at most once. */
  datatype Reaction = Reaction(policy: Policy, notice: Notice, ask: Option<Ask>, switchTo: Option<string>)

  function RoundRobinFallbackIndex(failedIndex: nat, memberCount: nat): int {
    if memberCount <= 1 then -1 else (failedIndex + 1) % memberCount
  }

  predicate ReachedSwitchCeiling(consecutiveSwitches: nat, memberCount: nat) {
    memberCount >= 2 && consecutiveSwitches >= memberCount - 1
  }

  function ScanCurrentGroup(env: Env): GroupScan {
    if env.groupWired then Scan(env.servers, env.location, env.currentServer) else NO_GROUP
  }

  /** The first server with this id, as a linear search finds it. */
  function FindServer(servers: seq<Server>, id: string): Option<Server> {
    if servers == [] then None
    else if Trim(servers[0].indexId) == id then Some(servers[0])
    else FindServer(servers[1..], id)
  }

  predicate Rankable(servers: seq<Server>, id: string) {
    var server := FindServer(servers, id);
    server.Some? && IsProbeRankable(server.value)
  }

  function RankableIds(ids: seq<ServerId>, servers: seq<Server>): seq<ServerId> {
    if ids == [] then [] else
    RankableIds(ids[..|ids| - 1], servers) + if Rankable(servers, ids[|ids| - 1]) then [ids[|ids| - 1]] else []
  }

  function ProbeItems(ids: seq<ServerId>, buildable: set<string>): seq<ServerId> {
    if ids == [] then [] else
    ProbeItems(ids[..|ids| - 1], buildable) + if ids[|ids| - 1] in buildable then [ids[|ids| - 1]] else []
  }

  // ----- The handlers as functions --------------------------------------------------------------

  function Nothing(p: Policy): Reaction {
    Reaction(p, Silent, None, None)
  }

  function Switch(p: Policy, notice: Notice, ask: Option<Ask>, target: string): Reaction {
    Reaction(p.(consecutiveSwitches := p.consecutiveSwitches + 1), notice, ask, Some(target))
  }

  function Fallback(p: Policy, notice: Notice, ask: Option<Ask>, scan: GroupScan): Reaction
    requires 0 <= scan.failedIndex < |scan.memberIds|
  {
    var next := RoundRobinFallbackIndex(scan.failedIndex, |scan.memberIds|);
    if next >= 0 then Switch(p, notice, ask, scan.memberIds[next]) else Reaction(p, notice, ask, None)
  }

  function StartFailoverProbe(p: Policy, scan: GroupScan, env: Env): Reaction
    requires 0 <= scan.failedIndex < |scan.memberIds|
  {
    if !env.probeWired then Nothing(p) else
    var items := ProbeItems(RankableIds(scan.memberIds, env.servers), env.buildable);
    if items == [] then Fallback(p, Silent, None, scan) else
    var ask := Some(Ask(items, true, env.probeStarts));
    if env.probeStarts then Reaction(p.(failoverProbePending := true), Probing(|items|), ask, None)
    else Fallback(p.(failoverProbePending := false), Probing(|items|), ask, scan)
  }

  function OnSessionFailure(p: Policy, env: Env): Reaction {
    if !env.enabled || env.occupied then Nothing(p) else
    var scan := ScanCurrentGroup(env);
    if scan.memberIds == [] || scan.failedIndex < 0 then Nothing(p)
    else if |scan.memberIds| < 2 then Reaction(p, GroupTooSmall, None, None)
    else if ReachedSwitchCeiling(p.consecutiveSwitches, |scan.memberIds|) then Reaction(p, GroupExhausted, None, None)
    else
      var failed := Trim(scan.memberIds[scan.failedIndex]);
      var target := SwitchTarget(scan.memberIds, failed, p.warm, env.now, WARM_RESULT_TTL_MS);
      if target != "" then Switch(p, Silent, None, target)
      else if p.failoverProbePending then Nothing(p)
      else StartFailoverProbe(p, scan, env)
  }

  function OnFailoverProbeFinished(pending: Policy, env: Env): Reaction {
    var p := pending.(failoverProbePending := false);
    if env.occupied || !env.enabled then Nothing(p) else
    var scan := ScanCurrentGroup(env);
    if |scan.memberIds| < 2 || scan.failedIndex < 0 then Nothing(p)
    else if ReachedSwitchCeiling(p.consecutiveSwitches, |scan.memberIds|) then Nothing(p)
    else
      var failed := Trim(scan.memberIds[scan.failedIndex]);
      var target := SwitchTarget(scan.memberIds, failed, p.warm, env.now, WARM_RESULT_TTL_MS);
      if target != "" then Switch(p, Silent, None, target) else Fallback(p, Silent, None, scan)
  }

  function OnWarmRound(p: Policy, env: Env): Reaction {
    if p.failoverProbePending || !env.enabled || !env.proxying || !env.probeWired then Nothing(p) else
    var scan := ScanCurrentGroup(env);
    if |scan.memberIds| < 2 then Nothing(p) else
    var pruned := p.(warm := Pruned(p.warm, scan.memberIds, env.now, WARM_RESULT_TTL_MS));
    var candidates := ProbeList(RankableIds(scan.memberIds, env.servers), pruned.warm, env.now,
                                WARM_PROBE_BATCH_LIMIT, WARM_RESULT_TTL_MS);
    var items := ProbeItems(candidates, env.buildable);
    if items == [] then Nothing(pruned)
    else Reaction(pruned, Silent, Some(Ask(items, false, env.probeStarts)), None)
  }

  function OnSessionActivated(p: Policy, env: Env): Reaction {
    OnWarmRound(p.(consecutiveSwitches := 0), env)
  }

  function OnProbeResult(p: Policy, indexId: string, parsed: Option<real>, now: int): Policy {
    p.(warm := Harvested(Pruned(p.warm, [], now, WARM_RESULT_TTL_MS), indexId, parsed, now))
  }

  // ----- The coordinator ------------------------------------------------------------------------

  class AutoSwitchCoordinator {
    var warm: WarmMap
    var consecutiveSwitches: nat
    var failoverProbePending: bool

    function State(): Policy
      reads this
    {
      Policy(warm, consecutiveSwitches, failoverProbePending)
    }

    constructor ()
      ensures State() == Policy(map[], 0, false)
    {
      warm, consecutiveSwitches, failoverProbePending := map[], 0, false;
    }

    method CurrentGroup(env: Env) returns (scan: GroupScan)
      ensures scan == ScanCurrentGroup(env)
    {
      if !env.groupWired {
        return NO_GROUP;
      }
      scan := ScanLocationGroup(env.servers, env.location, env.currentServer);
    }

    method ProbeItemsFor(memberIds: seq<ServerId>, env: Env) returns (rankableIds: seq<ServerId>)
      ensures rankableIds == RankableIds(memberIds, env.servers)
    {
      rankableIds := [];
      for i := 0 to |memberIds|
        invariant rankableIds == RankableIds(memberIds[..i], env.servers)
      {
        assert memberIds[..i + 1][..i] == memberIds[..i];
        var server := FindServer(env.servers, memberIds[i]);
        if server.Some? && IsProbeRankable(server.value) {
          rankableIds := rankableIds + [memberIds[i]];
        }
      }
      assert memberIds[..|memberIds|] == memberIds;
    }

    method ExecuteSwitch(target: string) returns (switchTo: Option<string>)
      modifies this`consecutiveSwitches
      ensures consecutiveSwitches == old(consecutiveSwitches) + 1 && switchTo == Some(target)
    {
      consecutiveSwitches := consecutiveSwitches + 1;
      switchTo := Some(target);
    }

    method HandleSessionFailure(env: Env) returns (notice: Notice, ask: Option<Ask>, switchTo: Option<string>)
      modifies this
      ensures Reaction(State(), notice, ask, switchTo) == OnSessionFailure(old(State()), env)
    {
      notice, ask, switchTo := Silent, None, None;
      if !env.enabled {
        return;
      }
      if env.occupied {
        return;
      }
      var scan := CurrentGroup(env);
      if scan.memberIds == [] {
        return;
      }
      if scan.failedIndex < 0 {
        return;
      }
      if |scan.memberIds| < 2 {
        notice := GroupTooSmall;
        return;
      }
      if ReachedSwitchCeiling(consecutiveSwitches, |scan.memberIds|) {
        notice := GroupExhausted;
        return;
      }
      var failedId := scan.memberIds[scan.failedIndex];
      var warmTarget := PickWarmSwitchTarget(scan.memberIds, failedId, warm, env.now, WARM_RESULT_TTL_MS);
      if warmTarget != "" {
        switchTo := ExecuteSwitch(warmTarget);
        return;
      }
      if failoverProbePending {
        return;
      }
      notice, ask, switchTo := BeginFailoverProbe(scan, env);
    }

    method BeginFailoverProbe(scan: GroupScan, env: Env)
      returns (notice: Notice, ask: Option<Ask>, switchTo: Option<string>)
      requires 0 <= scan.failedIndex < |scan.memberIds|
      modifies this
      ensures Reaction(State(), notice, ask, switchTo) == StartFailoverProbe(old(State()), scan, env)
    {
      notice, ask, switchTo := Silent, None, None;
      if !env.probeWired {
        return;
      }
      var rankableIds := ProbeItemsFor(scan.memberIds, env);
      var items := ProbeItems(rankableIds, env.buildable);
      if items != [] {
        notice := Probing(|items|);
        failoverProbePending := true;
        ask := Some(Ask(items, true, env.probeStarts));
        if env.probeStarts {
          return;
        }
        failoverProbePending := false;
      }
      var next := RoundRobinFallbackIndex(scan.failedIndex, |scan.memberIds|);
      if next >= 0 {
        switchTo := ExecuteSwitch(scan.memberIds[next]);
      }
    }

    method FinishFailoverProbe(env: Env) returns (switchTo: Option<string>)
      modifies this
      ensures Reaction(State(), Silent, None, switchTo) == OnFailoverProbeFinished(old(State()), env)
    {
      switchTo := None;
      failoverProbePending := false;
      if env.occupied {
        return;
      }
      if !env.enabled {
        return;
      }
      var scan := CurrentGroup(env);
      if |scan.memberIds| < 2 || scan.failedIndex < 0 {
        return;
      }
      if ReachedSwitchCeiling(consecutiveSwitches, |scan.memberIds|) {
        return;
      }
      var failedId := scan.memberIds[scan.failedIndex];
      var target := PickWarmSwitchTarget(scan.memberIds, failedId, warm, env.now, WARM_RESULT_TTL_MS);
      if target != "" {
        switchTo := ExecuteSwitch(target);
        return;
      }
      var next := RoundRobinFallbackIndex(scan.failedIndex, |scan.memberIds|);
      if next >= 0 {
        switchTo := ExecuteSwitch(scan.memberIds[next]);
      }
    }

    method RunWarmRound(env: Env) returns (ask: Option<Ask>)
      modifies this
      ensures Reaction(State(), Silent, ask, None) == OnWarmRound(old(State()), env)
    {
      ask := None;
      if failoverProbePending {
        return;
      }
      if !env.enabled {
        return;
      }
      if !env.proxying {
        return;
      }
      if !env.probeWired {
        return;
      }
      var scan := CurrentGroup(env);
      if |scan.memberIds| < 2 {
        return;
      }
      var rankableIds := ProbeItemsFor(scan.memberIds, env);
      warm := PruneWarmResults(warm, scan.memberIds, env.now, WARM_RESULT_TTL_MS);
      var candidates :=
        PickWarmProbeCandidates(rankableIds, warm, env.now, WARM_PROBE_BATCH_LIMIT, WARM_RESULT_TTL_MS);
      if candidates == [] {
        return;
      }
      var items := ProbeItems(candidates, env.buildable);
      if items == [] {
        return;
      }
      ask := Some(Ask(items, false, env.probeStarts));
    }

    method NoteSessionActivated(env: Env) returns (ask: Option<Ask>)
      modifies this
      ensures Reaction(State(), Silent, ask, None) == OnSessionActivated(old(State()), env)
    {
      consecutiveSwitches := 0;
      ask := RunWarmRound(env);
    }

    method HandleProbeResultReady(indexId: string, parsed: Option<real>, now: int)
      modifies this
      ensures State() == OnProbeResult(old(State()), indexId, parsed, now)
    {
      warm := PruneWarmResults(warm, [], now, WARM_RESULT_TTL_MS);
      warm := HarvestProbeResult(warm, indexId, parsed, now);
    }
  }

  // ----- What one reaction may do ---------------------------------------------------------------

  /** Every switch goes to another member of the group just scanned, below the ceiling, and is
      counted; no reaction switches while the preference is off or the proxy is occupied. */
  ghost predicate SafeSwitch(p: Policy, env: Env, r: Reaction) {
    r.switchTo.Some? ==>
      var scan := ScanCurrentGroup(env);
      && env.enabled && !env.occupied
      && 0 <= scan.failedIndex < |scan.memberIds|
      && scan.memberIds[scan.failedIndex] == Trim(env.currentServer)
      && r.switchTo.value in scan.memberIds
      && (DistinctIds(env.servers) ==> r.switchTo.value != Trim(env.currentServer))
      && p.consecutiveSwitches + 1 < |scan.memberIds|
      && r.policy.consecutiveSwitches == p.consecutiveSwitches + 1
  }

  lemma FallbackIsSafe(p: Policy, notice: Notice, ask: Option<Ask>, env: Env)
    requires env.enabled && !env.occupied
    requires var scan := ScanCurrentGroup(env);
             && |scan.memberIds| >= 2 && scan.failedIndex >= 0
             && !ReachedSwitchCeiling(p.consecutiveSwitches, |scan.memberIds|)
    ensures SafeSwitch(p, env, Fallback(p, notice, ask, ScanCurrentGroup(env)))
  {
    var scan := ScanCurrentGroup(env);
    var next := RoundRobinFallbackIndex(scan.failedIndex, |scan.memberIds|);
    assert next != scan.failedIndex;
    if DistinctIds(env.servers) {
      MembersAreDistinct(env.servers, env.location);
    }
  }

  lemma WarmSwitchIsSafe(p: Policy, env: Env)
    requires env.enabled && !env.occupied
    requires var scan := ScanCurrentGroup(env);
             && |scan.memberIds| >= 2 && scan.failedIndex >= 0
             && !ReachedSwitchCeiling(p.consecutiveSwitches, |scan.memberIds|)
    ensures var scan := ScanCurrentGroup(env);
            var failed := Trim(scan.memberIds[scan.failedIndex]);
            var target := SwitchTarget(scan.memberIds, failed, p.warm, env.now, WARM_RESULT_TTL_MS);
            target != "" ==> SafeSwitch(p, env, Switch(p, Silent, None, target))
  {
    var scan := ScanCurrentGroup(env);
    MembersAreTrimmed(env.servers, env.location, scan.memberIds[scan.failedIndex]);
  }

  lemma EverySwitchIsSafe(p: Policy, env: Env)
    ensures SafeSwitch(p, env, OnSessionFailure(p, env))
    ensures SafeSwitch(p, env, OnFailoverProbeFinished(p, env))
    ensures OnWarmRound(p, env).switchTo == OnSessionActivated(p, env).switchTo == None
  {
    var scan := ScanCurrentGroup(env);
    if env.enabled && !env.occupied && |scan.memberIds| >= 2 && scan.failedIndex >= 0
       && !ReachedSwitchCeiling(p.consecutiveSwitches, |scan.memberIds|) {
      var q := p.(failoverProbePending := false);
      WarmSwitchIsSafe(p, env);
      WarmSwitchIsSafe(q, env);
      var items := ProbeItems(RankableIds(scan.memberIds, env.servers), env.buildable);
      FallbackIsSafe(p, Silent, None, env);
      FallbackIsSafe(q, Silent, None, env);
      FallbackIsSafe(q, Probing(|items|), Some(Ask(items, true, env.probeStarts)), env);
    }
  }

  /** A warm round asks only for members of the group that a probe can rank, at most five of them,
      and never while a failover probe is pending. */
  lemma WarmRoundAsksTheGroup(p: Policy, env: Env)
    ensures var r := OnWarmRound(p, env);
            r.ask.Some? ==>
              && !p.failoverProbePending && env.enabled && env.proxying && !r.ask.value.failover
              && 0 < |r.ask.value.ids| <= WARM_PROBE_BATCH_LIMIT
              && forall id :: id in r.ask.value.ids ==>
                   id in ScanCurrentGroup(env).memberIds && Rankable(env.servers, id) && id in env.buildable
  {
    var ids := RankableIds(ScanCurrentGroup(env).memberIds, env.servers);
    var warm := Pruned(p.warm, ScanCurrentGroup(env).memberIds, env.now, WARM_RESULT_TTL_MS);
    var candidates := ProbeList(ids, warm, env.now, WARM_PROBE_BATCH_LIMIT, WARM_RESULT_TTL_MS);
    PickedAt(ids, ProbeRanking(ids, warm, env.now, WARM_RESULT_TTL_MS));
    forall id | id in ProbeItems(candidates, env.buildable)
      ensures id in ScanCurrentGroup(env).memberIds && Rankable(env.servers, id) && id in env.buildable
    {
      ProbeItemsAre(candidates, env.buildable, id);
      RankableIdsAre(ScanCurrentGroup(env).memberIds, env.servers, id);
    }
    ProbeItemsShrink(candidates, env.buildable);
  }

  /** A warm round that gets past its guards leaves exactly the results of members that are young
      enough, so never more of them than the group has members; any other leaves all as they were. */
  lemma WarmRoundKeepsTheGroup(p: Policy, env: Env)
    ensures var members, after := ScanCurrentGroup(env).memberIds, OnWarmRound(p, env).policy.warm;
      if !p.failoverProbePending && env.enabled && env.proxying && env.probeWired && |members| >= 2 then
        && (forall id :: id in after <==>
              id in members && id in p.warm && env.now - p.warm[id].measuredAtMs <= WARM_RESULT_TTL_MS)
        && (forall id :: id in after ==> after[id] == p.warm[id])
        && |after| <= |members|
      else after == p.warm
  {
    hide ScanCurrentGroup, ProbeList, ProbeItems, RankableIds;
    var members, after := ScanCurrentGroup(env).memberIds, OnWarmRound(p, env).policy.warm;
    NoMoreThanListed(after.Keys, members);
  }

  lemma {:induction false} NoMoreThanListed(keys: set<string>, ids: seq<ServerId>)
    ensures (forall id :: id in keys ==> id in ids) ==> |keys| <= |ids|
    decreases |ids|
  {
    if ids != [] {
      NoMoreThanListed(keys - {ids[0]}, ids[1..]);
    } else if keys != {} {
      var id :| id in keys;
    }
  }

  lemma {:induction false} ProbeItemsAre(ids: seq<ServerId>, buildable: set<string>, id: string)
    ensures id in ProbeItems(ids, buildable) <==> id in ids && id in buildable
    decreases |ids|
  {
    if ids != [] {
      ProbeItemsAre(ids[..|ids| - 1], buildable, id);
      assert ids == ids[..|ids| - 1] + [ids[|ids| - 1]];
    }
  }

  lemma {:induction false} ProbeItemsShrink(ids: seq<ServerId>, buildable: set<string>)
    ensures |ProbeItems(ids, buildable)| <= |ids|
    decreases |ids|
  {
    if ids != [] {
      ProbeItemsShrink(ids[..|ids| - 1], buildable);
    }
  }

  lemma {:induction false} RankableIdsAre(ids: seq<ServerId>, servers: seq<Server>, id: string)
    ensures id in RankableIds(ids, servers) <==> id in ids && Rankable(servers, id)
    decreases |ids|
  {
    if ids != [] {
      RankableIdsAre(ids[..|ids| - 1], servers, id);
      assert ids == ids[..|ids| - 1] + [ids[|ids| - 1]];
    }
  }
}
