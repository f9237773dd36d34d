/** The decisions of "auto switch in group": which servers belong to the selected location group,
    what a finished probe says, which member a failure should switch to, and which members the
    warm round should measure.  Latencies are reals; texts are sequences of characters. */
module SwitchGroup {
  import opened Basics

  // ----- Ids ------------------------------------------------------------------------------------

  /** An id as the group scan produces it. */
  type ServerId = s: string | s != "" witness "a"

  // ----- The group ------------------------------------------------------------------------------

  /** `locationId` is the server's resolved location; `custom` marks a custom configuration. */
  datatype Server = Server(indexId: string, favorite: bool, locationId: string, custom: bool)

  datatype GroupScan = GroupScan(memberIds: seq<ServerId>, failedIndex: int)

  const NO_GROUP := GroupScan([], -1)

  predicate InGroup(server: Server, location: string) {
    && Trim(server.indexId) != ""
    && if Trim(location) == "FAVORITE" then server.favorite else server.locationId == Trim(location)
  }

  function MemberId(server: Server): ServerId
    requires Trim(server.indexId) != ""
  {
    Trim(server.indexId)
  }

  /** The ids of the group's servers, in list order. */
  function MemberIds(servers: seq<Server>, location: string): seq<ServerId> {
    if servers == [] then [] else
    var n := |servers| - 1;
    MemberIds(servers[..n], location) + if InGroup(servers[n], location) then [MemberId(servers[n])] else []
  }

  function LastIndexOf(ids: seq<ServerId>, id: string): (r: int)
    ensures -1 <= r < |ids|
    ensures r == -1 <==> id !in ids
    ensures r >= 0 ==> ids[r] == id && forall i :: r < i < |ids| ==> ids[i] != id
    ensures r == -1 ==> forall i :: 0 <= i < |ids| ==> ids[i] != id
  {
    if ids == [] then -1
    else if ids[|ids| - 1] == id then |ids| - 1
    else LastIndexOf(ids[..|ids| - 1], id)
  }

  function Scan(servers: seq<Server>, location: string, failedId: string): GroupScan {
    var members := MemberIds(servers, location);
    GroupScan(members, LastIndexOf(members, Trim(failedId)))
  }

  method ScanLocationGroup(servers: seq<Server>, location: string, failedId: string) returns (scan: GroupScan)
    ensures scan == Scan(servers, location, failedId)
    ensures scan.failedIndex == -1 || 0 <= scan.failedIndex < |scan.memberIds|
    ensures scan.failedIndex >= 0 <==> Trim(failedId) in scan.memberIds
    ensures forall i :: scan.failedIndex >= 0 && scan.failedIndex <= i < |scan.memberIds| ==>
              (scan.memberIds[i] == Trim(failedId) <==> i == scan.failedIndex)
  {
    var trimmedLocation := Trim(location);
    var favoriteGroup := trimmedLocation == "FAVORITE";
    var memberIds: seq<ServerId>, failedIndex := [], -1;
    for i := 0 to |servers|
      invariant memberIds == MemberIds(servers[..i], location)
      invariant failedIndex == LastIndexOf(memberIds, Trim(failedId))
    {
      assert servers[..i + 1][..i] == servers[..i];
      var server := servers[i];
      var id := Trim(server.indexId);
      if id == "" {
        continue;
      }
      var inGroup := if favoriteGroup then server.favorite else server.locationId == trimmedLocation;
      if !inGroup {
        continue;
      }
      if Trim(failedId) != "" && id == Trim(failedId) {
        failedIndex := |memberIds|;
      }
      assert (memberIds + [MemberId(server)])[..|memberIds|] == memberIds;
      memberIds := memberIds + [MemberId(server)];
    }
    assert servers[..|servers|] == servers;
    scan := GroupScan(memberIds, failedIndex);
  }

  /** Which ids are members: exactly those of the servers in the group. */
  lemma {:induction false} MembersAreTheGroup(servers: seq<Server>, location: string, id: string)
    ensures id in MemberIds(servers, location) <==>
            id != "" && exists server :: (
              && server in servers && Trim(server.indexId) == id
              && if Trim(location) == "FAVORITE" then server.favorite else server.locationId == Trim(location))
    decreases |servers|
  {
    if servers != [] {
      var n := |servers| - 1;
      MembersAreTheGroup(servers[..n], location, id);
      assert servers == servers[..n] + [servers[n]];
    }
  }

  /** Where each member stands in the server list: the group has the list's order, and no server of the
      group is left out or listed twice. */
  lemma {:induction false} MembersKeepListOrder(servers: seq<Server>, location: string) returns (from: seq<nat>)
    ensures var members := MemberIds(servers, location);
      && |from| == |members|
      && (forall j :: 0 <= j < |from| ==> from[j] < |servers| && Trim(servers[from[j]].indexId) == members[j])
      && (forall i, j :: 0 <= i < j < |from| ==> from[i] < from[j])
      && forall k: nat :: k < |servers| ==> (k in from <==> InGroup(servers[k], location))
    decreases |servers|
  {
    GroupedHaveIds(servers, location);
    hide Trim, InGroup;
    from := [];
    if servers != [] {
      var n := |servers| - 1;
      from := MembersKeepListOrder(servers[..n], location);
      forall k: nat | k < n ensures k in from <==> InGroup(servers[k], location) {
        assert servers[..n][k] == servers[k];
      }
      if InGroup(servers[n], location) {
        from := from + [n];
      }
    }
  }

  lemma GroupedHaveIds(servers: seq<Server>, location: string)
    ensures forall k :: 0 <= k < |servers| && InGroup(servers[k], location) ==> Trim(servers[k].indexId) != ""
  {
  }

  /** A member id is trimmed, so trimming it again changes nothing. */
  lemma MembersAreTrimmed(servers: seq<Server>, location: string, id: string)
    requires id in MemberIds(servers, location)
    ensures Trim(id) == id
  {
    MembersAreTheGroup(servers, location, id);
    var server :| server in servers && Trim(server.indexId) == id;
    TrimIdempotent(server.indexId);
  }

  predicate Distinct<T(==)>(s: seq<T>) {
    forall i, j :: 0 <= i < j < |s| ==> s[i] != s[j]
  }

  predicate DistinctIds(servers: seq<Server>) {
    forall i, j :: 0 <= i < j < |servers| && Trim(servers[i].indexId) == Trim(servers[j].indexId) ==>
                     Trim(servers[i].indexId) == ""
  }

  lemma {:induction false} MembersAreDistinct(servers: seq<Server>, location: string)
    requires DistinctIds(servers)
    ensures Distinct(MemberIds(servers, location))
    decreases |servers|
  {
    if servers != [] {
      var n := |servers| - 1;
      MembersAreDistinct(servers[..n], location);
      if InGroup(servers[n], location) {
        MembersAreTheGroup(servers[..n], location, Trim(servers[n].indexId));
      }
    }
  }

  predicate IsProbeRankable(server: Server) {
    !server.custom && Trim(server.indexId) != ""
  }

  // ----- Probe results --------------------------------------------------------------------------

  /** A non-negative latency is a reachable measurement, a negative one a probed-and-unreachable answer. */
  datatype WarmProbe = WarmProbe(latencyMs: real, measuredAtMs: int)

  type WarmMap = map<string, WarmProbe>

  const WARM_RESULT_TTL_MS := 6 * 60 * 1000
  const WARM_PROBE_BATCH_LIMIT := 5

  function Harvested(warm: WarmMap, indexId: string, parsed: Option<real>, now: int): WarmMap {
    if Trim(indexId) == "" then warm
    else warm[Trim(indexId) := WarmProbe(if parsed.Some? then parsed.value else -1.0, now)]
  }

  /** An answer touches its own entry only: every other id keeps its entry or its absence. */
  lemma HarvestLeavesOthers(warm: WarmMap, indexId: string, parsed: Option<real>, now: int, id: string)
    ensures var after := Harvested(warm, indexId, parsed, now);
      && (id != Trim(indexId) || id == "" ==> (id in after <==> id in warm) && (id in warm ==> after[id] == warm[id]))
      && (id == Trim(indexId) != "" ==>
            && id in after && after[id].measuredAtMs == now
            && (parsed.None? ==> after[id].latencyMs < 0.0) && (parsed.Some? ==> after[id].latencyMs == parsed.value))
  {
  }

  /** `parsed` is what the latency parser made of the result text. */
  method HarvestProbeResult(warm: WarmMap, indexId: string, parsed: Option<real>, now: int)
    returns (harvested: WarmMap)
    ensures harvested == Harvested(warm, indexId, parsed, now)
  {
    var id := Trim(indexId);
    if id == "" {
      return warm;
    }
    var latencyMs := -1.0;
    if parsed.Some? {
      latencyMs := parsed.value;
    }
    return warm[id := WarmProbe(latencyMs, now)];
  }

  predicate Keeps(warm: WarmMap, id: string, activeIds: seq<string>, now: int, ttl: int)
    requires id in warm
  {
    now - warm[id].measuredAtMs <= ttl && (activeIds == [] || id in activeIds)
  }

  function Pruned(warm: WarmMap, activeIds: seq<string>, now: int, ttl: int): WarmMap {
    map id | id in warm && Keeps(warm, id, activeIds, now, ttl) :: warm[id]
  }

  method PruneWarmResults(warm: WarmMap, activeIds: seq<string>, now: int, ttl: int) returns (pruned: WarmMap)
    ensures pruned == Pruned(warm, activeIds, now, ttl)
    ensures forall id :: id in pruned <==>
              id in warm && now - warm[id].measuredAtMs <= ttl && (activeIds == [] || id in activeIds)
    ensures forall id :: id in pruned ==> pruned[id] == warm[id]
  {
    var active := set id | id in activeIds;
    pruned := warm;
    var unvisited := warm.Keys;
    while unvisited != {}
      invariant unvisited <= warm.Keys
      invariant forall id :: id in pruned <==> id in warm && (id in unvisited || Keeps(warm, id, activeIds, now, ttl))
      invariant forall id :: id in pruned ==> pruned[id] == warm[id]
      decreases unvisited
    {
      var id :| id in unvisited;
      unvisited := unvisited - {id};
      var stale := now - warm[id].measuredAtMs > ttl;
      var orphan := active != {} && id !in active;
      assert active == {} <==> activeIds == [] by {
        if activeIds != [] {
          assert activeIds[0] in active;
        }
      }
      if stale || orphan {
        pruned := pruned - {id};
      }
    }
  }

  // ----- The failure path's first choice --------------------------------------------------------

  predicate FreshReachable(warm: WarmMap, id: string, now: int, ttl: int) {
    && id in warm
    && warm[id].measuredAtMs > 0
    && now - warm[id].measuredAtMs <= ttl
    && warm[id].latencyMs >= 0.0
  }

  predicate Candidate(id: ServerId, failed: string, warm: WarmMap, now: int, ttl: int) {
    id != failed && FreshReachable(warm, id, now, ttl)
  }

  /** The position of the candidate with the lowest latency, the earliest one on a tie; -1 without
      a candidate. */
  function BestIndex(ids: seq<ServerId>, failed: string, warm: WarmMap, now: int, ttl: int): (r: int)
    ensures -1 <= r < |ids|
    ensures r == -1 <==> forall i :: 0 <= i < |ids| ==> !Candidate(ids[i], failed, warm, now, ttl)
    ensures r >= 0 ==> Candidate(ids[r], failed, warm, now, ttl)
    ensures r >= 0 ==> forall i :: 0 <= i < |ids| && Candidate(ids[i], failed, warm, now, ttl) ==>
              warm[ids[r]].latencyMs <= warm[ids[i]].latencyMs
              && (i < r ==> warm[ids[r]].latencyMs < warm[ids[i]].latencyMs)
  {
    if ids == [] then -1 else
    var n := |ids| - 1;
    var best := BestIndex(ids[..n], failed, warm, now, ttl);
    if Candidate(ids[n], failed, warm, now, ttl)
       && (best == -1 || warm[ids[n]].latencyMs < warm[ids[best]].latencyMs) then n
    else best
  }

  function SwitchTarget(ids: seq<ServerId>, failed: string, warm: WarmMap, now: int, ttl: int): string {
    var best := BestIndex(ids, failed, warm, now, ttl);
    if best == -1 then "" else ids[best]
  }

  /** What a target is, measurement by measurement: another member, measured, not too long ago, and
      answering; none such is faster, and those before it in the list are slower.  There is none only if
      no other member has such a measurement. */
  lemma TargetIsBest(ids: seq<ServerId>, failed: string, warm: WarmMap, now: int, ttl: int)
    ensures var best := SwitchTarget(ids, failed, warm, now, ttl);
      && (best != "" ==>
            && best in ids && best != failed && best in warm
            && 0 < warm[best].measuredAtMs && now - warm[best].measuredAtMs <= ttl && warm[best].latencyMs >= 0.0)
      && forall i :: 0 <= i < |ids| && ids[i] != failed && ids[i] in warm && 0 < warm[ids[i]].measuredAtMs
                     && now - warm[ids[i]].measuredAtMs <= ttl && warm[ids[i]].latencyMs >= 0.0 ==>
           && best != "" && warm[best].latencyMs <= warm[ids[i]].latencyMs
           && (best !in ids[..i + 1] ==> warm[best].latencyMs < warm[ids[i]].latencyMs)
  {
    var at := BestIndex(ids, failed, warm, now, ttl);
    forall i | 0 <= i < |ids| && ids[i] != failed && ids[i] in warm && 0 < warm[ids[i]].measuredAtMs
               && now - warm[ids[i]].measuredAtMs <= ttl && warm[ids[i]].latencyMs >= 0.0
      ensures at >= 0 && warm[ids[at]].latencyMs <= warm[ids[i]].latencyMs
      ensures ids[at] !in ids[..i + 1] ==> warm[ids[at]].latencyMs < warm[ids[i]].latencyMs
    {
      assert Candidate(ids[i], failed, warm, now, ttl);
      assert at <= i ==> ids[..i + 1][at] == ids[at];
    }
  }

  /** A member whose last answer was no measurement is never a target, whatever was known of it before. */
  lemma UnparsableIsNeverATarget(ids: seq<ServerId>, failed: string, warm: WarmMap, id: string, answered: int,
                                 now: int, ttl: int)
    requires Trim(id) != ""
    ensures SwitchTarget(ids, failed, Harvested(warm, id, None, answered), now, ttl) != Trim(id)
  {
    TargetIsBest(ids, failed, Harvested(warm, id, None, answered), now, ttl);
  }

  method PickWarmSwitchTarget(ids: seq<ServerId>, failedId: string, warm: WarmMap, now: int, ttl: int)
    returns (bestId: string)
    ensures bestId == SwitchTarget(ids, Trim(failedId), warm, now, ttl)
    ensures bestId != "" ==>
              && bestId in ids && bestId != Trim(failedId) && bestId in warm
              && 0 < warm[bestId].measuredAtMs && now - warm[bestId].measuredAtMs <= ttl
              && warm[bestId].latencyMs >= 0.0
    ensures forall id :: id in ids && id != Trim(failedId) && id in warm && 0 < warm[id].measuredAtMs
                         && now - warm[id].measuredAtMs <= ttl && warm[id].latencyMs >= 0.0 ==>
              bestId != "" && warm[bestId].latencyMs <= warm[id].latencyMs
  {
    var failed := Trim(failedId);
    bestId := "";
    var bestLatencyMs := -1.0;
    for i := 0 to |ids|
      invariant bestId == SwitchTarget(ids[..i], failed, warm, now, ttl)
      invariant bestId != "" ==> bestId in warm && bestLatencyMs == warm[bestId].latencyMs
    {
      assert ids[..i + 1][..i] == ids[..i];
      var id := ids[i];
      if id == failed {
        continue;
      }
      if id !in warm || warm[id].measuredAtMs <= 0 {
        continue;
      }
      var entry := warm[id];
      if now - entry.measuredAtMs > ttl {
        continue;
      }
      if entry.latencyMs < 0.0 {
        continue;
      }
      if bestId == "" || entry.latencyMs < bestLatencyMs {
        bestId := id;
        bestLatencyMs := entry.latencyMs;
      }
    }
    assert ids[..|ids|] == ids;
    TargetIsBest(ids, failed, warm, now, ttl);
  }

  // ----- The warm round's probe list ------------------------------------------------------------

  function LatencyOf(warm: WarmMap, id: string): real {
    if id in warm then warm[id].latencyMs else -1.0
  }

  ghost predicate Positions(ids: seq<ServerId>, order: seq<nat>) {
    forall p :: 0 <= p < |order| ==> order[p] < |ids|
  }

  /** The ids at the positions of `order`. */
  function Picked(ids: seq<ServerId>, order: seq<nat>): (picked: seq<ServerId>)
    requires Positions(ids, order)
    ensures |picked| == |order|
  {
    if order == [] then [] else Picked(ids, order[..|order| - 1]) + [ids[order[|order| - 1]]]
  }

  lemma {:induction false} PickedAt(ids: seq<ServerId>, order: seq<nat>)
    requires Positions(ids, order)
    ensures forall p :: 0 <= p < |order| ==> Picked(ids, order)[p] == ids[order[p]]
  {
    if order != [] {
      PickedAt(ids, order[..|order| - 1]);
    }
  }

  /** Does position `i` rank before position `j`?  Fresh reachable members come first, by latency
      and then by list position; everyone else follows in list order. */
  predicate RanksBefore(ids: seq<ServerId>, warm: WarmMap, now: int, ttl: int, i: nat, j: nat)
    requires i < |ids| && j < |ids|
  {
    var fi, fj := FreshReachable(warm, ids[i], now, ttl), FreshReachable(warm, ids[j], now, ttl);
    if fi && fj then
      warm[ids[i]].latencyMs < warm[ids[j]].latencyMs || (warm[ids[i]].latencyMs == warm[ids[j]].latencyMs && i < j)
    else fi || (!fj && i < j)
  }

  ghost predicate Ranked(ids: seq<ServerId>, warm: WarmMap, now: int, ttl: int, order: seq<nat>) {
    && Positions(ids, order)
    && forall p, q :: 0 <= p < q < |order| ==> RanksBefore(ids, warm, now, ttl, order[p], order[q])
  }

  /** The first place at or after `p` whose latency is above `latency`. */
  function InsertionPoint(ids: seq<ServerId>, warm: WarmMap, order: seq<nat>, latency: real, p: nat): (r: nat)
    requires p <= |order| && Positions(ids, order)
    ensures p <= r <= |order|
    ensures forall q :: p <= q < r ==> LatencyOf(warm, ids[order[q]]) <= latency
    ensures r < |order| ==> LatencyOf(warm, ids[order[r]]) > latency
    decreases |order| - p
  {
    if p < |order| && LatencyOf(warm, ids[order[p]]) <= latency then InsertionPoint(ids, warm, order, latency, p + 1)
    else p
  }

  /** Stable insertion: the fresh reachable ones among the first `n` members. */
  function FreshRanking(ids: seq<ServerId>, warm: WarmMap, now: int, ttl: int, n: nat): (order: seq<nat>)
    requires n <= |ids|
    ensures Positions(ids, order)
  {
    if n == 0 then [] else
    var before := FreshRanking(ids, warm, now, ttl, n - 1);
    if FreshReachable(warm, ids[n - 1], now, ttl)
    then Inserted(before, InsertionPoint(ids, warm, before, warm[ids[n - 1]].latencyMs, 0), n - 1)
    else before
  }

  /** `base`, then whoever of the first `n` members is not in it yet. */
  function WithRest(ids: seq<ServerId>, base: seq<nat>, n: nat): (order: seq<nat>)
    requires n <= |ids| && Positions(ids, base)
    ensures Positions(ids, order)
  {
    if n == 0 then base else
    var before := WithRest(ids, base, n - 1);
    if ids[n - 1] in Picked(ids, before) then before else before + [n - 1]
  }

  function ProbeRanking(ids: seq<ServerId>, warm: WarmMap, now: int, ttl: int): (order: seq<nat>)
    ensures Positions(ids, order)
  {
    WithRest(ids, FreshRanking(ids, warm, now, ttl, |ids|), |ids|)
  }

  function Inserted<T(!new)>(s: seq<T>, at: nat, x: T): (r: seq<T>)
    requires at <= |s|
    ensures |r| == |s| + 1
    ensures forall p :: 0 <= p < |r| ==> r[p] == if p < at then s[p] else if p == at then x else s[p - 1]
    ensures forall y :: y in r <==> y in s || y == x
  {
    assert s == s[..at] + s[at..];
    s[..at] + [x] + s[at..]
  }

  lemma InsertedIsRanked(ids: seq<ServerId>, warm: WarmMap, now: int, ttl: int, before: seq<nat>, i: nat, at: nat)
    requires Ranked(ids, warm, now, ttl, before) && i < |ids| && FreshReachable(warm, ids[i], now, ttl)
    requires forall q :: 0 <= q < |before| ==> before[q] < i && FreshReachable(warm, ids[before[q]], now, ttl)
    requires at == InsertionPoint(ids, warm, before, warm[ids[i]].latencyMs, 0)
    ensures Ranked(ids, warm, now, ttl, Inserted(before, at, i))
  {
    var after := Inserted(before, at, i);
    forall q | 0 <= q < |before|
      ensures if q < at then RanksBefore(ids, warm, now, ttl, before[q], i)
              else RanksBefore(ids, warm, now, ttl, i, before[q])
    {
      if q > at {
        assert RanksBefore(ids, warm, now, ttl, before[at], before[q]);
      }
    }
    forall p, q | 0 <= p < q < |after| ensures RanksBefore(ids, warm, now, ttl, after[p], after[q]) {
      if p != at && q != at {
        var p', q' := if p < at then p else p - 1, if q < at then q else q - 1;
        assert RanksBefore(ids, warm, now, ttl, before[p'], before[q']);
      }
    }
  }

  predicate IsFirstOccurrence(ids: seq<ServerId>, k: nat)
    requires k < |ids|
  {
    forall j :: 0 <= j < k ==> ids[j] != ids[k]
  }

  lemma InsertedIsListed(ids: seq<ServerId>, warm: WarmMap, now: int, ttl: int, before: seq<nat>, i: nat)
    requires Ranked(ids, warm, now, ttl, before) && i < |ids| && FreshReachable(warm, ids[i], now, ttl)
    requires forall k: nat :: k in before <==> k < i && FreshReachable(warm, ids[k], now, ttl)
    ensures var at := InsertionPoint(ids, warm, before, warm[ids[i]].latencyMs, 0);
            && Ranked(ids, warm, now, ttl, Inserted(before, at, i))
            && forall k: nat :: k in Inserted(before, at, i) <==> k < i + 1 && FreshReachable(warm, ids[k], now, ttl)
  {
    var at := InsertionPoint(ids, warm, before, warm[ids[i]].latencyMs, 0);
    forall q | 0 <= q < |before|
      ensures before[q] < i && FreshReachable(warm, ids[before[q]], now, ttl)
    {
      assert before[q] in before;
    }
    InsertedIsRanked(ids, warm, now, ttl, before, i, at);
  }

  lemma {:induction false} FreshRankingIsRanked(ids: seq<ServerId>, warm: WarmMap, now: int, ttl: int, n: nat)
    requires n <= |ids|
    ensures Ranked(ids, warm, now, ttl, FreshRanking(ids, warm, now, ttl, n))
    ensures forall k: nat :: k in FreshRanking(ids, warm, now, ttl, n) <==>
              k < n && FreshReachable(warm, ids[k], now, ttl)
  {
    if n != 0 {
      var before := FreshRanking(ids, warm, now, ttl, n - 1);
      FreshRankingIsRanked(ids, warm, now, ttl, n - 1);
      if FreshReachable(warm, ids[n - 1], now, ttl) {
        InsertedIsListed(ids, warm, now, ttl, before, n - 1);
      }
    }
  }

  /** The position belongs on the probe list. */
  predicate Listed(ids: seq<ServerId>, warm: WarmMap, now: int, ttl: int, k: nat, n: nat) {
    k < |ids| && (FreshReachable(warm, ids[k], now, ttl) || (k < n && IsFirstOccurrence(ids, k)))
  }

  lemma {:induction false} RestIsRanked(ids: seq<ServerId>, warm: WarmMap, now: int, ttl: int, base: seq<nat>, n: nat)
    requires n <= |ids| && Ranked(ids, warm, now, ttl, base)
    requires forall k: nat :: k in base <==> Listed(ids, warm, now, ttl, k, 0)
    ensures Ranked(ids, warm, now, ttl, WithRest(ids, base, n))
    ensures forall k: nat :: k in WithRest(ids, base, n) <==> Listed(ids, warm, now, ttl, k, n)
  {
    if n != 0 {
      var before := WithRest(ids, base, n - 1);
      RestIsRanked(ids, warm, now, ttl, base, n - 1);
      ContainedMeansListed(ids, warm, now, ttl, before, n - 1);
      if ids[n - 1] !in Picked(ids, before) {
        AppendedIsListed(ids, warm, now, ttl, before, n - 1);
      }
    }
  }

  /** The ranking behind the probe list: sorted best first, and made of exactly the listed positions. */
  lemma ProbeRankingIsRanked(ids: seq<ServerId>, warm: WarmMap, now: int, ttl: int)
    ensures Ranked(ids, warm, now, ttl, ProbeRanking(ids, warm, now, ttl))
    ensures forall k: nat :: k in ProbeRanking(ids, warm, now, ttl) <==> Listed(ids, warm, now, ttl, k, |ids|)
  {
    FreshRankingIsRanked(ids, warm, now, ttl, |ids|);
    RestIsRanked(ids, warm, now, ttl, FreshRanking(ids, warm, now, ttl, |ids|), |ids|);
  }

  lemma AppendedIsListed(ids: seq<ServerId>, warm: WarmMap, now: int, ttl: int, before: seq<nat>, i: nat)
    requires Ranked(ids, warm, now, ttl, before) && i < |ids|
    requires !FreshReachable(warm, ids[i], now, ttl) && IsFirstOccurrence(ids, i)
    requires forall k: nat :: k in before <==> Listed(ids, warm, now, ttl, k, i)
    ensures Ranked(ids, warm, now, ttl, before + [i])
    ensures forall k: nat :: k in before + [i] <==> Listed(ids, warm, now, ttl, k, i + 1)
  {
    forall p | 0 <= p < |before|
      ensures FreshReachable(warm, ids[before[p]], now, ttl) || before[p] < i
    {
      assert before[p] in before;
    }
    AppendedIsRanked(ids, warm, now, ttl, before, i);
    forall k: nat ensures k in before + [i] <==> Listed(ids, warm, now, ttl, k, i + 1) {
      assert k in before <==> Listed(ids, warm, now, ttl, k, i);
    }
  }

  lemma AppendedIsRanked(ids: seq<ServerId>, warm: WarmMap, now: int, ttl: int, before: seq<nat>, i: nat)
    requires Ranked(ids, warm, now, ttl, before) && i < |ids| && !FreshReachable(warm, ids[i], now, ttl)
    requires forall p :: 0 <= p < |before| ==> FreshReachable(warm, ids[before[p]], now, ttl) || before[p] < i
    ensures Ranked(ids, warm, now, ttl, before + [i])
    ensures forall k :: k in before + [i] <==> k in before || k == i
    ensures Picked(ids, before + [i]) == Picked(ids, before) + [ids[i]]
  {
    assert (before + [i])[..|before|] == before;
  }

  lemma ContainedMeansListed(ids: seq<ServerId>, warm: WarmMap, now: int, ttl: int, before: seq<nat>, i: nat)
    requires i < |ids| && Positions(ids, before)
    requires forall k: nat :: k in before <==> Listed(ids, warm, now, ttl, k, i)
    ensures ids[i] in Picked(ids, before) <==> FreshReachable(warm, ids[i], now, ttl) || !IsFirstOccurrence(ids, i)
  {
    var picked := Picked(ids, before);
    PickedAt(ids, before);
    if ids[i] in picked {
      var p :| 0 <= p < |picked| && picked[p] == ids[i];
      assert before[p] in before;
    }
    if FreshReachable(warm, ids[i], now, ttl) {
      assert Listed(ids, warm, now, ttl, i, i);
      var p :| 0 <= p < |before| && before[p] == i;
      assert picked[p] == ids[i];
    } else if !IsFirstOccurrence(ids, i) {
      var j := FirstOccurrence(ids, i);
      assert Listed(ids, warm, now, ttl, j, i);
      var p :| 0 <= p < |before| && before[p] == j;
      assert picked[p] == ids[i];
    }
  }

  lemma FirstOccurrence(ids: seq<ServerId>, i: nat) returns (j: nat)
    requires i < |ids|
    ensures j <= i && ids[j] == ids[i] && IsFirstOccurrence(ids, j)
  {
    if IsFirstOccurrence(ids, i) {
      j := i;
    } else {
      var earlier :| 0 <= earlier < i && ids[earlier] == ids[i];
      j := FirstOccurrence(ids, earlier);
    }
  }

  lemma {:induction false} PickedInserted(ids: seq<ServerId>, order: seq<nat>, at: nat, i: nat)
    requires at <= |order| && i < |ids| && Positions(ids, order)
    ensures Positions(ids, Inserted(order, at, i))
    ensures Picked(ids, Inserted(order, at, i)) == Inserted(Picked(ids, order), at, ids[i])
  {
    var inserted := Inserted(order, at, i);
    PickedAt(ids, order);
    forall p | 0 <= p < |inserted| ensures inserted[p] < |ids| {
      assert inserted[p] == if p < at then order[p] else if p == at then i else order[p - 1];
    }
    PickedAt(ids, inserted);
  }

  function ProbeList(ids: seq<ServerId>, warm: WarmMap, now: int, maxCount: nat, ttl: int): seq<ServerId> {
    var ranked := Picked(ids, ProbeRanking(ids, warm, now, ttl));
    if |ranked| > maxCount then ranked[..maxCount] else ranked
  }

  method RankFresh(ids: seq<ServerId>, warm: WarmMap, now: int, ttl: int) returns (ranked: seq<ServerId>)
    ensures ranked == Picked(ids, FreshRanking(ids, warm, now, ttl, |ids|))
  {
    ranked := [];
    for i := 0 to |ids|
      invariant ranked == Picked(ids, FreshRanking(ids, warm, now, ttl, i))
    {
      var id := ids[i];
      var freshReachable := id in warm && warm[id].measuredAtMs > 0 && now - warm[id].measuredAtMs <= ttl
                            && warm[id].latencyMs >= 0.0;
      if !freshReachable {
        continue;
      }
      ghost var order := FreshRanking(ids, warm, now, ttl, i);
      PickedAt(ids, order);
      var position := 0;
      while position < |ranked| && LatencyOf(warm, ranked[position]) <= warm[id].latencyMs
        invariant 0 <= position <= |ranked|
        invariant InsertionPoint(ids, warm, order, warm[id].latencyMs, 0)
                  == InsertionPoint(ids, warm, order, warm[id].latencyMs, position)
      {
        position := position + 1;
      }
      PickedInserted(ids, order, position, i);
      ranked := Inserted(ranked, position, id);
    }
  }

  method AppendRest(ids: seq<ServerId>, start: seq<ServerId>, ghost base: seq<nat>) returns (ranked: seq<ServerId>)
    requires Positions(ids, base) && start == Picked(ids, base)
    ensures ranked == Picked(ids, WithRest(ids, base, |ids|))
  {
    ranked := start;
    for i := 0 to |ids|
      invariant ranked == Picked(ids, WithRest(ids, base, i))
    {
      ghost var order := WithRest(ids, base, i);
      if ids[i] !in ranked {
        assert (order + [i])[..|order|] == order;
        ranked := ranked + [ids[i]];
      }
    }
  }

  method PickWarmProbeCandidates(ids: seq<ServerId>, warm: WarmMap, now: int, maxCount: nat, ttl: int)
    returns (ranked: seq<ServerId>)
    ensures ranked == ProbeList(ids, warm, now, maxCount, ttl)
  {
    ranked := RankFresh(ids, warm, now, ttl);
    ranked := AppendRest(ids, ranked, FreshRanking(ids, warm, now, ttl, |ids|));
    ghost var full := ranked;
    while |ranked| > maxCount
      invariant |ranked| <= |full| && ranked == full[..|ranked|]
      invariant |ranked| >= maxCount || ranked == full
    {
      ranked := ranked[..|ranked| - 1];
    }
  }
}
