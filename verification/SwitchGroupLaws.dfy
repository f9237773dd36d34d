/** Laws of the group decisions: the ranking is unique and a permutation, the one-pass choice of a
    switch target is the head of the ranking, and pruning the warm results cannot be noticed. */
module SwitchGroupLaws {
  import opened SwitchGroup

  // ----- The ranking ----------------------------------------------------------------------------

  lemma RanksBeforeIsStrict(ids: seq<ServerId>, warm: WarmMap, now: int, ttl: int, i: nat, j: nat)
    requires i < |ids| && j < |ids| && RanksBefore(ids, warm, now, ttl, i, j)
    ensures i != j && !RanksBefore(ids, warm, now, ttl, j, i)
  {
  }

  /** Being sorted by `RanksBefore` and holding the same positions determines a ranking. */
  lemma {:induction false} RankingIsUnique(ids: seq<ServerId>, warm: WarmMap, now: int, ttl: int,
                                           a: seq<nat>, b: seq<nat>)
    requires Ranked(ids, warm, now, ttl, a) && Ranked(ids, warm, now, ttl, b)
    requires forall k: nat :: k in a <==> k in b
    ensures a == b
    decreases |a|
  {
    assert b != [] ==> b[0] in b;
    if a != [] {
      assert a[0] in b && b != [];
      SameHead(ids, warm, now, ttl, a, b);
      TailsShareMembers(ids, warm, now, ttl, a, b);
      RankingIsUnique(ids, warm, now, ttl, a[1..], b[1..]);
      assert a == [a[0]] + a[1..] && b == [b[0]] + b[1..];
    }
  }

  lemma SameHead(ids: seq<ServerId>, warm: WarmMap, now: int, ttl: int, a: seq<nat>, b: seq<nat>)
    requires Ranked(ids, warm, now, ttl, a) && Ranked(ids, warm, now, ttl, b)
    requires a != [] && b != [] && a[0] in b && b[0] in a
    ensures a[0] == b[0]
  {
    var p :| 0 <= p < |b| && b[p] == a[0];
    var q :| 0 <= q < |a| && a[q] == b[0];
    HeadRanksFirst(ids, warm, now, ttl, a, q);
    HeadRanksFirst(ids, warm, now, ttl, b, p);
    NotBothBefore(ids, warm, now, ttl, a[0], b[0]);
  }

  lemma HeadRanksFirst(ids: seq<ServerId>, warm: WarmMap, now: int, ttl: int, order: seq<nat>, p: nat)
    requires Ranked(ids, warm, now, ttl, order) && p < |order|
    ensures order[0] < |ids| && order[p] < |ids|
    ensures p == 0 || RanksBefore(ids, warm, now, ttl, order[0], order[p])
  {
  }

  lemma NotBothBefore(ids: seq<ServerId>, warm: WarmMap, now: int, ttl: int, i: nat, j: nat)
    requires i < |ids| && j < |ids|
    ensures !(RanksBefore(ids, warm, now, ttl, i, j) && RanksBefore(ids, warm, now, ttl, j, i))
  {
  }

  lemma TailsShareMembers(ids: seq<ServerId>, warm: WarmMap, now: int, ttl: int, a: seq<nat>, b: seq<nat>)
    requires Ranked(ids, warm, now, ttl, a) && Ranked(ids, warm, now, ttl, b)
    requires forall k: nat :: k in a <==> k in b
    requires a != [] && b != [] && a[0] == b[0]
    ensures forall k: nat :: k in a[1..] <==> k in b[1..]
  {
    TailMembers(ids, warm, now, ttl, a);
    TailMembers(ids, warm, now, ttl, b);
  }

  lemma TailMembers(ids: seq<ServerId>, warm: WarmMap, now: int, ttl: int, a: seq<nat>)
    requires Ranked(ids, warm, now, ttl, a) && a != []
    ensures forall k: nat :: k in a[1..] <==> k in a && k != a[0]
  {
    forall k: nat ensures k in a[1..] <==> k in a && k != a[0] {
      if k in a[1..] {
        var p :| 0 <= p < |a[1..]| && a[1..][p] == k;
        assert RanksBefore(ids, warm, now, ttl, a[0], a[p + 1]);
        RanksBeforeIsStrict(ids, warm, now, ttl, a[0], k);
      }
    }
  }

  /** For distinct members the ranking is a permutation: every position occurs in it, none twice,
      so the probe list holds min(maxCount, n) different members. */
  lemma RankingIsPermutation(ids: seq<ServerId>, warm: WarmMap, now: int, maxCount: nat, ttl: int)
    requires SwitchGroup.Distinct(ids)
    ensures var order := ProbeRanking(ids, warm, now, ttl);
            && |order| == |ids| && SwitchGroup.Distinct(order)
            && (forall k: nat :: k in order <==> k < |ids|)
    ensures |ProbeList(ids, warm, now, maxCount, ttl)| == if |ids| < maxCount then |ids| else maxCount
  {
    var order := ProbeRanking(ids, warm, now, ttl);
    ProbeRankingIsRanked(ids, warm, now, ttl);
    forall k: nat ensures k in order <==> k < |ids| {
      assert k in order <==> Listed(ids, warm, now, ttl, k, |ids|);
    }
    forall p, q | 0 <= p < q < |order| ensures order[p] != order[q] {
      RanksBeforeIsStrict(ids, warm, now, ttl, order[p], order[q]);
    }
    CoveringDistinctLength(order, |ids|);
  }

  lemma {:induction false} CoveringDistinctLength(order: seq<nat>, n: nat)
    requires SwitchGroup.Distinct(order) && forall k: nat :: k in order <==> k < n
    ensures |order| == n
    decreases n
  {
    assert order != [] ==> order[0] in order;
    if n != 0 {
      assert n - 1 in order;
      var p :| 0 <= p < |order| && order[p] == n - 1;
      var rest := order[..p] + order[p + 1..];
      forall k: nat | k in rest ensures k < n - 1 {
        var q :| 0 <= q < |rest| && rest[q] == k;
        assert rest[q] == if q < p then order[q] else order[q + 1];
        assert k in order && k != n - 1;
      }
      forall k: nat | k < n - 1 ensures k in rest {
        assert k in order;
        var q :| 0 <= q < |order| && order[q] == k;
        assert rest[if q < p then q else q - 1] == k;
      }
      CoveringDistinctLength(rest, n - 1);
    }
  }

  /** Which member is measured first, measurement by measurement: when `ids[i]` is listed and `ids[j]` is
      not listed before it, then `ids[j]` has no usable measurement unless `ids[i]` has one at most as
      slow; equal latencies, and members without one, keep their order in the group. */
  lemma ProbeListIsRanked(ids: seq<ServerId>, warm: WarmMap, now: int, maxCount: nat, ttl: int, p: nat, i: nat, j: nat)
    requires SwitchGroup.Distinct(ids) && i < |ids| && j < |ids| && i != j
    requires var list := ProbeList(ids, warm, now, maxCount, ttl);
      p < |list| && list[p] == ids[i] && ids[j] !in list[..p]
    ensures var usedI := ids[i] in warm && 0 < warm[ids[i]].measuredAtMs && now - warm[ids[i]].measuredAtMs <= ttl
                         && warm[ids[i]].latencyMs >= 0.0;
      var usedJ := ids[j] in warm && 0 < warm[ids[j]].measuredAtMs && now - warm[ids[j]].measuredAtMs <= ttl
                   && warm[ids[j]].latencyMs >= 0.0;
      && (usedJ ==> usedI && warm[ids[i]].latencyMs <= warm[ids[j]].latencyMs)
      && (usedI == usedJ && (usedI ==> warm[ids[i]].latencyMs == warm[ids[j]].latencyMs) ==> i < j)
  {
    var order := ProbeRanking(ids, warm, now, ttl);
    hide ProbeRanking, ProbeList, RanksBefore, Ranked;
    ListIsPicked(ids, warm, now, maxCount, ttl);
    var q := ListedLater(ids, order, ProbeList(ids, warm, now, maxCount, ttl), p, i, j);
    RankedPair(ids, warm, now, ttl, order, p, q);
    RanksBeforeMeans(ids, warm, now, ttl, i, j);
  }

  lemma ListIsPicked(ids: seq<ServerId>, warm: WarmMap, now: int, maxCount: nat, ttl: int)
    requires SwitchGroup.Distinct(ids)
    ensures var order, list := ProbeRanking(ids, warm, now, ttl), ProbeList(ids, warm, now, maxCount, ttl);
      && Ranked(ids, warm, now, ttl, order) && Positions(ids, order) && |list| <= |order|
      && (forall k: nat :: k in order <==> k < |ids|)
      && forall k :: 0 <= k < |list| ==> list[k] == ids[order[k]]
  {
    ProbeRankingIsRanked(ids, warm, now, ttl);
    RankingIsPermutation(ids, warm, now, maxCount, ttl);
    hide ProbeRanking;
    PickedAt(ids, ProbeRanking(ids, warm, now, ttl));
  }

  lemma RankedPair(ids: seq<ServerId>, warm: WarmMap, now: int, ttl: int, order: seq<nat>, p: nat, q: nat)
    requires Ranked(ids, warm, now, ttl, order) && p < q < |order|
    ensures order[p] < |ids| && order[q] < |ids| && RanksBefore(ids, warm, now, ttl, order[p], order[q])
  {
  }

  lemma ListedLater(ids: seq<ServerId>, order: seq<nat>, list: seq<ServerId>, p: nat, i: nat, j: nat) returns (q: nat)
    requires SwitchGroup.Distinct(ids) && i < |ids| && j < |ids| && i != j && j in order && Positions(ids, order)
    requires p < |list| <= |order| && forall k :: 0 <= k < |list| ==> list[k] == ids[order[k]]
    requires list[p] == ids[i] && ids[j] !in list[..p]
    ensures order[p] == i && p < q < |order| && order[q] == j
  {
    q :| 0 <= q < |order| && order[q] == j;
    forall k | 0 <= k < p ensures order[k] != j {
      assert list[..p][k] == ids[order[k]];
    }
  }

  lemma RanksBeforeMeans(ids: seq<ServerId>, warm: WarmMap, now: int, ttl: int, i: nat, j: nat)
    requires i < |ids| && j < |ids| && RanksBefore(ids, warm, now, ttl, i, j)
    ensures var usedI := ids[i] in warm && 0 < warm[ids[i]].measuredAtMs && now - warm[ids[i]].measuredAtMs <= ttl
                         && warm[ids[i]].latencyMs >= 0.0;
      var usedJ := ids[j] in warm && 0 < warm[ids[j]].measuredAtMs && now - warm[ids[j]].measuredAtMs <= ttl
                   && warm[ids[j]].latencyMs >= 0.0;
      && (usedJ ==> usedI && warm[ids[i]].latencyMs <= warm[ids[j]].latencyMs)
      && (usedI == usedJ && (usedI ==> warm[ids[i]].latencyMs == warm[ids[j]].latencyMs) ==> i < j)
  {
  }

  // ----- The switch target is the head of the ranking -------------------------------------------

  function Without(ids: seq<ServerId>, failed: string): (rest: seq<ServerId>)
    ensures failed !in rest
  {
    if ids == [] then [] else
    Without(ids[..|ids| - 1], failed) + if ids[|ids| - 1] == failed then [] else [ids[|ids| - 1]]
  }

  lemma {:induction false} FailedOneDoesNotMatter(ids: seq<ServerId>, failed: string, warm: WarmMap, now: int, ttl: int)
    ensures SwitchTarget(ids, failed, warm, now, ttl) == SwitchTarget(Without(ids, failed), failed, warm, now, ttl)
    decreases |ids|
  {
    assert Without([], failed) == [];
    hide BestIndex, SwitchTarget, FreshReachable, Without;
    if ids != [] {
      var before, last := ids[..|ids| - 1], ids[|ids| - 1];
      FailedOneDoesNotMatter(before, failed, warm, now, ttl);
      assert ids == before + [last];
      OneMoreDoesNotMatter(before, last, failed, warm, now, ttl);
    }
  }

  lemma OneMoreDoesNotMatter(before: seq<ServerId>, last: ServerId, failed: string, warm: WarmMap, now: int, ttl: int)
    requires SwitchTarget(before, failed, warm, now, ttl)
             == SwitchTarget(Without(before, failed), failed, warm, now, ttl)
    ensures SwitchTarget(before + [last], failed, warm, now, ttl)
            == SwitchTarget(Without(before + [last], failed), failed, warm, now, ttl)
  {
    WithoutOneMore(before, last, failed);
    TargetOfOneMore(before, last, failed, warm, now, ttl);
    TargetOfOneMore(Without(before, failed), last, failed, warm, now, ttl);
    assert last == failed ==> !Candidate(last, failed, warm, now, ttl);
    hide BestIndex, SwitchTarget, FreshReachable, Without, LatencyOf, Candidate;
  }

  lemma WithoutOneMore(ids: seq<ServerId>, id: ServerId, failed: string)
    ensures Without(ids + [id], failed) == if id == failed then Without(ids, failed) else Without(ids, failed) + [id]
  {
    assert (ids + [id])[..|ids|] == ids;
  }

  /** How one more member at the end changes the target. */
  lemma TargetOfOneMore(ids: seq<ServerId>, id: ServerId, failed: string, warm: WarmMap, now: int, ttl: int)
    ensures var target := SwitchTarget(ids, failed, warm, now, ttl);
      SwitchTarget(ids + [id], failed, warm, now, ttl)
      == if Candidate(id, failed, warm, now, ttl)
            && (target == "" || LatencyOf(warm, id) < LatencyOf(warm, target)) then id else target
  {
    assert (ids + [id])[..|ids|] == ids;
  }

  /** The failure path's single scan answers the head of the ranking of the other members, when
      that head is fresh and reachable, and nothing otherwise. */
  lemma TargetIsHeadOfRanking(ids: seq<ServerId>, failed: string, warm: WarmMap, now: int, ttl: int)
    ensures var others := Without(ids, failed);
            var order := ProbeRanking(others, warm, now, ttl);
            SwitchTarget(ids, failed, warm, now, ttl)
            == if order != [] && FreshReachable(warm, others[order[0]], now, ttl) then others[order[0]] else ""
  {
    var others := Without(ids, failed);
    var order := ProbeRanking(others, warm, now, ttl);
    FailedOneDoesNotMatter(ids, failed, warm, now, ttl);
    ProbeRankingIsRanked(others, warm, now, ttl);
    var best := BestIndex(others, failed, warm, now, ttl);
    assert forall k: nat :: k < |others| ==> others[k] in others;
    assert forall p :: 0 < p < |order| ==> RanksBefore(others, warm, now, ttl, order[0], order[p]);
    if best >= 0 {
      assert Listed(others, warm, now, ttl, best, |others|);
      assert best in order;
      var p :| 0 <= p < |order| && order[p] == best;
    } else if order != [] {
      assert others[order[0]] in others;
    }
  }

  // ----- Pruning is invisible -------------------------------------------------------------------

  /** Two warm maps that give the same answer about every fresh reachable member of `ids`. */
  ghost predicate Agree(ids: seq<ServerId>, a: WarmMap, b: WarmMap, now: int, ttl: int) {
    forall id :: id in ids ==>
      && (FreshReachable(a, id, now, ttl) <==> FreshReachable(b, id, now, ttl))
      && (FreshReachable(a, id, now, ttl) ==> a[id] == b[id])
  }

  lemma {:induction false} AgreeingTargets(ids: seq<ServerId>, failed: string, a: WarmMap, b: WarmMap,
                                           now: int, ttl: int)
    requires Agree(ids, a, b, now, ttl)
    ensures BestIndex(ids, failed, a, now, ttl) == BestIndex(ids, failed, b, now, ttl)
    decreases |ids|
  {
    if ids != [] {
      AgreeingTargets(ids[..|ids| - 1], failed, a, b, now, ttl);
    }
  }

  lemma {:induction false} AgreeingInsertionPoints(ids: seq<ServerId>, a: WarmMap, b: WarmMap, order: seq<nat>,
                                                   latency: real, p: nat)
    requires p <= |order| && Positions(ids, order)
    requires forall q :: 0 <= q < |order| ==> LatencyOf(a, ids[order[q]]) == LatencyOf(b, ids[order[q]])
    ensures InsertionPoint(ids, a, order, latency, p) == InsertionPoint(ids, b, order, latency, p)
    decreases |order| - p
  {
    if p < |order| {
      AgreeingInsertionPoints(ids, a, b, order, latency, p + 1);
    }
  }

  lemma {:induction false} AgreeingRankings(ids: seq<ServerId>, a: WarmMap, b: WarmMap, now: int, ttl: int, n: nat)
    requires Agree(ids, a, b, now, ttl) && n <= |ids|
    ensures FreshRanking(ids, a, now, ttl, n) == FreshRanking(ids, b, now, ttl, n)
  {
    if n != 0 {
      AgreeingRankings(ids, a, b, now, ttl, n - 1);
      var order := FreshRanking(ids, a, now, ttl, n - 1);
      if FreshReachable(a, ids[n - 1], now, ttl) {
        FreshRankingIsRanked(ids, a, now, ttl, n - 1);
        forall q | 0 <= q < |order| ensures LatencyOf(a, ids[order[q]]) == LatencyOf(b, ids[order[q]]) {
          assert order[q] in order && ids[order[q]] in ids;
        }
        AgreeingInsertionPoints(ids, a, b, order, a[ids[n - 1]].latencyMs, 0);
      }
    }
  }

  /** Pruning the warm results at time `pruneTime` against the group (or against no group, as every
      harvest does) changes neither the switch target nor the probe list for any part of the group
      at that time or later. */
  lemma PruningIsInvisible(warm: WarmMap, group: seq<string>, pruneTime: int, ids: seq<ServerId>, failed: string,
                           now: int, maxCount: nat, ttl: int)
    requires pruneTime <= now
    requires group == [] || forall id :: id in ids ==> id in group
    ensures SwitchTarget(ids, failed, Pruned(warm, group, pruneTime, ttl), now, ttl)
            == SwitchTarget(ids, failed, warm, now, ttl)
    ensures ProbeList(ids, Pruned(warm, group, pruneTime, ttl), now, maxCount, ttl)
            == ProbeList(ids, warm, now, maxCount, ttl)
  {
    var pruned := Pruned(warm, group, pruneTime, ttl);
    assert Agree(ids, pruned, warm, now, ttl);
    AgreeingTargets(ids, failed, pruned, warm, now, ttl);
    AgreeingRankings(ids, pruned, warm, now, ttl, |ids|);
  }

  /** The clock condition cannot be dropped: after a step back of any size, a measurement that was
      pruned as too old would have been fresh again. */
  lemma PruningShowsAfterClockStepsBack(id: ServerId, pruneTime: int, now: int, ttl: int)
    requires now < pruneTime && pruneTime > ttl + 1
    ensures exists warm: WarmMap ::
              SwitchTarget([id], "", Pruned(warm, [id], pruneTime, ttl), now, ttl)
              != SwitchTarget([id], "", warm, now, ttl)
  {
    var warm: WarmMap := map[id := WarmProbe(0.0, pruneTime - ttl - 1)];
    assert Candidate([id][0], "", warm, now, ttl);
    assert SwitchTarget([id], "", warm, now, ttl) == id;
    assert SwitchTarget([id], "", Pruned(warm, [id], pruneTime, ttl), now, ttl) == "";
  }

  /** After a round pruned against a group, only members of the group have results. */
  lemma PrunedKeysAreMembers(warm: WarmMap, group: seq<string>, now: int, ttl: int, id: string)
    requires group != [] && id in Pruned(warm, group, now, ttl)
    ensures id in group && now - Pruned(warm, group, now, ttl)[id].measuredAtMs <= ttl
  {
  }
}
