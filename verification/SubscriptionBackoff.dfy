/** Which subscriptions a timer tick refreshes, and how failing ones are thinned out. */
module SubscriptionBackoff {
  import opened Basics

  const CHECK_INTERVAL_MS := 300000
  const MAX_BACKOFF_STREAK: nat := 6
  const MINIMUM_HOURS := 1
  const MAXIMUM_HOURS := 168

  datatype SubItem = SubItem(id: string, url: string, enabled: bool, failStreak: int, lastUpdatedAtMs: int)

  datatype Config = Config(autoUpdate: bool, intervalHours: int, subscriptions: seq<SubItem>)

  function PowerOfTwo(n: nat): (p: nat)
    ensures p > 0
  {
    if n == 0 then 1 else 2 * PowerOfTwo(n - 1)
  }

  /** How many ticks a subscription that failed this often waits for its turn. */
  function BackoffTickPeriod(failStreak: int): (p: nat)
    ensures p > 0
  {
    PowerOfTwo(if failStreak < 0 then 0 else if failStreak > MAX_BACKOFF_STREAK then MAX_BACKOFF_STREAK else failStreak)
  }

  lemma PeriodValues(failStreak: int)
    ensures BackoffTickPeriod(failStreak) in {1, 2, 4, 8, 16, 32, 64}
    ensures failStreak > 0 ==> BackoffTickPeriod(failStreak) > 1
  {
    assert PowerOfTwo(3) == 8;
    assert PowerOfTwo(6) == 64;
  }

  function NormalizedHours(hours: int): int {
    if hours < MINIMUM_HOURS then MINIMUM_HOURS else if hours > MAXIMUM_HOURS then MAXIMUM_HOURS else hours
  }

  function IntervalMs(hours: int): int {
    NormalizedHours(hours) * 60 * 60 * 1000
  }

  predicate InTurn(item: SubItem, nowMs: int) {
    item.failStreak <= 0 || TruncatedDiv(nowMs, CHECK_INTERVAL_MS) % BackoffTickPeriod(item.failStreak) == 0
  }

  predicate Overdue(item: SubItem, hours: int, nowMs: int) {
    item.lastUpdatedAtMs <= 0 || nowMs - item.lastUpdatedAtMs >= IntervalMs(hours)
  }

  predicate Eligible(item: SubItem, hours: int, nowMs: int) {
    item.enabled && Trim(item.url) != "" && InTurn(item, nowMs) && Overdue(item, hours, nowMs) && Trim(item.id) != ""
  }

  /** The ids due among the first `k` subscriptions. */
  function DueAmong(items: seq<SubItem>, hours: int, nowMs: int, k: nat): seq<string>
    requires k <= |items|
  {
    if k == 0 then [] else
    var due := DueAmong(items, hours, nowMs, k - 1);
    var id := Trim(items[k - 1].id);
    if Eligible(items[k - 1], hours, nowMs) && id !in due then due + [id] else due
  }

  function Due(config: Config, nowMs: int): seq<string> {
    if !config.autoUpdate then []
    else DueAmong(config.subscriptions, config.intervalHours, nowMs, |config.subscriptions|)
  }

  method DueSubscriptionIds(config: Config, nowMs: int) returns (due: seq<string>)
    ensures due == Due(config, nowMs)
    ensures !config.autoUpdate ==> due == []
  {
    hide Trim, BackoffTickPeriod, IntervalMs, TruncatedDiv;
    due := [];
    if !config.autoUpdate {
      return;
    }
    var intervalMs := IntervalMs(config.intervalHours);
    var tickIndex := TruncatedDiv(nowMs, CHECK_INTERVAL_MS);
    var k := 0;
    while k < |config.subscriptions|
      invariant 0 <= k <= |config.subscriptions|
      invariant due == DueAmong(config.subscriptions, config.intervalHours, nowMs, k)
    {
      var item := config.subscriptions[k];
      k := k + 1;
      if !item.enabled || Trim(item.url) == "" {
        continue;
      }
      if item.failStreak > 0 && tickIndex % BackoffTickPeriod(item.failStreak) != 0 {
        continue;
      }
      if item.lastUpdatedAtMs <= 0 || nowMs - item.lastUpdatedAtMs >= intervalMs {
        var id := Trim(item.id);
        if id != "" && id !in due {
          due := due + [id];
        }
      }
    }
  }

  /** When a subscription is due: switched on, with an address and an id, never updated or not for the
      interval, held between an hour and a week, and after s failures in a row on every 2^s-th tick,
      from the sixth failure on on every 64th. */
  lemma EligibleExactlyWhen(item: SubItem, hours: int, nowMs: int)
    ensures Eligible(item, hours, nowMs) <==>
              && item.enabled && Trim(item.url) != "" && Trim(item.id) != ""
              && (item.lastUpdatedAtMs <= 0
                  || var held := if hours < 1 then 1 else if hours > 168 then 168 else hours;
                     nowMs - item.lastUpdatedAtMs >= held * 3600000)
              && var s, tick := item.failStreak, TruncatedDiv(nowMs, 300000);
                 && (s == 1 ==> tick % 2 == 0) && (s == 2 ==> tick % 4 == 0) && (s == 3 ==> tick % 8 == 0)
                 && (s == 4 ==> tick % 16 == 0) && (s == 5 ==> tick % 32 == 0) && (s >= 6 ==> tick % 64 == 0)
  {
    hide Trim, TruncatedDiv;
    PeriodIs(item.failStreak);
    hide BackoffTickPeriod;
  }

  lemma PeriodIs(s: int)
    ensures BackoffTickPeriod(s) == if s <= 0 then 1 else if s == 1 then 2 else if s == 2 then 4 else if s == 3 then 8
                                    else if s == 4 then 16 else if s == 5 then 32 else 64
  {
    assert PowerOfTwo(2) == 4;
    assert PowerOfTwo(4) == 16;
    assert PowerOfTwo(6) == 64;
  }

  // ----- What a due list holds ------------------------------------------------------------------

  /** Exactly the ids of eligible subscriptions, each once. */
  lemma {:induction false} DueHoldsTheEligible(items: seq<SubItem>, hours: int, nowMs: int, k: nat)
    requires k <= |items|
    ensures var due := DueAmong(items, hours, nowMs, k);
      && (forall i, j :: 0 <= i < j < |due| ==> due[i] != due[j])
      && (forall i :: 0 <= i < k && Eligible(items[i], hours, nowMs) ==> Trim(items[i].id) in due)
      && (forall id :: id in due ==>
            exists i :: 0 <= i < k && Eligible(items[i], hours, nowMs) && Trim(items[i].id) == id)
    decreases k
  {
    hide Eligible, Trim;
    if k > 0 {
      DueHoldsTheEligible(items, hours, nowMs, k - 1);
    }
  }

  /** Where each due id first stands in the list: the due list has the list's order. */
  lemma {:induction false} DueKeepsListOrder(items: seq<SubItem>, hours: int, nowMs: int, k: nat)
    returns (from: seq<nat>)
    requires k <= |items|
    ensures var due := DueAmong(items, hours, nowMs, k);
      && |from| == |due|
      && (forall j :: 0 <= j < |from| ==>
            && from[j] < k && Trim(items[from[j]].id) == due[j] && Eligible(items[from[j]], hours, nowMs)
            && forall i :: 0 <= i < from[j] && Eligible(items[i], hours, nowMs) ==> Trim(items[i].id) != due[j])
      && (forall i, j :: 0 <= i < j < |from| ==> from[i] < from[j])
    decreases k
  {
    hide Eligible, Trim;
    from := [];
    if k > 0 {
      from := DueKeepsListOrder(items, hours, nowMs, k - 1);
      if |DueAmong(items, hours, nowMs, k)| > |from| {
        DueHoldsTheEligible(items, hours, nowMs, k - 1);
        from := from + [k - 1];
      }
    }
  }

  predicate IdIsOwn(items: seq<SubItem>, i: nat) {
    i < |items| && Trim(items[i].id) != ""
    && forall j :: 0 <= j < |items| && j != i ==> Trim(items[j].id) != Trim(items[i].id)
  }

  /** A subscription with an id of its own is due exactly when it is eligible. */
  lemma DueExactlyWhenEligible(config: Config, i: nat, nowMs: int)
    requires config.autoUpdate && IdIsOwn(config.subscriptions, i)
    ensures Trim(config.subscriptions[i].id) in Due(config, nowMs)
       <==> Eligible(config.subscriptions[i], config.intervalHours, nowMs)
  {
    hide Eligible, Trim;
    DueHoldsTheEligible(config.subscriptions, config.intervalHours, nowMs, |config.subscriptions|);
  }

  // ----- Fairness -------------------------------------------------------------------------------

  function Tick(startMs: nat, k: nat): int {
    startMs + k * CHECK_INTERVAL_MS
  }

  lemma TickAdvancesIndex(startMs: nat, k: nat)
    ensures TruncatedDiv(startMs, CHECK_INTERVAL_MS) >= 0
    ensures TruncatedDiv(Tick(startMs, k), CHECK_INTERVAL_MS) == TruncatedDiv(startMs, CHECK_INTERVAL_MS) + k
  {
  }

  /** The first of the next `p` numbers from `t` on that `p` divides. */
  function NextMultiple(t: nat, p: nat): nat
    requires p > 0
  {
    if t % p == 0 then 0 else p - t % p
  }

  lemma MultipleIsFar(d: int, p: int)
    requires p >= 0
    ensures d >= 1 ==> d * p >= p
    ensures d <= -1 ==> d * p <= -p
  {
    if d >= 1 {
      assert d * p == (d - 1) * p + p;
    } else if d <= -1 {
      assert d * p == (d + 1) * p - p;
    }
  }

  lemma SameRemainder(p: int, q: int, r: int, q': int, r': int)
    requires q * p + r == q' * p + r' && 0 <= r < p && 0 <= r' < p
    ensures r == r'
  {
    assert (q - q') * p == q * p - q' * p;
    MultipleIsFar(q - q', p);
  }

  lemma RemainderIs(a: int, p: nat, q: int, r: int)
    requires p > 0 && a == q * p + r && 0 <= r < p
    ensures a % p == r
  {
    var q', r' := a / p, a % p;
    assert a == q' * p + r';
    SameRemainder(p, q, r, q', r');
  }

  lemma OneMultiplePerWindow(t: nat, p: nat, k: nat)
    requires k < p
    ensures NextMultiple(t, p) < p
    ensures (t + k) % p == 0 <==> k == NextMultiple(t, p)
  {
    var q, r := t / p, t % p;
    assert t == q * p + r;
    if r + k < p {
      RemainderIs(t + k, p, q, r + k);
    } else {
      assert (q + 1) * p == q * p + p;
      RemainderIs(t + k, p, q + 1, r + k - p);
    }
  }

  /** A failing, enabled, overdue subscription comes up on exactly one of any run of consecutive
      ticks as long as its period, whatever tick the run starts at. */
  lemma DueOncePerPeriod(config: Config, i: nat, startMs: nat) returns (turn: nat)
    requires config.autoUpdate && IdIsOwn(config.subscriptions, i)
    requires var item := config.subscriptions[i];
      item.enabled && Trim(item.url) != "" && item.failStreak > 0 && Overdue(item, config.intervalHours, startMs)
    ensures turn < BackoffTickPeriod(config.subscriptions[i].failStreak)
    ensures forall k: nat :: k < BackoffTickPeriod(config.subscriptions[i].failStreak) ==>
              (Trim(config.subscriptions[i].id) in Due(config, Tick(startMs, k)) <==> k == turn)
  {
    hide Trim, Due, BackoffTickPeriod, TruncatedDiv, IntervalMs;
    var item := config.subscriptions[i];
    var p := BackoffTickPeriod(item.failStreak);
    var t := TruncatedDiv(startMs, CHECK_INTERVAL_MS);
    TickAdvancesIndex(startMs, 0);
    turn := NextMultiple(t, p);
    OneMultiplePerWindow(t, p, 0);
    forall k: nat | k < p
      ensures Trim(item.id) in Due(config, Tick(startMs, k)) <==> k == turn
    {
      DueExactlyWhenEligible(config, i, Tick(startMs, k));
      TickAdvancesIndex(startMs, k);
      OneMultiplePerWindow(t, p, k);
    }
  }

  /** Failing once more only thins the ticks: every turn at the longer streak is one at the shorter. */
  lemma LongerStreakThins(item: SubItem, hours: int, nowMs: int)
    requires item.failStreak >= 0 && Eligible(item.(failStreak := item.failStreak + 1), hours, nowMs)
    ensures Eligible(item, hours, nowMs)
  {
    hide Trim, IntervalMs, TruncatedDiv;
    var s := item.failStreak;
    PeriodValues(s);
    PeriodValues(s + 1);
    assert s < MAX_BACKOFF_STREAK ==> BackoffTickPeriod(s + 1) == 2 * BackoffTickPeriod(s);
    assert s >= MAX_BACKOFF_STREAK ==> BackoffTickPeriod(s + 1) == BackoffTickPeriod(s);
    DivisorOfEven(TruncatedDiv(nowMs, CHECK_INTERVAL_MS), BackoffTickPeriod(s));
  }

  lemma DivisorOfEven(t: int, p: nat)
    requires p > 0
    ensures t % (2 * p) == 0 ==> t % p == 0
  {
    if t % (2 * p) == 0 {
      var q := t / (2 * p);
      assert t == q * (2 * p);
      assert q * (2 * p) == (2 * q) * p;
      RemainderIs(t, p, 2 * q, 0);
    }
  }
}
