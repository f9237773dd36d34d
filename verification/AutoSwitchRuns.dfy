/** Whole runs of auto switch, composed with its probe runner and the shared task slot: session
    failures, activations, warm ticks, probe answers, finished batches, cancels and other tasks in
    every interleaving. */
module AutoSwitchRuns {
  import opened Basics
  import opened BackgroundTasks
  import opened SwitchGroup
  import opened AutoSwitch
  import opened ProbeRunner

  /** What the outside sees, in order. */
  datatype Entry = Activated | Switched(target: string, scan: GroupScan)

  /** `posted` counts finished failover batches whose completion is queued but not yet delivered,
      `started` and `closed` the failover probes begun and finished so far; `issued` are the tokens
      the runner was ever given. */
  datatype World = World(
    policy: Policy,
    channel: Channel,
    posted: nat,
    started: nat,
    closed: nat,
    issued: set<Token>,
    log: seq<Entry>)

  const START := World(Policy(map[], 0, false), Channel(IDLE, NoBatch), 0, 0, 0, {}, [])

  datatype Event =
    | SessionFailed(env: Env, activationInProgress: bool, ready: bool)
    | SessionActivated(env: Env, activationInProgress: bool, ready: bool)
    | WarmTick(env: Env, activationInProgress: bool, ready: bool)
    | ResultReady(indexId: string, parsed: Option<real>, now: int)
    | BatchDone
    | FailoverDelivered(env: Env)
    | ForeignBatchStarted
    | Others(event: BackgroundTasks.Event)

  ghost predicate Enabled(w: World, e: Event) {
    match e
    case BatchDone => w.channel.batch != NoBatch
    case FailoverDelivered(_) => w.posted > 0
    case ForeignBatchStarted => w.channel.batch == NoBatch
    case Others(event) => event.Finish? ==> event.token !in w.issued
    case _ => true
  }

  /** The environment with the runner's own answer filled in. */
  function Answered(w: World, env: Env, failover: bool, activationInProgress: bool, ready: bool): Env {
    env.(probeStarts := w.channel.Run(failover, activationInProgress, ready).1)
  }

  /** The runner is called exactly when the reaction asks for a probe. */
  function AfterAsk(w: World, r: Reaction, activationInProgress: bool, ready: bool): World {
    if r.ask.None? then w else
    var channel := w.channel.Run(r.ask.value.failover, activationInProgress, ready).0;
    w.(channel := channel,
       started := w.started + (if r.ask.value.failover && r.ask.value.started then 1 else 0),
       issued := if channel.batch.AutoBatch? then w.issued + {channel.batch.token} else w.issued)
  }

  function SwitchEntries(r: Reaction, env: Env): seq<Entry> {
    if r.switchTo.Some? then [Switched(r.switchTo.value, ScanCurrentGroup(env))] else []
  }

  function FailedStep(w: World, env: Env, activationInProgress: bool, ready: bool): World {
    var seen := Answered(w, env, true, activationInProgress, ready);
    var r := OnSessionFailure(w.policy, seen);
    AfterAsk(w, r, activationInProgress, ready).(policy := r.policy, log := w.log + SwitchEntries(r, seen))
  }

  function ActivatedStep(w: World, env: Env, activationInProgress: bool, ready: bool): World {
    var seen := Answered(w, env, false, activationInProgress, ready);
    var r := OnSessionActivated(w.policy, seen);
    AfterAsk(w, r, activationInProgress, ready).(policy := r.policy, log := w.log + [Activated])
  }

  function WarmTickStep(w: World, env: Env, activationInProgress: bool, ready: bool): World {
    var seen := Answered(w, env, false, activationInProgress, ready);
    var r := OnWarmRound(w.policy, seen);
    AfterAsk(w, r, activationInProgress, ready).(policy := r.policy)
  }

  function BatchDoneStep(w: World): World {
    w.(channel := w.channel.BatchFinished(),
       posted := w.posted + if w.channel.batch.AutoBatch? && w.channel.batch.failover then 1 else 0)
  }

  function DeliveredStep(w: World, env: Env): World
    requires w.posted > 0
  {
    var r := OnFailoverProbeFinished(w.policy, env);
    w.(posted := w.posted - 1, closed := w.closed + 1, policy := r.policy, log := w.log + SwitchEntries(r, env))
  }

  function Step(w: World, e: Event): World
    requires Enabled(w, e)
  {
    match e
    case SessionFailed(env, activationInProgress, ready) => FailedStep(w, env, activationInProgress, ready)
    case SessionActivated(env, activationInProgress, ready) => ActivatedStep(w, env, activationInProgress, ready)
    case WarmTick(env, activationInProgress, ready) => WarmTickStep(w, env, activationInProgress, ready)
    case ResultReady(indexId, parsed, now) => w.(policy := OnProbeResult(w.policy, indexId, parsed, now))
    case BatchDone => BatchDoneStep(w)
    case FailoverDelivered(env) => DeliveredStep(w, env)
    case ForeignBatchStarted => w.(channel := w.channel.(batch := ForeignBatch))
    case Others(event) => w.(channel := w.channel.(slot := BackgroundTasks.Step(w.channel.slot, event)))
  }

  ghost predicate EnabledRun(w: World, es: seq<Event>)
    decreases |es|
  {
    es == [] || (Enabled(w, es[0]) && EnabledRun(Step(w, es[0]), es[1..]))
  }

  ghost function Run(w: World, es: seq<Event>): World
    requires EnabledRun(w, es)
    decreases |es|
  {
    if es == [] then w else Run(Step(w, es[0]), es[1..])
  }

  // ----- Exclusivity of the failover probe ------------------------------------------------------

  /** Failover probes that were started and whose finish has not run yet. */
  function OpenFailovers(w: World): nat {
    w.posted + if w.channel.batch.AutoBatch? && w.channel.batch.failover then 1 else 0
  }

  ghost predicate Exclusive(w: World) {
    && OpenFailovers(w) == (if w.policy.failoverProbePending then 1 else 0)
    && w.started == w.closed + OpenFailovers(w)
  }

  /** The slot is taken by auto switch only while the very batch it was taken for is running. */
  ghost predicate SlotIsBatch(w: World) {
    && w.channel.slot.Consistent()
    && (forall token :: token in w.issued ==> token.IsValid() && token.generation <= w.channel.slot.generation)
    && (w.channel.batch.AutoBatch? ==> w.channel.batch.token in w.issued)
    && (forall token :: token in w.issued && w.channel.slot.IsCurrent(token) ==>
          w.channel.batch.AutoBatch? && w.channel.batch.token == token)
  }

  /** While a failover probe is pending a failure asks for no probe, and an accepted failover probe
      is pending from then on. */
  lemma FailureAsksOnce(p: Policy, env: Env)
    ensures var r := OnSessionFailure(p, env);
            && (p.failoverProbePending ==> r.ask.None?)
            && (r.ask.Some? ==> r.ask.value.failover && r.ask.value.started == env.probeStarts)
            && (r.policy.failoverProbePending <==> p.failoverProbePending || (r.ask.Some? && env.probeStarts))
  {
  }

  /** While a failover probe is pending no warm round starts, and warm rounds leave the flag alone. */
  lemma WarmRoundWaits(p: Policy, env: Env)
    ensures var r := OnWarmRound(p, env);
            && (p.failoverProbePending ==> r.ask.None?)
            && (r.ask.Some? ==> !r.ask.value.failover && r.ask.value.started == env.probeStarts)
            && r.policy.failoverProbePending == p.failoverProbePending
  {
  }

  lemma AskKeepsExclusive(w: World, r: Reaction, activationInProgress: bool, ready: bool)
    requires Exclusive(w) && (w.policy.failoverProbePending ==> r.ask.None?)
    requires r.ask.Some? ==> r.ask.value.started == w.channel.Run(r.ask.value.failover, activationInProgress, ready).1
    requires r.policy.failoverProbePending <==>
             w.policy.failoverProbePending || (r.ask.Some? && r.ask.value.failover && r.ask.value.started)
    ensures Exclusive(AfterAsk(w, r, activationInProgress, ready).(policy := r.policy))
  {
  }

  /** Every step keeps it: a failover probe is pending exactly while one started probe has not been
      finished, and there is never a second one. */
  lemma StepKeepsExclusive(w: World, e: Event)
    requires Exclusive(w) && Enabled(w, e)
    ensures Exclusive(Step(w, e))
  {
    match e
    case SessionFailed(env, activationInProgress, ready) =>
      var seen := Answered(w, env, true, activationInProgress, ready);
      FailureAsksOnce(w.policy, seen);
      AskKeepsExclusive(w, OnSessionFailure(w.policy, seen), activationInProgress, ready);
    case SessionActivated(env, activationInProgress, ready) =>
      var seen := Answered(w, env, false, activationInProgress, ready);
      WarmRoundWaits(w.policy.(consecutiveSwitches := 0), seen);
      AskKeepsExclusive(w, OnSessionActivated(w.policy, seen), activationInProgress, ready);
    case WarmTick(env, activationInProgress, ready) =>
      var seen := Answered(w, env, false, activationInProgress, ready);
      WarmRoundWaits(w.policy, seen);
      AskKeepsExclusive(w, OnWarmRound(w.policy, seen), activationInProgress, ready);
    case FailoverDelivered(env) =>
      assert !OnFailoverProbeFinished(w.policy, env).policy.failoverProbePending;
    case _ =>
  }

  lemma AskKeepsSlot(w: World, r: Reaction, activationInProgress: bool, ready: bool)
    requires SlotIsBatch(w) && w.channel.slot.generation + 1 < TWO_TO_64
    ensures SlotIsBatch(AfterAsk(w, r, activationInProgress, ready))
    ensures AfterAsk(w, r, activationInProgress, ready).channel.slot.generation <= w.channel.slot.generation + 1
  {
  }

  /** Every step keeps it: auto switch holds the task slot only through its one running batch. */
  lemma StepKeepsSlot(w: World, e: Event)
    requires SlotIsBatch(w) && Enabled(w, e) && w.channel.slot.generation + 1 < TWO_TO_64
    ensures SlotIsBatch(Step(w, e))
    ensures Step(w, e).channel.slot.generation <= w.channel.slot.generation + 1
  {
    match e
    case SessionFailed(env, activationInProgress, ready) =>
      var r := OnSessionFailure(w.policy, Answered(w, env, true, activationInProgress, ready));
      AskKeepsSlot(w, r, activationInProgress, ready);
    case SessionActivated(env, activationInProgress, ready) =>
      var r := OnSessionActivated(w.policy, Answered(w, env, false, activationInProgress, ready));
      AskKeepsSlot(w, r, activationInProgress, ready);
    case WarmTick(env, activationInProgress, ready) =>
      var r := OnWarmRound(w.policy, Answered(w, env, false, activationInProgress, ready));
      AskKeepsSlot(w, r, activationInProgress, ready);
    case Others(event) => StepKeepsConsistent(w.channel.slot, event);
    case _ =>
  }

  // ----- Switches between two activations -------------------------------------------------------

  /** Switches since the last activation. */
  function Streak(log: seq<Entry>): nat {
    if log == [] || log[|log| - 1].Activated? then 0 else 1 + Streak(log[..|log| - 1])
  }

  function EnvOf(e: Event): Option<Env> {
    match e
    case SessionFailed(env, _, _) => Some(env)
    case FailoverDelivered(env) => Some(env)
    case _ => None
  }

  /** No group scanned by this event has more than `n` members, and server ids are distinct. */
  ghost predicate Bounded(e: Event, n: nat) {
    EnvOf(e).Some? ==> DistinctIds(EnvOf(e).value.servers) && |ScanCurrentGroup(EnvOf(e).value).memberIds| <= n
  }

  /** Each recorded switch went to another member of the group that was scanned for it. */
  ghost predicate GoodSwitch(entry: Entry) {
    entry.Switched? ==>
      && 0 <= entry.scan.failedIndex < |entry.scan.memberIds|
      && entry.target in entry.scan.memberIds
      && entry.target != entry.scan.memberIds[entry.scan.failedIndex]
  }

  /** The counter is the streak, every prefix of the log stays within the ceiling, and every switch
      is a good one. */
  ghost predicate Disciplined(w: World, n: nat) {
    && w.policy.consecutiveSwitches == Streak(w.log)
    && (forall k :: 0 <= k <= |w.log| ==> Streak(w.log[..k]) < n)
    && (forall k :: 0 <= k < |w.log| ==> GoodSwitch(w.log[k]))
  }

  lemma AppendKeepsDisciplined(w: World, w': World, entry: Entry, n: nat)
    requires Disciplined(w, n) && w'.log == w.log + [entry] && GoodSwitch(entry)
    requires w'.policy.consecutiveSwitches == if entry.Activated? then 0 else w.policy.consecutiveSwitches + 1
    requires w'.policy.consecutiveSwitches < n
    ensures Disciplined(w', n)
  {
    StreakGrows(w.log, entry);
    hide Streak, GoodSwitch;
    assert w'.log[..|w'.log|] == w'.log;
    forall k | 0 <= k <= |w'.log| ensures Streak(w'.log[..k]) < n {
      if k <= |w.log| {
        assert w'.log[..k] == w.log[..k];
      }
    }
  }

  lemma StreakGrows(log: seq<Entry>, entry: Entry)
    ensures Streak(log + [entry]) == if entry.Activated? then 0 else Streak(log) + 1
  {
    assert (log + [entry])[..|log|] == log;
  }

  lemma SwitchKeepsDisciplined(w: World, w': World, r: Reaction, env: Env, n: nat)
    requires Disciplined(w, n) && SafeSwitch(w.policy, env, r)
    requires DistinctIds(env.servers) && |ScanCurrentGroup(env).memberIds| <= n
    requires w'.log == w.log + SwitchEntries(r, env) && w'.policy == r.policy
    requires r.switchTo.None? ==> r.policy.consecutiveSwitches == w.policy.consecutiveSwitches
    ensures Disciplined(w', n)
  {
    if r.switchTo.Some? {
      AppendKeepsDisciplined(w, w', Switched(r.switchTo.value, ScanCurrentGroup(env)), n);
    } else {
      assert w'.log == w.log;
    }
  }

  lemma CounterMovesWithSwitch(p: Policy, env: Env)
    ensures OnSessionFailure(p, env).switchTo.None? ==>
              OnSessionFailure(p, env).policy.consecutiveSwitches == p.consecutiveSwitches
    ensures OnFailoverProbeFinished(p, env).switchTo.None? ==>
              OnFailoverProbeFinished(p, env).policy.consecutiveSwitches == p.consecutiveSwitches
    ensures OnWarmRound(p, env).policy.consecutiveSwitches == p.consecutiveSwitches
    ensures OnSessionActivated(p, env).policy.consecutiveSwitches == 0
  {
  }

  lemma StepKeepsDisciplined(w: World, e: Event, n: nat)
    requires Disciplined(w, n) && Enabled(w, e) && Bounded(e, n) && n > 0
    ensures Disciplined(Step(w, e), n)
  {
    var w' := Step(w, e);
    match e
    case SessionFailed(env, activationInProgress, ready) =>
      var seen := Answered(w, env, true, activationInProgress, ready);
      EverySwitchIsSafe(w.policy, seen);
      CounterMovesWithSwitch(w.policy, seen);
      SwitchKeepsDisciplined(w, w', OnSessionFailure(w.policy, seen), seen, n);
    case FailoverDelivered(env) =>
      EverySwitchIsSafe(w.policy, env);
      CounterMovesWithSwitch(w.policy, env);
      SwitchKeepsDisciplined(w, w', OnFailoverProbeFinished(w.policy, env), env, n);
    case SessionActivated(env, activationInProgress, ready) =>
      CounterMovesWithSwitch(w.policy, Answered(w, env, false, activationInProgress, ready));
      AppendKeepsDisciplined(w, w', Activated, n);
    case WarmTick(env, activationInProgress, ready) =>
      CounterMovesWithSwitch(w.policy, Answered(w, env, false, activationInProgress, ready));
      assert w'.log == w.log;
    case _ =>
  }

  // ----- Runs -----------------------------------------------------------------------------------

  ghost predicate AllBounded(es: seq<Event>, n: nat) {
    forall i :: 0 <= i < |es| ==> Bounded(es[i], n)
  }

  /** At most one failover probe, with a running batch or a queued completion behind it as long as it
      is pending, and at most one auto-switch batch in the task slot. */
  ghost predicate OneProbeAtATime(w: World) {
    && w.started == w.closed + (if w.policy.failoverProbePending then 1 else 0)
    && OpenFailovers(w) == (if w.policy.failoverProbePending then 1 else 0)
    && (w.policy.failoverProbePending <==> w.posted > 0 || (w.channel.batch.AutoBatch? && w.channel.batch.failover))
    && (forall token :: token in w.issued && w.channel.slot.IsCurrent(token) ==>
          w.channel.batch.AutoBatch? && w.channel.batch.token == token)
  }

  lemma ProtocolMeansOneProbe(w: World)
    requires Exclusive(w) && SlotIsBatch(w)
    ensures OneProbeAtATime(w)
  {
  }

  lemma {:induction false} RunKeepsProtocol(w: World, es: seq<Event>)
    requires EnabledRun(w, es) && Exclusive(w) && SlotIsBatch(w) && w.channel.slot.generation + |es| < TWO_TO_64
    ensures Exclusive(Run(w, es)) && SlotIsBatch(Run(w, es)) && OneProbeAtATime(Run(w, es))
    decreases |es|
  {
    if es == [] {
      ProtocolMeansOneProbe(w);
    } else {
      StepKeepsExclusive(w, es[0]);
      StepKeepsSlot(w, es[0]);
      RunKeepsProtocol(Step(w, es[0]), es[1..]);
    }
  }

  lemma {:induction false} RunKeepsDisciplined(w: World, es: seq<Event>, n: nat)
    requires EnabledRun(w, es) && Disciplined(w, n) && AllBounded(es, n) && n > 0
    ensures Disciplined(Run(w, es), n)
    decreases |es|
  {
    if es != [] {
      assert Bounded(es[0], n);
      StepKeepsDisciplined(w, es[0], n);
      RunKeepsDisciplined(Step(w, es[0]), es[1..], n);
    }
  }

  /** A stretch of the log without activations is no longer than the streak at its end. */
  lemma {:induction false} StretchWithinStreak(log: seq<Entry>, from: nat)
    requires from <= |log| && Activated !in log[from..]
    ensures |log| - from <= Streak(log)
    decreases |log| - from
  {
    if from < |log| {
      assert log[|log| - 1] in log[from..];
      assert log[..|log| - 1][from..] == log[from..][..|log| - 1 - from];
      StretchWithinStreak(log[..|log| - 1], from);
    }
  }

  /** A world in which auto switch has nothing in flight, such as the initial one. */
  ghost predicate Quiet(w: World) {
    && w.channel.slot.Consistent() && !w.channel.batch.AutoBatch?
    && w.posted == 0 && w.started == w.closed && !w.policy.failoverProbePending
    && w.issued == {}
  }

  /** Exclusivity in every run from a quiet world: a failover probe is pending exactly while one
      started probe is unfinished, so each started probe is finished once, and at most one
      auto-switch batch holds the task slot. */
  lemma FailoverProbesAreExclusive(w: World, es: seq<Event>)
    requires Quiet(w) && EnabledRun(w, es) && w.channel.slot.generation + |es| < TWO_TO_64
    ensures OneProbeAtATime(Run(w, es))
  {
    QuietKeepsProtocol(w);
    RunKeepsProtocol(w, es);
  }

  lemma QuietStart(w: World)
    requires w == START
    ensures Quiet(w)
  {
  }

  /** In particular in every run of the program. */
  lemma ProbesAreExclusiveFromStart(es: seq<Event>)
    requires EnabledRun(START, es) && |es| < TWO_TO_64
    ensures OneProbeAtATime(Run(START, es))
  {
    hide EnabledRun, Run, Quiet, OneProbeAtATime;
    var w := START;
    QuietStart(w);
    FailoverProbesAreExclusive(w, es);
  }

  lemma QuietKeepsProtocol(w: World)
    requires Quiet(w)
    ensures Exclusive(w) && SlotIsBatch(w)
  {
  }

  /** Safety in every run from the start: if no scanned group ever has more than `n` members, then
      every switch goes to another member of the group scanned for it, and any stretch of the log
      without an activation holds at most n - 1 switches. */
  lemma SwitchesAreBounded(es: seq<Event>, n: nat, lo: nat, hi: nat)
    requires EnabledRun(START, es) && AllBounded(es, n) && n > 0
    requires lo <= hi <= |Run(START, es).log| && Activated !in Run(START, es).log[lo..hi]
    ensures hi - lo <= n - 1
    ensures forall k :: lo <= k < hi ==> GoodSwitch(Run(START, es).log[k])
  {
    RunKeepsDisciplined(START, es, n);
    var log := Run(START, es).log;
    assert log[..hi][lo..] == log[lo..hi];
    StretchWithinStreak(log[..hi], lo);
  }
}
