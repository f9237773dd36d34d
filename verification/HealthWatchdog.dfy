/** The watchdog around the policy: timers, probes on worker threads, and the session that arms and
    cancels it. */
module HealthWatchdog {
  import opened Basics
  import opened HealthWatchPolicy

  /** What reaches the user: the node's alerts, and the fate of the local-network warning. */
  datatype Signal = Node(action: Action) | StillNoNetwork | NetworkBack

  datatype Watch = Watch(policy: Policy, active: bool, timer: bool, inProgress: bool,
                         waived: bool, recheckTimer: bool, recheckInProgress: bool,
                         check: bool, shutdown: bool)
  {
    function ScheduleWatch(): Watch {
      if shutdown || !active || !check then this else this.(timer := true)
    }

    function ScheduleDirectRecheck(): Watch {
      if !waived || shutdown || !active then this else this.(recheckTimer := true)
    }

    function Arm(): Watch {
      this.(policy := policy.Reset(), active := true).ScheduleWatch()
    }

    function Cancel(): Watch {
      this.(active := false, timer := false, recheckTimer := false, inProgress := false, policy := policy.Reset())
    }

    function NotifyWaived(): Watch {
      this.(waived := true).ScheduleDirectRecheck()
    }

    function NotifyFreshActivation(): Watch {
      this.(waived := false, recheckInProgress := false, recheckTimer := false)
    }

    predicate MayWatch() {
      !shutdown && active && !inProgress && check
    }

    predicate MayRecheck() {
      waived && !shutdown && active && !recheckInProgress
    }

    predicate Counts() {
      !shutdown && active
    }

    function RunWatch(): Watch {
      if MayWatch() then this.(inProgress := true) else this
    }

    function RunDirectRecheck(): Watch {
      if MayRecheck() then this.(recheckInProgress := true) else this
    }

    function FinishWatch(reachable: bool): (Watch, seq<Signal>) {
      if !Counts() then (this.(inProgress := false), []) else
      var (next, action) := policy.Record(reachable);
      (this.(inProgress := false, policy := next).ScheduleWatch(), if action.Quiet? then [] else [Node(action)])
    }

    function FinishDirectRecheck(reachable: bool): (Watch, seq<Signal>) {
      if !Counts() || !waived then (this.(recheckInProgress := false), [])
      else if reachable then (this.(recheckInProgress := false, waived := false), [NetworkBack])
      else (this.(recheckInProgress := false).ScheduleDirectRecheck(), [StillNoNetwork])
    }
  }

  class ProxyHealthWatchdog {
    const policy: ProxyHealthWatchPolicy
    var active: bool
    var watchTimer: bool
    var watchInProgress: bool
    var waivedOutboundWarningShown: bool
    var directRecheckTimer: bool
    var directRecheckInProgress: bool
    var hasAvailabilityCheck: bool
    var shuttingDown: bool

    function View(): Watch
      reads this, policy
    {
      Watch(policy.View(), active, watchTimer, watchInProgress, waivedOutboundWarningShown, directRecheckTimer,
            directRecheckInProgress, hasAvailabilityCheck, shuttingDown)
    }

    constructor (failuresBeforeWarn: int)
      ensures fresh(policy)
      ensures View() == Watch(Policy(Threshold(failuresBeforeWarn), 0, false),
                              false, false, false, false, false, false, false, false)
    {
      policy := new ProxyHealthWatchPolicy(failuresBeforeWarn);
      active, watchTimer, watchInProgress := false, false, false;
      waivedOutboundWarningShown, directRecheckTimer, directRecheckInProgress := false, false, false;
      hasAvailabilityCheck, shuttingDown := false, false;
    }

    method ScheduleWatch()
      modifies this`watchTimer
      ensures View() == old(View()).ScheduleWatch()
    {
      if shuttingDown || !active || !hasAvailabilityCheck {
        return;
      }
      watchTimer := true;
    }

    method ScheduleDirectRecheck()
      modifies this`directRecheckTimer
      ensures View() == old(View()).ScheduleDirectRecheck()
    {
      if !waivedOutboundWarningShown || shuttingDown || !active {
        return;
      }
      directRecheckTimer := true;
    }

    method Arm()
      modifies this, policy
      ensures View() == old(View()).Arm()
      ensures active && policy.consecutiveFailures == 0 && !policy.warningShown
      ensures watchTimer <==> old(watchTimer) || (hasAvailabilityCheck && !shuttingDown)
    {
      policy.Reset();
      active := true;
      ScheduleWatch();
    }

    method Cancel()
      modifies this, policy
      ensures View() == old(View()).Cancel()
      ensures !active && !watchTimer && !directRecheckTimer && !watchInProgress
      ensures policy.consecutiveFailures == 0 && !policy.warningShown
      ensures waivedOutboundWarningShown == old(waivedOutboundWarningShown)
      ensures directRecheckInProgress == old(directRecheckInProgress)
    {
      active := false;
      watchTimer := false;
      directRecheckTimer := false;
      watchInProgress := false;
      policy.Reset();
    }

    method NotifyWaivedOutboundWarningShown()
      modifies this
      ensures View() == old(View()).NotifyWaived()
      ensures waivedOutboundWarningShown
      ensures directRecheckTimer <==> old(directRecheckTimer) || (active && !shuttingDown)
    {
      waivedOutboundWarningShown := true;
      ScheduleDirectRecheck();
    }

    method NotifyFreshActivation()
      modifies this
      ensures View() == old(View()).NotifyFreshActivation()
      ensures !waivedOutboundWarningShown && !directRecheckInProgress && !directRecheckTimer
      ensures active == old(active) && watchTimer == old(watchTimer) && watchInProgress == old(watchInProgress)
    {
      waivedOutboundWarningShown := false;
      directRecheckInProgress := false;
      directRecheckTimer := false;
    }

    /** On the watch timer; `launched` when a probe goes out to a worker. */
    method RunWatch() returns (launched: bool)
      modifies this
      ensures View() == old(View()).RunWatch() && launched == old(View()).MayWatch()
      ensures launched <==> active && hasAvailabilityCheck && !old(watchInProgress) && !shuttingDown
      ensures watchInProgress <==> old(watchInProgress) || launched
    {
      if shuttingDown || !active || watchInProgress {
        return false;
      }
      if !hasAvailabilityCheck {
        return false;
      }
      watchInProgress := true;
      return true;
    }

    method FinishWatch(reachable: bool) returns (signals: seq<Signal>)
      modifies this, policy
      ensures (View(), signals) == old(View()).FinishWatch(reachable)
      ensures !watchInProgress
      ensures !active || shuttingDown ==>
                signals == [] && policy.View() == old(policy.View()) && watchTimer == old(watchTimer)
      ensures active && !shuttingDown ==>
                && (watchTimer <==> old(watchTimer) || hasAvailabilityCheck)
                && (Node(Clear) in signals <==> reachable && old(policy.warningShown))
                && (Node(Warn(policy.consecutiveFailures)) in signals <==>
                      policy.warningShown && !old(policy.warningShown))
                && |signals| == if policy.warningShown == old(policy.warningShown) then 0 else 1
    {
      watchInProgress := false;
      if shuttingDown || !active {
        return [];
      }
      var action := policy.RecordResult(reachable);
      signals := if action.Quiet? then [] else [Node(action)];
      ScheduleWatch();
    }

    method RunDirectRecheck() returns (launched: bool)
      modifies this
      ensures View() == old(View()).RunDirectRecheck() && launched == old(View()).MayRecheck()
      ensures launched <==> waivedOutboundWarningShown && active && !old(directRecheckInProgress) && !shuttingDown
      ensures directRecheckInProgress <==> old(directRecheckInProgress) || launched
    {
      if !waivedOutboundWarningShown || shuttingDown || !active || directRecheckInProgress {
        return false;
      }
      directRecheckInProgress := true;
      return true;
    }

    method FinishDirectRecheck(directReachable: bool) returns (signals: seq<Signal>)
      modifies this
      ensures (View(), signals) == old(View()).FinishDirectRecheck(directReachable)
      ensures !directRecheckInProgress
      ensures old(waivedOutboundWarningShown) && active && !shuttingDown ==>
                && signals == [if directReachable then NetworkBack else StillNoNetwork]
                && waivedOutboundWarningShown == !directReachable
                && (directRecheckTimer <==> old(directRecheckTimer) || !directReachable)
      ensures !(old(waivedOutboundWarningShown) && active && !shuttingDown) ==>
                && signals == [] && waivedOutboundWarningShown == old(waivedOutboundWarningShown)
                && directRecheckTimer == old(directRecheckTimer)
    {
      directRecheckInProgress := false;
      if shuttingDown || !active || !waivedOutboundWarningShown {
        return [];
      }
      if !directReachable {
        ScheduleDirectRecheck();
        return [StillNoNetwork];
      }
      waivedOutboundWarningShown := false;
      return [NetworkBack];
    }
  }

  // ----- Runs -----------------------------------------------------------------------------------

  /** A result the policy took in, with the activation that launched its probe. */
  datatype Counted = Counted(epoch: nat, reachable: bool)

  /** The watchdog among its workers.  `probes` and `rechecks` hold the activation that launched each
      probe still out; `counted` and `alerts` what happened since the last arming; `covered` that the
      check was installed when the watch was armed and has stayed so; `emitted` the last step's. */
  datatype World = World(watch: Watch, epoch: nat, probes: seq<nat>, rechecks: seq<nat>,
                         counted: seq<Counted>, alerts: seq<Action>, covered: bool, emitted: seq<Signal>)

  datatype Event = Proxying | Left | Stopped | WaivedShown | CheckSet(installed: bool) | ShutDown
                 | WatchTimeout | WatchAnswer(worker: nat, reachable: bool)
                 | RecheckTimeout | RecheckAnswer(worker: nat, reachable: bool)

  function Without(s: seq<nat>, i: nat): seq<nat>
    requires i < |s|
  {
    s[..i] + s[i + 1..]
  }

  /** The session arms only on entering Proxying, telling the watchdog of the fresh start first. */
  function Armed(w: World): World {
    w.(watch := w.watch.NotifyFreshActivation().Arm(), epoch := w.epoch + 1,
       counted := [], alerts := [], covered := w.watch.check)
  }

  function Answered(w: World, worker: nat, reachable: bool): World
    requires worker < |w.probes|
  {
    var (next, signals) := w.watch.FinishWatch(reachable);
    w.(watch := next, probes := Without(w.probes, worker), emitted := signals,
       counted := if w.watch.Counts() then w.counted + [Counted(w.probes[worker], reachable)] else w.counted,
       alerts := if signals == [] || !signals[0].Node? then w.alerts else w.alerts + [signals[0].action])
  }

  function Rechecked(w: World, worker: nat, reachable: bool): World
    requires worker < |w.rechecks|
  {
    var (next, signals) := w.watch.FinishDirectRecheck(reachable);
    w.(watch := next, rechecks := Without(w.rechecks, worker), emitted := signals)
  }

  function Fired(w: World): World {
    var watch := w.watch.(timer := false);
    w.(watch := watch.RunWatch(), probes := if watch.MayWatch() then w.probes + [w.epoch] else w.probes)
  }

  function RecheckFired(w: World): World {
    var watch := w.watch.(recheckTimer := false);
    w.(watch := watch.RunDirectRecheck(),
       rechecks := if watch.MayRecheck() then w.rechecks + [w.epoch] else w.rechecks)
  }

  function Step(w: World, e: Event): World {
    Act(w.(emitted := []), e)
  }

  function Act(w: World, e: Event): World {
    match e
    case Proxying => if w.watch.active then w else Armed(w)
    case Left => w.(watch := w.watch.Cancel())
    case Stopped => w.(watch := w.watch.NotifyFreshActivation())
    case WaivedShown => w.(watch := w.watch.NotifyWaived())
    case CheckSet(installed) => w.(watch := w.watch.(check := installed), covered := w.covered && installed)
    case ShutDown => w.(watch := w.watch.(shutdown := true))
    case WatchTimeout => if w.watch.timer then Fired(w) else w
    case WatchAnswer(worker, reachable) => if worker < |w.probes| then Answered(w, worker, reachable) else w
    case RecheckTimeout => if w.watch.recheckTimer then RecheckFired(w) else w
    case RecheckAnswer(worker, reachable) =>
      if worker < |w.rechecks| then Rechecked(w, worker, reachable) else w
  }

  function Run(w: World, es: seq<Event>): World
    decreases |es|
  {
    if es == [] then w else Run(Step(w, es[0]), es[1..])
  }

  /** As the constructor leaves the watchdog, with nothing out. */
  predicate Initial(w: World) {
    && !w.watch.active && !w.watch.timer && !w.watch.inProgress && !w.watch.waived
    && !w.watch.recheckTimer && !w.watch.recheckInProgress && !w.watch.shutdown
    && w.watch.policy == Policy(w.watch.policy.threshold, 0, false)
    && w.probes == [] && w.rechecks == [] && !w.covered
  }

  function Results(counted: seq<Counted>): (r: seq<bool>)
    ensures |r| == |counted|
  {
    if counted == [] then [] else Results(Front(counted)) + [Last(counted).reachable]
  }

  // ----- The watch never stalls -----------------------------------------------------------------

  /** While active: a covered watch has its timer armed or a probe out, and a standing local-network
      warning has its own timer armed or recheck out. */
  predicate Live(w: World) {
    w.watch.Counts() ==>
      && (w.covered ==> w.watch.timer || w.probes != [])
      && (w.watch.waived ==> w.watch.recheckTimer || w.rechecks != [])
  }

  predicate FlagsHonest(w: World) {
    && (w.watch.inProgress ==> w.probes != [])
    && (w.watch.recheckInProgress ==> w.rechecks != [])
    && (w.watch.active && w.covered ==> w.watch.check)
    && (w.watch.timer || w.watch.recheckTimer ==> w.watch.active)
  }

  /** One timeout or answer at a time. */
  lemma FiredStaysSound(w: World)
    requires Live(w) && FlagsHonest(w) && w.watch.timer
    ensures Live(Fired(w)) && FlagsHonest(Fired(w))
  {
  }

  lemma RecheckFiredStaysSound(w: World)
    requires Live(w) && FlagsHonest(w) && w.watch.recheckTimer
    ensures Live(RecheckFired(w)) && FlagsHonest(RecheckFired(w))
  {
  }

  lemma AnsweredStaysSound(w: World, worker: nat, reachable: bool)
    requires Live(w) && FlagsHonest(w) && worker < |w.probes|
    ensures Live(Answered(w, worker, reachable)) && FlagsHonest(Answered(w, worker, reachable))
  {
    hide Policy.Record, Without;
  }

  lemma RecheckedStaysSound(w: World, worker: nat, reachable: bool)
    requires Live(w) && FlagsHonest(w) && worker < |w.rechecks|
    ensures Live(Rechecked(w, worker, reachable)) && FlagsHonest(Rechecked(w, worker, reachable))
  {
    hide Without;
  }

  lemma ArmedStaysSound(w: World)
    requires FlagsHonest(w) && !w.watch.active
    ensures Live(Armed(w)) && FlagsHonest(Armed(w))
  {
    hide Policy.Reset;
  }

  /** The session's calls other than arming. */
  lemma SessionStaysSound(w: World, e: Event)
    requires Live(w) && FlagsHonest(w)
    requires e.Left? || e.Stopped? || e.WaivedShown? || e.CheckSet? || e.ShutDown?
    ensures Live(Act(w, e)) && FlagsHonest(Act(w, e))
  {
    hide Policy.Reset, Armed, Fired, RecheckFired, Answered, Rechecked;
  }

  lemma ActStaysSound(w: World, e: Event)
    requires Live(w) && FlagsHonest(w)
    ensures Live(Act(w, e)) && FlagsHonest(Act(w, e))
  {
    hide Live, FlagsHonest, Armed, Fired, RecheckFired, Answered, Rechecked;
    match e
    case Proxying => if !w.watch.active { ArmedStaysSound(w); }
    case WatchTimeout => if w.watch.timer { FiredStaysSound(w); }
    case RecheckTimeout => if w.watch.recheckTimer { RecheckFiredStaysSound(w); }
    case WatchAnswer(worker, reachable) => if worker < |w.probes| { AnsweredStaysSound(w, worker, reachable); }
    case RecheckAnswer(worker, reachable) => if worker < |w.rechecks| { RecheckedStaysSound(w, worker, reachable); }
    case _ => SessionStaysSound(w, e);
  }

  lemma StepStaysSound(w: World, e: Event)
    requires Live(w) && FlagsHonest(w)
    ensures Live(Step(w, e)) && FlagsHonest(Step(w, e))
  {
    hide Act;
    ActStaysSound(w.(emitted := []), e);
  }

  lemma {:induction false} RunStaysSound(w: World, es: seq<Event>)
    requires Live(w) && FlagsHonest(w)
    ensures Live(Run(w, es)) && FlagsHonest(Run(w, es))
    decreases |es|
  {
    hide Live, FlagsHonest, Step;
    if es != [] {
      StepStaysSound(w, es[0]);
      RunStaysSound(Step(w, es[0]), es[1..]);
    }
  }

  /** In every reachable active state before shutdown, a covered watch is about to act or acting, and
      so is the recheck of a standing local-network warning. */
  lemma NeverStalls(initial: World, es: seq<Event>)
    requires Initial(initial)
    ensures Live(Run(initial, es))
  {
    assert Live(initial) && FlagsHonest(initial);
    hide Run, Live, FlagsHonest;
    RunStaysSound(initial, es);
  }

  /** No timer and no probe for the node: the watch has stopped. */
  predicate Stalled(w: World) {
    w.watch.active && !w.watch.timer && !w.watch.inProgress && w.probes == []
  }

  predicate Arms(e: Event) {
    e == Proxying || e == Left
  }

  /** Why coverage matters: armed without a check, the watch stays dead for the whole activation,
      even if a check is installed meanwhile. */
  lemma {:induction false} ArmedWithoutCheckNeverWatches(w: World, es: seq<Event>)
    requires Stalled(w) && forall k :: 0 <= k < |es| ==> !Arms(es[k])
    ensures Stalled(Run(w, es)) && Run(w, es).counted == w.counted && Run(w, es).alerts == w.alerts
    decreases |es|
  {
    hide Stalled, Step, Arms;
    if es != [] {
      assert !Arms(es[0]);
      StalledStays(w, es[0]);
      ArmedWithoutCheckNeverWatches(Step(w, es[0]), es[1..]);
    }
  }

  lemma StalledStays(w: World, e: Event)
    requires Stalled(w) && !Arms(e)
    ensures var next := Step(w, e); Stalled(next) && next.counted == w.counted && next.alerts == w.alerts
  {
    hide Policy.Record, Policy.Reset;
  }

  lemma ArmingWithoutCheckStalls(w: World)
    requires FlagsHonest(w) && !w.watch.active && !w.watch.check && w.probes == []
    ensures Stalled(Step(w, Proxying))
  {
  }

  /** The session's order matters: arming while a local-network warning still stands, without the
      fresh-activation call, would leave that warning with nothing to retract it. */
  lemma ArmAloneStrandsTheWarning(watch: Watch)
    requires watch.waived
    ensures var armed := watch.Cancel().Arm(); armed.waived && armed.active && !armed.recheckTimer
  {
  }

  // ----- What is emitted ------------------------------------------------------------------------

  /** Nothing is emitted while inactive or shutting down. */
  lemma SilentWhileInactive(w: World, e: Event)
    ensures Step(w, e).emitted != [] ==> w.watch.active && !w.watch.shutdown
  {
  }

  /** The policy and the alerts since arming are those of the results counted since arming. */
  predicate Faithful(w: World, threshold: nat) {
    && w.watch.policy.threshold == threshold
    && (w.watch.active ==>
          && w.watch.policy == After(threshold, Results(w.counted))
          && w.alerts == Alerts(threshold, Results(w.counted)))
  }

  lemma AnswerStaysFaithful(w: World, worker: nat, reachable: bool, threshold: nat)
    requires Faithful(w, threshold) && worker < |w.probes|
    ensures Faithful(Answered(w, worker, reachable), threshold)
  {
    hide Without, Results, After, Alerts, Policy.Record;
    if w.watch.Counts() {
      OneMoreResult(w.counted, Counted(w.probes[worker], reachable), threshold);
      RecordKeepsThreshold(w.watch.policy, reachable);
    }
  }

  lemma RecordKeepsThreshold(p: Policy, reachable: bool)
    ensures p.Record(reachable).0.threshold == p.threshold
  {
  }

  /** What one more counted result does to the policy and to the alerts. */
  lemma OneMoreResult(counted: seq<Counted>, c: Counted, threshold: nat)
    ensures var results, more := Results(counted), Results(counted + [c]);
      && After(threshold, more) == After(threshold, results).Record(c.reachable).0
      && var action := After(threshold, results).Record(c.reachable).1;
         Alerts(threshold, more)
         == if action == Quiet then Alerts(threshold, results) else Alerts(threshold, results) + [action]
  {
    hide Policy.Record;
    assert Front(counted + [c]) == counted;
    assert Front(Results(counted) + [c.reachable]) == Results(counted);
  }

  lemma {:induction false} AlertsFollowTheResults(w: World, es: seq<Event>, threshold: nat)
    requires Faithful(w, threshold)
    ensures Faithful(Run(w, es), threshold)
    decreases |es|
  {
    hide Faithful, Step;
    if es != [] {
      StepStaysFaithful(w, es[0], threshold);
      AlertsFollowTheResults(Step(w, es[0]), es[1..], threshold);
    }
  }

  lemma SessionStaysFaithful(w: World, e: Event, threshold: nat)
    requires Faithful(w, threshold) && !e.WatchAnswer? && !e.Proxying?
    ensures Faithful(Act(w, e), threshold)
  {
    hide Results, After, Alerts, Answered, Armed, Without;
  }

  lemma ArmedIsFaithful(w: World, threshold: nat)
    requires w.watch.policy.threshold == threshold
    ensures Faithful(Armed(w), threshold)
  {
    FreshIsFaithful(threshold);
  }

  lemma StepStaysFaithful(w: World, e: Event, threshold: nat)
    requires Faithful(w, threshold)
    ensures Faithful(Step(w, e), threshold)
  {
    var quiet := w.(emitted := []);
    assert Faithful(quiet, threshold) && w.watch.policy.threshold == threshold;
    hide Faithful, Answered, Armed;
    match e
    case WatchAnswer(worker, reachable) =>
      if worker < |w.probes| { AnswerStaysFaithful(quiet, worker, reachable, threshold); }
    case Proxying => if !w.watch.active { ArmedIsFaithful(quiet, threshold); }
    case _ => SessionStaysFaithful(quiet, e, threshold);
  }

  lemma FreshIsFaithful(threshold: nat)
    ensures Results([]) == [] && After(threshold, []) == Policy(threshold, 0, false) && Alerts(threshold, []) == []
  {
  }

  /** The whole loop: over any run, the warning is up exactly when the last `threshold` results
      counted in this activation all failed, and alerts alternate starting with Warn. */
  lemma WarningMeansRecentFailures(initial: World, es: seq<Event>)
    requires Initial(initial) && initial.watch.policy.threshold >= 1
    ensures var end := Run(initial, es); end.watch.active ==>
      && (end.watch.policy.warned <==> LastFailed(Results(end.counted), initial.watch.policy.threshold))
      && (forall k :: 0 <= k < |end.alerts| ==> if k % 2 == 0 then end.alerts[k].Warn? else end.alerts[k].Clear?)
  {
    hide Run, Results, After, Alerts;
    var threshold := initial.watch.policy.threshold;
    assert Faithful(initial, threshold);
    AlertsFollowTheResults(initial, es, threshold);
    var end := Run(initial, es);
    ShownExactlyAfterFailures(threshold, Results(end.counted));
    AlertsAlternate(threshold, Results(end.counted));
  }

  // ----- Whose results are counted --------------------------------------------------------------

  /** Only results launched in this activation were counted. */
  predicate Own(w: World) {
    forall k :: 0 <= k < |w.counted| ==> w.counted[k].epoch == w.epoch
  }

  /** At most one probe is out, launched in this activation and known to the watchdog. */
  predicate Single(w: World) {
    && |w.probes| <= 1
    && (w.probes != [] ==> w.probes[0] == w.epoch)
    && (w.watch.active ==> (w.watch.inProgress <==> w.probes != []))
  }

  lemma AnsweredStaysOwn(w: World, worker: nat, reachable: bool)
    requires Own(w) && Single(w) && worker < |w.probes|
    ensures var after := Answered(w, worker, reachable); Own(after) && Single(after) && after.epoch == w.epoch
  {
    hide Policy.Record;
  }

  lemma FiredStaysOwn(w: World)
    requires Own(w) && Single(w) && w.watch.timer
    ensures Own(Fired(w)) && Single(Fired(w)) && Fired(w).epoch == w.epoch
  {
  }

  lemma SessionStaysOwn(w: World, e: Event)
    requires Own(w) && Single(w)
    requires !e.Proxying? && !e.WatchTimeout? && !e.WatchAnswer?
    ensures Own(Act(w, e)) && Single(Act(w, e)) && Act(w, e).epoch == w.epoch
  {
    hide Policy.Reset, Without, Armed, Fired, Answered;
    assert Act(w, e).counted == w.counted && Act(w, e).epoch == w.epoch;
  }

  lemma StepStaysOwn(w: World, e: Event)
    requires Own(w) && Single(w) && e != Proxying
    ensures Own(Step(w, e)) && Single(Step(w, e)) && Step(w, e).epoch == w.epoch
  {
    var quiet := w.(emitted := []);
    assert Own(quiet) && Single(quiet);
    hide Own, Single, Fired, Answered;
    match e
    case WatchTimeout => if w.watch.timer { FiredStaysOwn(quiet); }
    case WatchAnswer(worker, reachable) => if worker < |w.probes| { AnsweredStaysOwn(quiet, worker, reachable); }
    case _ => SessionStaysOwn(quiet, e);
  }

  lemma {:induction false} RunStaysOwn(w: World, es: seq<Event>)
    requires Own(w) && Single(w) && Proxying !in es
    ensures Own(Run(w, es)) && Single(Run(w, es))
    decreases |es|
  {
    hide Own, Single, Step;
    if es != [] {
      StepStaysOwn(w, es[0]);
      RunStaysOwn(Step(w, es[0]), es[1..]);
    }
  }

  /** Inactive, nothing is marked in flight, and every probe out was launched by now. */
  predicate Dated(w: World) {
    && (forall k :: 0 <= k < |w.probes| ==> w.probes[k] <= w.epoch)
    && (!w.watch.active ==> !w.watch.inProgress)
  }

  lemma {:induction false} RunStaysDated(w: World, es: seq<Event>)
    requires Dated(w)
    ensures Dated(Run(w, es))
    decreases |es|
  {
    hide Dated, Step;
    if es != [] {
      StepStaysDated(w, es[0]);
      RunStaysDated(Step(w, es[0]), es[1..]);
    }
  }

  lemma StepStaysDated(w: World, e: Event)
    requires Dated(w)
    ensures Dated(Step(w, e))
  {
    hide Results, Policy.Record, Policy.Reset;
  }

  lemma ArmingCountsOwnExactly(w: World)
    requires Dated(w) && !w.watch.active && !w.watch.shutdown
    ensures w.probes == [] <==> forall es :: Proxying !in es ==> Own(Run(Step(w, Proxying), es))
  {
    var armed := Step(w, Proxying);
    if w.probes == [] {
      ArmedIsOwn(w);
      hide Step, Own, Single;
      forall es | Proxying !in es ensures Own(Run(armed, es)) {
        RunStaysOwn(armed, es);
      }
    } else {
      StaleAnswerCounts(w);
      hide Step;
      var es := [WatchAnswer(0, true)];
      var stale := Step(armed, es[0]);
      assert es[1..] == [] && Run(armed, es) == stale;
      assert stale.counted[0].epoch != stale.epoch;
      assert Proxying !in es && !Own(Run(armed, es));
    }
  }

  lemma ArmedIsOwn(w: World)
    requires Dated(w) && !w.watch.active && w.probes == []
    ensures Own(Step(w, Proxying)) && Single(Step(w, Proxying))
  {
    hide Policy.Reset;
  }

  /** An older probe's answer right after arming is taken as this activation's first result. */
  lemma StaleAnswerCounts(w: World)
    requires Dated(w) && !w.watch.active && !w.watch.shutdown && w.probes != []
    ensures var stale := Step(Step(w, Proxying), WatchAnswer(0, true));
      stale.counted == [Counted(w.probes[0], true)] && w.probes[0] < stale.epoch == w.epoch + 1
  {
    hide Policy.Record, Policy.Reset, Without;
  }

  /** In every reachable inactive state: exactly when no probe is out at the moment of arming does the
      activation count nothing but its own results; otherwise an older probe's answer can be taken
      for this core's. */
  lemma CountsOwnExactlyWhenNoneOutstanding(initial: World, es: seq<Event>)
    requires Initial(initial)
    requires var w := Run(initial, es); !w.watch.active && !w.watch.shutdown
    ensures var w := Run(initial, es);
      w.probes == [] <==> forall more :: Proxying !in more ==> Own(Run(Step(w, Proxying), more))
  {
    assert Dated(initial);
    hide Run, Step, Own, Initial, Dated;
    RunStaysDated(initial, es);
    ArmingCountsOwnExactly(Run(initial, es));
  }

  lemma {:induction false} RunConcat(w: World, es: seq<Event>, fs: seq<Event>)
    ensures Run(w, es + fs) == Run(Run(w, es), fs)
    decreases |es|
  {
    hide Step;
    if es == [] {
      assert es + fs == fs;
    } else {
      assert (es + fs)[1..] == es[1..] + fs;
      RunConcat(Step(w, es[0]), es[1..], fs);
    }
  }

  lemma RunOfTwo(w: World, a: Event, b: Event)
    ensures Run(w, [a, b]) == Step(Step(w, a), b)
  {
    hide Step;
    assert [a, b][1..] == [b] && [b][1..] == [];
    assert Run(Step(w, a), [b]) == Run(Step(Step(w, a), b), []);
  }

  /** A probe is out when the session leaves. */
  lemma ProbeOutlivesCancel(initial: World)
    requires Initial(initial)
    ensures var left := Step(Step(Step(Step(initial, CheckSet(true)), Proxying), WatchTimeout), Left);
      && left.probes == [initial.epoch + 1] && left.epoch == initial.epoch + 1
      && Dated(left) && !left.watch.active && !left.watch.shutdown
  {
    var armed := Step(Step(initial, CheckSet(true)), Proxying);
    assert armed.watch.active && armed.watch.timer && armed.watch.check && !armed.watch.inProgress;
  }

  /** A concrete case: a probe launched before the session left is answered after it came back, and is
      counted for the new activation. */
  lemma CancelDoesNotDropTheProbe(initial: World)
    requires Initial(initial)
    ensures var es := [CheckSet(true), Proxying, WatchTimeout, Left, Proxying, WatchAnswer(0, true)];
      var end := Run(initial, es);
      end.counted == [Counted(initial.epoch + 1, true)] && end.epoch == initial.epoch + 2
  {
    ProbeOutlivesCancel(initial);
    hide Initial, Dated;
    var armed := Step(Step(initial, CheckSet(true)), Proxying);
    var left := Step(Step(armed, WatchTimeout), Left);
    StaleAnswerCounts(left);
    hide Step, Run;
    RunOfTwo(initial, CheckSet(true), Proxying);
    RunOfTwo(armed, WatchTimeout, Left);
    RunOfTwo(left, Proxying, WatchAnswer(0, true));
    RunConcat(initial, [CheckSet(true), Proxying], [WatchTimeout, Left]);
    RunConcat(initial, [CheckSet(true), Proxying] + [WatchTimeout, Left], [Proxying, WatchAnswer(0, true)]);
    assert [CheckSet(true), Proxying, WatchTimeout, Left, Proxying, WatchAnswer(0, true)]
           == [CheckSet(true), Proxying] + [WatchTimeout, Left] + [Proxying, WatchAnswer(0, true)];
  }

  /** And with one out at arming, two can come to be in flight. */
  lemma OlderProbeMakesTwoInFlight(w: World)
    requires Dated(w) && !w.watch.active && !w.watch.shutdown && w.watch.check && w.probes != []
    ensures |Step(Step(w, Proxying), WatchTimeout).probes| == |w.probes| + 1 >= 2
  {
  }
}
