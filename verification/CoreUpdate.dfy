/** The two-phase core update.  An update takes the background-task slot, asks for confirmation,
    and then either starts its worker at once or, when the core being replaced is running, parks
    its token in the pending snapshot until the session reports the core stopped.  The
    confirmation dialog spins a nested event loop, so other events may run while it is open; the
    update is therefore modelled as two steps, `OpenUpdate` and `AnswerUpdate`. */
module CoreUpdate {
  import opened BackgroundTasks
  import opened Basics

  /** What survives while the dialog is open; whether the core must stop was decided before it. */
  datatype Dialog = Dialog(token: Token, order: Order, mustStop: bool)

  datatype Order = Order(coreType: int, startAfterSuccess: bool, skipLocalVersionCheck: bool)

  datatype Snapshot = Snapshot(order: Order, taskToken: Token)

  const NOTHING_PENDING := Snapshot(Order(0, false, false), NO_TOKEN)

  datatype Worker = Worker(token: Token, order: Order, stoppedForInstall: bool)

  /** `worded`: the result carries a message to show. */
  datatype Outcome = Outcome(success: bool, requiresRestart: bool, worded: bool)

  datatype Effect =
    | StopCore
    | RefreshCoreTypes
    | NotifyCompletion(success: bool)
    | EnableSystemProxy(showOverlay: bool)
    | ClearProxyState
    | SyncStatus
    | ShowOperationMessage(success: bool)

  // ----- The pending snapshot -------------------------------------------------------------------

  /** Narrowing an unsigned 64-bit generation to a 32-bit signed argument. */
  function ToInt32(g: Generation): int {
    var low := g % 0x1_0000_0000;
    if low < 0x8000_0000 then low else low - 0x1_0000_0000
  }

  /** Comparing an unsigned 64-bit generation with that argument widens it again, sign included. */
  predicate SameGeneration(g: Generation, argument: int) {
    g == if argument < 0 then argument + TWO_TO_64 else argument
  }

  class CoreUpdatePendingState {
    var snapshot: Snapshot

    constructor ()
      ensures snapshot == NOTHING_PENDING
    {
      snapshot := NOTHING_PENDING;
    }

    predicate IsValid()
      reads this
    {
      snapshot.taskToken.IsValid()
    }

    method Store(order: Order, token: Token)
      modifies this
      ensures snapshot == Snapshot(order, token)
    {
      snapshot := Snapshot(order, token);
    }

    method Take() returns (taken: Snapshot)
      modifies this
      ensures taken == old(snapshot) && snapshot == NOTHING_PENDING
    {
      taken := snapshot;
      Clear();
    }

    method Clear()
      modifies this
      ensures snapshot == NOTHING_PENDING
    {
      snapshot := NOTHING_PENDING;
    }

    method ClearIfGeneration(generation: int)
      modifies this
      ensures snapshot ==
              if SameGeneration(old(snapshot).taskToken.generation, generation) then NOTHING_PENDING
              else old(snapshot)
    {
      if SameGeneration(snapshot.taskToken.generation, generation) {
        Clear();
      }
    }
  }

  /** The narrowing is faithful exactly outside the middle of the 64-bit range. */
  lemma NarrowingKeepsGeneration(g: Generation)
    ensures SameGeneration(g, ToInt32(g)) <==> g < 0x8000_0000 || g >= TWO_TO_64 - 0x8000_0000
  {
    var q := g / 0x1_0000_0000;
    assert g == q * 0x1_0000_0000 + g % 0x1_0000_0000;
  }

  /** What the narrowed comparison amounts to for any two generations: equal low halves, and a first
      one that a sign-extended 32-bit value can be. */
  lemma ComparesLowHalves(h: Generation, g: Generation)
    ensures SameGeneration(h, ToInt32(g)) <==>
              h % 0x1_0000_0000 == g % 0x1_0000_0000 && (h < 0x8000_0000 || h >= TWO_TO_64 - 0x8000_0000)
  {
    var q := h / 0x1_0000_0000;
    assert h == q * 0x1_0000_0000 + h % 0x1_0000_0000;
  }

  // ----- The coordinator ------------------------------------------------------------------------

  datatype Desk = Desk(slot: Slot, pending: Snapshot) {

    function Open(order: Order, mustStop: bool, uiPresent: bool, blocked: bool): (Desk, Option<Dialog>) {
      if !uiPresent then (this, None) else
      var (slot', token) := slot.Begin(Kind.CoreUpdate, UserTask, blocked);
      (this.(slot := slot'), if token.IsValid() then Some(Dialog(token, order, mustStop)) else None)
    }

    function Answer(dialog: Dialog, confirmed: bool): (Desk, seq<Effect>, Option<Worker>) {
      if !confirmed then (this.(slot := slot.Finish(dialog.token)), [NotifyCompletion(true)], None)
      else if dialog.mustStop then (this.(pending := Snapshot(dialog.order, dialog.token)), [StopCore], None)
      else (this, [], Some(Worker(dialog.token, dialog.order, false)))
    }

    function Continue(uiPresent: bool): (Desk, Option<Worker>) {
      if !uiPresent || !pending.taskToken.IsValid() then (this, None)
      else (this.(pending := NOTHING_PENDING),
            if slot.IsCurrent(pending.taskToken) then Some(Worker(pending.taskToken, pending.order, true))
            else None)
    }

    function ClearedIfSame(g: Generation): Snapshot {
      if SameGeneration(pending.taskToken.generation, ToInt32(g)) then NOTHING_PENDING else pending
    }

    function Finalize(worker: Worker, outcome: Outcome, shuttingDown: bool, uiPresent: bool): (Desk, seq<Effect>) {
      if !slot.IsCurrent(worker.token) then (this, [])
      else (Desk(slot.Finish(worker.token), ClearedIfSame(worker.token.generation)),
            Wrapup(worker, outcome, shuttingDown, uiPresent))
    }
  }

  function Wrapup(worker: Worker, outcome: Outcome, shuttingDown: bool, uiPresent: bool): seq<Effect> {
    if shuttingDown then [] else Reported(outcome) + Aftermath(worker, outcome) + Closing(outcome, uiPresent)
  }

  function Reported(outcome: Outcome): seq<Effect> {
    (if outcome.success then [RefreshCoreTypes] else []) + [NotifyCompletion(outcome.success)]
  }

  /** The message that closes an update, if there is one and a window to show it. */
  function Closing(outcome: Outcome, uiPresent: bool): seq<Effect> {
    if uiPresent && outcome.worded then [ShowOperationMessage(outcome.success)] else []
  }

  /** What happens to the session once an update is over. */
  function Aftermath(worker: Worker, outcome: Outcome): seq<Effect> {
    if worker.stoppedForInstall then
      if outcome.success && outcome.requiresRestart && worker.order.startAfterSuccess then [EnableSystemProxy(true)]
      else if !outcome.success then [EnableSystemProxy(false)]
      else [ClearProxyState, SyncStatus]
    else if worker.order.startAfterSuccess && outcome.success then [EnableSystemProxy(true)]
    else []
  }

  // ----- What the steps bring about -------------------------------------------------------------

  /** A dialog opens exactly for an idle, unblocked slot and a window, with the token that took it. */
  lemma OpensExactlyWhen(desk: Desk, order: Order, mustStop: bool, uiPresent: bool, blocked: bool)
    requires desk.slot.generation + 1 < TWO_TO_64
    ensures var (after, dialog) := desk.Open(order, mustStop, uiPresent, blocked);
      var g := desk.slot.generation + 1;
      if uiPresent && !blocked && desk.slot.activeKind == NoTask then
        && dialog == Some(Dialog(Token(Kind.CoreUpdate, g), order, mustStop))
        && after == Desk(Slot(Kind.CoreUpdate, g, g), desk.pending)
      else dialog == None && after == desk
  {
  }

  /** A declined dialog frees the slot if it is still its own, and starts and stops nothing; a confirmed
      one parks its token and stops the core, or starts a worker at once. */
  lemma AnswersAre(desk: Desk, dialog: Dialog, confirmed: bool)
    requires dialog.token.IsValid()
    ensures var (after, effects, launched) := desk.Answer(dialog, confirmed);
      var own := desk.slot.activeKind == dialog.token.kind && desk.slot.activeGeneration == dialog.token.generation;
      && (StopCore in effects <==> confirmed && dialog.mustStop)
      && (forall b :: NotifyCompletion(b) in effects <==> b && !confirmed)
      && |effects| <= 1 && (effects == [] <==> launched.Some?)
      && (launched.Some? <==> confirmed && !dialog.mustStop)
      && (launched.Some? ==> launched.value == Worker(dialog.token, dialog.order, false))
      && after.pending == (if confirmed && dialog.mustStop then Snapshot(dialog.order, dialog.token) else desk.pending)
      && after.slot == if own && !confirmed then Slot(NoTask, desk.slot.generation, 0) else desk.slot
  {
  }

  /** After the core stopped, the parked update is taken out whenever there is a window, and goes on
      exactly if it still owns the slot, as one that stopped the core. */
  lemma ContinuesExactlyWhen(desk: Desk, uiPresent: bool)
    ensures var (after, launched) := desk.Continue(uiPresent);
      var token := desk.pending.taskToken;
      var parked := token.kind != NoTask && token.generation != 0;
      && (launched.Some? <==> uiPresent && parked && desk.slot.activeKind == token.kind
                              && desk.slot.activeGeneration == token.generation)
      && (launched.Some? ==> launched.value == Worker(token, desk.pending.order, true))
      && after == if uiPresent && parked then Desk(desk.slot, NOTHING_PENDING) else desk
  {
  }

  /** In which turn an effect of a finished update comes. */
  function Turn(e: Effect): nat {
    match e
    case RefreshCoreTypes => 0
    case NotifyCompletion(_) => 1
    case EnableSystemProxy(_) => 2
    case ClearProxyState => 2
    case SyncStatus => 3
    case ShowOperationMessage(_) => 4
    case StopCore => 5
  }

  ghost predicate InTurn(effects: seq<Effect>) {
    forall i, j :: 0 <= i < j < |effects| ==> Turn(effects[i]) < Turn(effects[j])
  }

  lemma InTurnTogether(a: seq<Effect>, b: seq<Effect>, n: nat)
    requires InTurn(a) && InTurn(b)
    requires (forall e :: e in a ==> Turn(e) < n) && (forall e :: e in b ==> Turn(e) >= n)
    ensures InTurn(a + b)
  {
    forall i, j | 0 <= i < j < |a + b| ensures Turn((a + b)[i]) < Turn((a + b)[j]) {
      assert i < |a| ==> a[i] in a;
      assert j >= |a| ==> b[j - |a|] in b;
    }
  }

  lemma ReportedIs(outcome: Outcome)
    ensures InTurn(Reported(outcome))
    ensures forall e :: e in Reported(outcome) <==>
              (e.RefreshCoreTypes? && outcome.success) || e == NotifyCompletion(outcome.success)
  {
  }

  lemma AftermathIs(worker: Worker, outcome: Outcome)
    ensures InTurn(Aftermath(worker, outcome))
    ensures var starts, stopped := worker.order.startAfterSuccess, worker.stoppedForInstall;
      forall e :: e in Aftermath(worker, outcome) <==>
        || (e == EnableSystemProxy(true) && outcome.success && starts && (stopped ==> outcome.requiresRestart))
        || (e == EnableSystemProxy(false) && stopped && !outcome.success)
        || ((e.ClearProxyState? || e.SyncStatus?) && stopped && outcome.success && !(outcome.requiresRestart && starts))
  {
  }

  /** A stale worker changes nothing.  A current one frees the slot, and outside shutdown: a failed
      update that had stopped the core restores it, a successful one that needs a restart and is to
      start restarts it, any other that had stopped it clears the proxy state; without a stop the core
      is started exactly after a success that is to start it.  Nothing else of that happens. */
  lemma FinalizeBringsAbout(desk: Desk, worker: Worker, outcome: Outcome, shuttingDown: bool, uiPresent: bool)
    ensures var (after, effects) := desk.Finalize(worker, outcome, shuttingDown, uiPresent);
      var token, starts := worker.token, worker.order.startAfterSuccess;
      if token.kind == NoTask || token.generation == 0
         || token.kind != desk.slot.activeKind || token.generation != desk.slot.activeGeneration then
        after == desk && effects == []
      else
        && after.slot == Slot(NoTask, desk.slot.generation, 0)
        && (if shuttingDown then effects == [] else
            && InTurn(effects) && StopCore !in effects
            && (RefreshCoreTypes in effects <==> outcome.success)
            && (forall b :: NotifyCompletion(b) in effects <==> b == outcome.success)
            && (EnableSystemProxy(true) in effects <==>
                  outcome.success && starts && (worker.stoppedForInstall ==> outcome.requiresRestart))
            && (EnableSystemProxy(false) in effects <==> worker.stoppedForInstall && !outcome.success)
            && (ClearProxyState in effects <==>
                  worker.stoppedForInstall && outcome.success && !(outcome.requiresRestart && starts))
            && (SyncStatus in effects <==> ClearProxyState in effects)
            && forall b :: ShowOperationMessage(b) in effects <==> uiPresent && outcome.worded && b == outcome.success)
  {
    hide Wrapup, InTurn;
    if desk.slot.IsCurrent(worker.token) {
      if shuttingDown {
        NothingInShutdown(worker, outcome, uiPresent);
      } else {
        WrapupBringsAbout(worker, outcome, uiPresent);
      }
    }
  }

  lemma NothingInShutdown(worker: Worker, outcome: Outcome, uiPresent: bool)
    ensures Wrapup(worker, outcome, true, uiPresent) == []
  {
  }

  lemma WrapupBringsAbout(worker: Worker, outcome: Outcome, uiPresent: bool)
    ensures var effects, starts := Wrapup(worker, outcome, false, uiPresent), worker.order.startAfterSuccess;
      && InTurn(effects) && StopCore !in effects
      && (RefreshCoreTypes in effects <==> outcome.success)
      && (forall b :: NotifyCompletion(b) in effects <==> b == outcome.success)
      && (EnableSystemProxy(true) in effects <==>
            outcome.success && starts && (worker.stoppedForInstall ==> outcome.requiresRestart))
      && (EnableSystemProxy(false) in effects <==> worker.stoppedForInstall && !outcome.success)
      && (ClearProxyState in effects <==>
            worker.stoppedForInstall && outcome.success && !(outcome.requiresRestart && starts))
      && (SyncStatus in effects <==> ClearProxyState in effects)
      && forall b :: ShowOperationMessage(b) in effects <==> uiPresent && outcome.worded && b == outcome.success
  {
    ReportedIs(outcome);
    AftermathIs(worker, outcome);
    hide Reported, Aftermath, InTurn, Wrapup;
    WrapupHolds(worker, outcome, uiPresent);
  }

  lemma WrapupHolds(worker: Worker, outcome: Outcome, uiPresent: bool)
    ensures var all := Wrapup(worker, outcome, false, uiPresent);
      && InTurn(all)
      && forall e :: e in all <==>
           || e in Reported(outcome) || e in Aftermath(worker, outcome)
           || (uiPresent && outcome.worded && e == ShowOperationMessage(outcome.success))
  {
    ReportedIs(outcome);
    AftermathIs(worker, outcome);
    assert InTurn(Closing(outcome, uiPresent));
    hide Reported, Aftermath, InTurn;
    var tail := Aftermath(worker, outcome);
    InTurnTogether(Reported(outcome), tail, 2);
    InTurnTogether(Reported(outcome) + tail, Closing(outcome, uiPresent), 4);
  }

  /** Of the snapshot it clears exactly the one whose generation compares equal after narrowing. */
  lemma FinalizeClears(desk: Desk, worker: Worker, outcome: Outcome, shuttingDown: bool, uiPresent: bool)
    requires desk.slot.IsCurrent(worker.token)
    ensures var h, g := desk.pending.taskToken.generation, worker.token.generation;
      desk.Finalize(worker, outcome, shuttingDown, uiPresent).0.pending ==
        if h % 0x1_0000_0000 == g % 0x1_0000_0000 && (h < 0x8000_0000 || h >= TWO_TO_64 - 0x8000_0000)
        then NOTHING_PENDING else desk.pending
  {
    hide SameGeneration, ToInt32;
    ComparesLowHalves(desk.pending.taskToken.generation, worker.token.generation);
  }

  class CoreUpdateCoordinator {
    const tasks: BackgroundTaskCoordinator
    const pendingCoreUpdate: CoreUpdatePendingState

    constructor (tasks: BackgroundTaskCoordinator)
      ensures this.tasks == tasks && fresh(pendingCoreUpdate)
      ensures State() == Desk(tasks.State(), NOTHING_PENDING)
    {
      this.tasks := tasks;
      pendingCoreUpdate := new CoreUpdatePendingState();
    }

    function State(): Desk
      reads this, tasks, pendingCoreUpdate
    {
      Desk(tasks.State(), pendingCoreUpdate.snapshot)
    }

    method OpenUpdate(order: Order, mustStop: bool, uiPresent: bool, blocked: bool)
      returns (dialog: Option<Dialog>)
      modifies tasks
      ensures (State(), dialog) == old(State()).Open(order, mustStop, uiPresent, blocked)
    {
      if !uiPresent {
        return None;
      }
      var token, _ := tasks.TryBegin(Kind.CoreUpdate, UserTask, blocked);
      if !token.IsValid() {
        return None;
      }
      return Some(Dialog(token, order, mustStop));
    }

    method AnswerUpdate(dialog: Dialog, confirmed: bool) returns (effects: seq<Effect>, launched: Option<Worker>)
      modifies tasks, pendingCoreUpdate
      ensures (State(), effects, launched) == old(State()).Answer(dialog, confirmed)
    {
      if !confirmed {
        if tasks.State().IsCurrent(dialog.token) {
          var _, _ := tasks.Finish(dialog.token);
        }
        return [NotifyCompletion(true)], None;
      }
      if dialog.mustStop {
        pendingCoreUpdate.Store(dialog.order, dialog.token);
        return [StopCore], None;
      }
      return [], Some(Worker(dialog.token, dialog.order, false));
    }

    method ContinuePendingCoreUpdate(uiPresent: bool) returns (launched: Option<Worker>)
      modifies pendingCoreUpdate
      ensures (State(), launched) == old(State()).Continue(uiPresent)
    {
      if !uiPresent || !pendingCoreUpdate.IsValid() {
        return None;
      }
      var pending := pendingCoreUpdate.Take();
      if !tasks.State().IsCurrent(pending.taskToken) {
        return None;
      }
      return Some(Worker(pending.taskToken, pending.order, true));
    }

    method FinalizeCoreUpdate(worker: Worker, outcome: Outcome, shuttingDown: bool, uiPresent: bool)
      returns (effects: seq<Effect>)
      modifies tasks, pendingCoreUpdate
      ensures (State(), effects) == old(State()).Finalize(worker, outcome, shuttingDown, uiPresent)
    {
      if !tasks.State().IsCurrent(worker.token) {
        return [];
      }
      var _, _ := tasks.Finish(worker.token);
      pendingCoreUpdate.ClearIfGeneration(ToInt32(worker.token.generation));
      if shuttingDown {
        return [];
      }
      effects := [];
      if outcome.success {
        effects := effects + [RefreshCoreTypes];
      }
      effects := effects + [NotifyCompletion(outcome.success)];
      ghost var reported := effects;
      if worker.stoppedForInstall {
        if outcome.success && outcome.requiresRestart && worker.order.startAfterSuccess {
          effects := effects + [EnableSystemProxy(true)];
        } else if !outcome.success {
          effects := effects + [EnableSystemProxy(false)];
        } else {
          effects := effects + [ClearProxyState, SyncStatus];
        }
      }
      if !worker.stoppedForInstall && worker.order.startAfterSuccess && outcome.success {
        effects := effects + [EnableSystemProxy(true)];
      }
      assert reported == Reported(outcome);
      assert effects == reported + Aftermath(worker, outcome);
      if !uiPresent || !outcome.worded {
        assert Closing(outcome, uiPresent) == [] && effects == effects + [];
        return;
      }
      effects := effects + [ShowOperationMessage(outcome.success)];
    }
  }
}
