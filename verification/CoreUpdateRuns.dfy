/** Whole runs of the core update: any number of updates, dialogs answered late, workers that
    finish late, other owners of the task slot, and cancels, in every interleaving. */
module CoreUpdateRuns {
  import opened Basics
  import opened BackgroundTasks
  import opened CoreUpdate

  /** Workers of one token that passed the finalize gate: how many, those during shutdown, and outside it
      the failures and the renewals, successes that need a restart and are to start the core; and what
      was done then: the new core started, the previous one restored, or the proxy state cleared. */
  datatype Ends = Ends(finals: nat, quiet: nat, failures: nat, renewals: nat, starts: nat, restores: nat, clears: nat)

  const NO_ENDS := Ends(0, 0, 0, 0, 0, 0, 0)

  /** What has happened so far on behalf of one token. */
  datatype Ledger = Ledger(stops: nat, launches: nat, ends: Ends)

  const UNUSED := Ledger(0, 0, NO_ENDS)

  /** `dialogs` are the open confirmations and `workers` the outstanding worker completions, each
      under an identity of its own.  `ledger` has one entry per generation begun by an update. */
  datatype World = World(
    desk: Desk,
    dialogs: map<nat, Dialog>,
    workers: map<nat, Worker>,
    nextId: nat,
    ledger: map<Generation, Ledger>)

  const START := World(Desk(IDLE, NOTHING_PENDING), map[], map[], 0, map[])

  datatype Event =
    | Open(order: Order, mustStop: bool, uiPresent: bool, blocked: bool)
    | Answer(id: nat, confirmed: bool)
    | CoreStopped(uiPresent: bool)
    | WorkerDone(id: nat, outcome: Outcome, shuttingDown: bool, uiPresent: bool)
    | Others(event: BackgroundTasks.Event)

  /** Dialogs and completions happen only if they are outstanding, and nobody else can present a
      token that an update was given. */
  ghost predicate Enabled(w: World, e: Event) {
    match e
    case Open(_, _, _, _) => true
    case Answer(id, _) => id in w.dialogs
    case CoreStopped(_) => true
    case WorkerDone(id, _, _, _) => id in w.workers
    case Others(event) => event.Finish? ==> event.token.generation !in w.ledger
  }

  function Launch(w: World, launched: Option<Worker>): World {
    match launched
    case None => w
    case Some(worker) =>
      var g := worker.token.generation;
      w.(workers := w.workers[w.nextId := worker],
         nextId := w.nextId + 1,
         ledger := if g in w.ledger then w.ledger[g := w.ledger[g].(launches := w.ledger[g].launches + 1)]
                   else w.ledger)
  }

  function Count(effects: seq<Effect>, e: Effect): nat {
    multiset(effects)[e]
  }

  lemma CountConcat(a: seq<Effect>, b: seq<Effect>, e: Effect)
    ensures Count(a + b, e) == Count(a, e) + Count(b, e)
  {
  }

  /** Enters the effects of one step into the ledger of the token the step worked for. */
  function Booked(l: Ledger, effects: seq<Effect>): Ledger {
    var ends := l.ends;
    l.(stops := l.stops + Count(effects, StopCore),
       ends := ends.(starts := ends.starts + Count(effects, EnableSystemProxy(true)),
                     restores := ends.restores + Count(effects, EnableSystemProxy(false)),
                     clears := ends.clears + Count(effects, ClearProxyState)))
  }

  function Book(w: World, g: Generation, effects: seq<Effect>): World {
    if g in w.ledger then w.(ledger := w.ledger[g := Booked(w.ledger[g], effects)]) else w
  }

  /** The ledger of an update that passed the finalize gate with these effects. */
  function Settled(l: Ledger, worker: Worker, outcome: Outcome, effects: seq<Effect>, shuttingDown: bool): Ledger {
    var b := Booked(l, effects);
    var renews := outcome.success && outcome.requiresRestart && worker.order.startAfterSuccess;
    b.(ends := b.ends.(finals := b.ends.finals + 1,
                       quiet := b.ends.quiet + (if shuttingDown then 1 else 0),
                       failures := b.ends.failures + (if !shuttingDown && !outcome.success then 1 else 0),
                       renewals := b.ends.renewals + if !shuttingDown && renews then 1 else 0))
  }

  function OpenStep(w: World, order: Order, mustStop: bool, uiPresent: bool, blocked: bool): World {
    var (desk, dialog) := w.desk.Open(order, mustStop, uiPresent, blocked);
    if dialog.None? then w.(desk := desk) else
    w.(desk := desk, dialogs := w.dialogs[w.nextId := dialog.value], nextId := w.nextId + 1,
       ledger := w.ledger[dialog.value.token.generation := UNUSED])
  }

  function AnswerStep(w: World, id: nat, confirmed: bool): World
    requires id in w.dialogs
  {
    var dialog := w.dialogs[id];
    var (desk, effects, launched) := w.desk.Answer(dialog, confirmed);
    Launch(Book(w.(desk := desk, dialogs := w.dialogs - {id}), dialog.token.generation, effects), launched)
  }

  function CoreStoppedStep(w: World, uiPresent: bool): World {
    var (desk, launched) := w.desk.Continue(uiPresent);
    Launch(w.(desk := desk), launched)
  }

  function WorkerDoneStep(w: World, id: nat, outcome: Outcome, shuttingDown: bool, uiPresent: bool): World
    requires id in w.workers
  {
    var worker := w.workers[id];
    var left := w.(workers := w.workers - {id});
    if !uiPresent then left else
    var (desk, effects) := w.desk.Finalize(worker, outcome, shuttingDown, uiPresent);
    var g := worker.token.generation;
    if !w.desk.slot.IsCurrent(worker.token) || g !in w.ledger then left.(desk := desk)
    else left.(desk := desk, ledger := w.ledger[g := Settled(w.ledger[g], worker, outcome, effects, shuttingDown)])
  }

  function OthersStep(w: World, event: BackgroundTasks.Event): World {
    w.(desk := w.desk.(slot := BackgroundTasks.Step(w.desk.slot, event)))
  }

  function Step(w: World, e: Event): World
    requires Enabled(w, e)
  {
    match e
    case Open(order, mustStop, uiPresent, blocked) => OpenStep(w, order, mustStop, uiPresent, blocked)
    case Answer(id, confirmed) => AnswerStep(w, id, confirmed)
    case CoreStopped(uiPresent) => CoreStoppedStep(w, uiPresent)
    case WorkerDone(id, outcome, shuttingDown, uiPresent) => WorkerDoneStep(w, id, outcome, shuttingDown, uiPresent)
    case Others(event) => OthersStep(w, event)
  }

  // ----- Who holds a token ----------------------------------------------------------------------

  datatype Holder = InDialog(id: nat) | InPending | InWorker(id: nat)

  ghost predicate Holds(w: World, h: Holder, g: Generation) {
    match h
    case InDialog(id) => id in w.dialogs && w.dialogs[id].token.generation == g
    case InPending => w.desk.pending.taskToken.generation == g != 0
    case InWorker(id) => id in w.workers && w.workers[id].token.generation == g
  }

  ghost predicate Held(w: World, g: Generation) {
    exists h :: Holds(w, h, g)
  }

  /** The slot is taken by the update that was given generation `g`. */
  ghost predicate OwnsSlot(w: World, g: Generation) {
    g in w.ledger && w.desk.slot.activeGeneration == g
  }

  ghost predicate Owned(w: World, t: Token) {
    t.kind == Kind.CoreUpdate && t.generation in w.ledger
  }

  /** What the ledger says about a token as long as `h` holds it. */
  ghost function Expected(w: World, h: Holder): Ledger {
    match h
    case InDialog(_) => UNUSED
    case InPending => UNUSED.(stops := 1)
    case InWorker(id) =>
      UNUSED.(launches := 1, stops := if id in w.workers && w.workers[id].stoppedForInstall then 1 else 0)
  }

  /** What the ledger says about any token, held or not. */
  ghost predicate Closed(l: Ledger) {
    l.stops <= 1 && l.launches <= 1 && l.ends.finals <= l.launches && Closes(l.ends, l.stops == 1)
  }

  /** What ended outside shutdown was closed as it should be, with a core stopped for it or not. */
  predicate Closes(e: Ends, stopped: bool) {
    && e.quiet + e.failures + e.renewals <= e.finals
    && if stopped then
         && e.restores == e.failures && e.starts == e.renewals
         && e.clears == e.finals - e.quiet - e.failures - e.renewals
       else e.restores == e.clears == 0 && e.renewals <= e.starts <= e.finals - e.quiet - e.failures
  }

  ghost predicate Sane(w: World) {
    && w.desk.slot.Consistent()
    && (w.desk.slot.activeGeneration in w.ledger ==> w.desk.slot.activeKind == Kind.CoreUpdate)
    && (forall g :: g in w.ledger ==> 0 < g <= w.desk.slot.generation)
    && (forall id :: id in w.dialogs ==> id < w.nextId && Owned(w, w.dialogs[id].token))
    && (forall id :: id in w.workers ==> id < w.nextId && Owned(w, w.workers[id].token))
    && (w.desk.pending.taskToken == NO_TOKEN || Owned(w, w.desk.pending.taskToken))
  }

  /** A token given to an update is never held twice, is held as long as it owns the slot, and the
      ledger agrees with where it is. */
  ghost predicate Fine(w: World, g: Generation)
    requires g in w.ledger
  {
    && (forall h :: Holds(w, h, g) ==> Sole(w, h, g))
    && (OwnsSlot(w, g) ==> Held(w, g))
    && Closed(w.ledger[g])
  }

  /** Nobody else holds the token, and the ledger says what it should for this holder. */
  ghost predicate Sole(w: World, h: Holder, g: Generation)
    requires g in w.ledger
  {
    w.ledger[g] == Expected(w, h) && forall h' :: Holds(w, h', g) ==> h' == h
  }

  ghost predicate Inv(w: World) {
    Sane(w) && forall g :: g in w.ledger ==> Fine(w, g)
  }

  /** The two steps that can drop a live token: confirming a stop while the snapshot still carries
      the current token of another update, and a worker whose answer has no window to go to. */
  ghost predicate Clean(w: World, e: Event)
    requires Enabled(w, e)
  {
    match e
    case Answer(id, confirmed) =>
      confirmed && w.dialogs[id].mustStop ==> !w.desk.slot.IsCurrent(w.desk.pending.taskToken)
    case WorkerDone(id, _, _, uiPresent) => uiPresent || !w.desk.slot.IsCurrent(w.workers[id].token)
    case _ => true
  }

  /** A generation that owns the slot is the generation of the token that is current. */
  lemma OwnerIsCurrent(w: World, t: Token)
    requires Sane(w) && Owned(w, t)
    ensures w.desk.slot.IsCurrent(t) <==> OwnsSlot(w, t.generation)
  {
  }

  // ----- One step at a time, one token at a time ------------------------------------------------

  /** A token the step did not move: it may only have lost the slot, or a holder it did not need. */
  lemma UntouchedStaysFine(w: World, w': World, g: Generation)
    requires g in w.ledger && Fine(w, g)
    requires g in w'.ledger && w'.ledger[g] == w.ledger[g]
    requires forall h :: Holds(w', h, g) ==> Holds(w, h, g) && Expected(w', h) == Expected(w, h)
    requires OwnsSlot(w', g) ==> Held(w', g)
    ensures Fine(w', g)
  {
    hide Holds, Held, Closed, Expected;
    forall h | Holds(w', h, g) ensures Sole(w', h, g) {
      assert Sole(w, h, g);
    }
  }

  /** A token whose one holder is now `h`. */
  lemma MovedIsFine(w': World, h: Holder, g: Generation)
    requires g in w'.ledger && w'.ledger[g] == Expected(w', h)
    requires forall h' :: Holds(w', h', g) <==> h' == h
    ensures Fine(w', g)
  {
    hide Holds;
    assert Holds(w', h, g);
  }

  /** A dialog was opened under a generation never seen before. */
  ghost predicate Opened(w: World, w': World, dialog: Dialog) {
    var g := dialog.token.generation;
    && dialog.token.kind == Kind.CoreUpdate
    && w.desk.slot.generation < g == w'.desk.slot.generation == w'.desk.slot.activeGeneration
    && w'.desk.slot.activeKind == Kind.CoreUpdate && w'.desk.pending == w.desk.pending
    && w'.dialogs == w.dialogs[w.nextId := dialog] && w'.workers == w.workers && w'.nextId == w.nextId + 1
    && w'.ledger == w.ledger[g := UNUSED]
  }

  lemma OpenOpens(w: World, order: Order, mustStop: bool, uiPresent: bool, blocked: bool)
    requires Sane(w) && w.desk.slot.generation + 1 < TWO_TO_64
    ensures var w' := OpenStep(w, order, mustStop, uiPresent, blocked);
            var dialog := w.desk.Open(order, mustStop, uiPresent, blocked).1;
            if dialog.Some? then Opened(w, w', dialog.value) else w' == w
  {
  }

  lemma OpenedIsSane(w: World, w': World, dialog: Dialog)
    requires Sane(w) && Opened(w, w', dialog)
    ensures Sane(w')
  {
    assert forall t :: Owned(w, t) ==> Owned(w', t);
  }

  lemma OpenedAddsOneHolder(w: World, w': World, dialog: Dialog, g: Generation)
    requires Sane(w) && Opened(w, w', dialog)
    ensures forall h :: Holds(w', h, g) <==>
      Holds(w, h, g) || (h == InDialog(w.nextId) && g == dialog.token.generation)
    ensures g !in w.ledger ==> forall h :: !Holds(w, h, g)
  {
  }

  lemma OpenedKeepsInv(w: World, w': World, dialog: Dialog)
    requires Inv(w) && Opened(w, w', dialog)
    ensures Inv(w')
  {
    OpenedIsSane(w, w', dialog);
    hide Sane, Closed, Held;
    forall g | g in w'.ledger ensures Fine(w', g) {
      OpenedAddsOneHolder(w, w', dialog, g);
      if g == dialog.token.generation {
        MovedIsFine(w', InDialog(w.nextId), g);
      } else {
        UntouchedStaysFine(w, w', g);
      }
    }
  }

  /** Holder `gone` has let its token go; the slot is as it was, or free of that token. */
  ghost predicate LetGo(w: World, w': World, gone: Holder, token: Token) {
    && Owned(w, token) && Holds(w, gone, token.generation) && !gone.InWorker?
    && w'.desk.slot == w.desk.slot.Finish(token)
    && w'.desk.pending == (if gone.InPending? then NOTHING_PENDING else w.desk.pending)
    && w'.dialogs == (if gone.InDialog? then w.dialogs - {gone.id} else w.dialogs)
    && w'.workers == w.workers && w'.nextId == w.nextId && w'.ledger == w.ledger
  }

  lemma DeclineLetsGo(w: World, id: nat)
    requires Sane(w) && id in w.dialogs
    ensures LetGo(w, AnswerStep(w, id, false), InDialog(id), w.dialogs[id].token)
  {
    var g := w.dialogs[id].token.generation;
    assert Booked(w.ledger[g], [NotifyCompletion(true)]) == w.ledger[g];
  }

  lemma DropStaleLetsGo(w: World, uiPresent: bool)
    requires Sane(w) && w.desk.Continue(uiPresent).1.None?
    ensures CoreStoppedStep(w, uiPresent) == w
            || LetGo(w, CoreStoppedStep(w, uiPresent), InPending, w.desk.pending.taskToken)
  {
  }

  lemma LetGoIsSane(w: World, w': World, gone: Holder, token: Token)
    requires Sane(w) && LetGo(w, w', gone, token)
    ensures Sane(w')
  {
    assert forall t :: Owned(w, t) ==> Owned(w', t);
  }

  lemma LetGoDropsOneHolder(w: World, w': World, gone: Holder, token: Token, g: Generation)
    requires Sane(w) && LetGo(w, w', gone, token)
    ensures forall h :: Holds(w', h, g) <==> Holds(w, h, g) && h != gone
    ensures OwnsSlot(w', g) ==> OwnsSlot(w, g) && g != token.generation
  {
    OwnerIsCurrent(w, token);
  }

  lemma LetGoLeavesOthers(w: World, w': World, gone: Holder, token: Token, g: Generation)
    requires Sane(w) && LetGo(w, w', gone, token) && g in w.ledger && Fine(w, g)
    ensures Fine(w', g)
  {
    LetGoDropsOneHolder(w, w', gone, token, g);
    hide Sane, Closed, Holds;
    if OwnsSlot(w', g) {
      var h :| Holds(w, h, g);
      assert Holds(w', h, g);
    }
    UntouchedStaysFine(w, w', g);
  }

  lemma LetGoKeepsInv(w: World, w': World, gone: Holder, token: Token)
    requires Inv(w) && LetGo(w, w', gone, token)
    ensures Inv(w')
  {
    LetGoIsSane(w, w', gone, token);
    forall g | g in w'.ledger ensures Fine(w', g) {
      LetGoLeavesOthers(w, w', gone, token, g);
    }
  }

  /** A dialog parked its token in the snapshot, over whatever was there. */
  ghost predicate Parked(w: World, w': World, id: nat) {
    && id in w.dialogs
    && w'.desk == w.desk.(pending := Snapshot(w.dialogs[id].order, w.dialogs[id].token))
    && w'.dialogs == w.dialogs - {id} && w'.workers == w.workers && w'.nextId == w.nextId
    && w.dialogs[id].token.generation in w.ledger
    && var g := w.dialogs[id].token.generation;
       w'.ledger == w.ledger[g := w.ledger[g].(stops := w.ledger[g].stops + 1)]
  }

  lemma StopParks(w: World, id: nat)
    requires Sane(w) && id in w.dialogs && w.dialogs[id].mustStop
    ensures Parked(w, AnswerStep(w, id, true), id)
  {
    assert Count([StopCore], StopCore) == 1;
  }

  lemma ParkedIsSane(w: World, w': World, id: nat)
    requires Sane(w) && Parked(w, w', id)
    ensures Sane(w')
  {
    assert forall t :: Owned(w, t) ==> Owned(w', t);
  }

  lemma ParkedMovesOneHolder(w: World, w': World, id: nat, g: Generation)
    requires Sane(w) && Parked(w, w', id)
    ensures forall h :: Holds(w', h, g) <==>
      (Holds(w, h, g) && h != InDialog(id) && h != InPending)
      || (h == InPending && g == w.dialogs[id].token.generation)
  {
  }

  lemma ParkedIsFine(w: World, w': World, id: nat, g: Generation)
    requires Sane(w) && Parked(w, w', id) && g == w.dialogs[id].token.generation && Fine(w, g)
    ensures Fine(w', g)
  {
    ParkedMovesOneHolder(w, w', id, g);
    assert Holds(w, InDialog(id), g) && Sole(w, InDialog(id), g);
    assert w'.ledger[g] == Expected(w', InPending);
    hide Sane, Closed, Holds, Held, Parked, Fine, Expected;
    assert forall h :: Holds(w', h, g) <==> h == InPending;
    MovedIsFine(w', InPending, g);
  }

  lemma ParkedLeavesOthers(w: World, w': World, id: nat, g: Generation)
    requires Sane(w) && Parked(w, w', id) && g != w.dialogs[id].token.generation
    requires !w.desk.slot.IsCurrent(w.desk.pending.taskToken)
    requires g in w.ledger && Fine(w, g)
    ensures Fine(w', g)
  {
    ParkedMovesOneHolder(w, w', id, g);
    if OwnsSlot(w', g) {
      var h :| Holds(w, h, g);
      if h == InPending {
        OwnerIsCurrent(w, w.desk.pending.taskToken);
      }
      assert Holds(w', h, g);
    }
    UntouchedStaysFine(w, w', g);
  }

  /** A holder handing its token to a fresh worker: the dialog directly, or the snapshot. */
  ghost predicate HandsOver(w: World, w': World, from: Holder, worker: Worker) {
    var g := worker.token.generation;
    && Owned(w, worker.token) && Holds(w, from, g) && !from.InWorker?
    && worker.stoppedForInstall == from.InPending?
    && w'.desk.slot == w.desk.slot && w'.nextId == w.nextId + 1
    && w'.desk.pending == (if from.InPending? then NOTHING_PENDING else w.desk.pending)
    && w'.dialogs == (if from.InDialog? then w.dialogs - {from.id} else w.dialogs)
    && w'.workers == w.workers[w.nextId := worker]
    && w'.ledger == w.ledger[g := w.ledger[g].(launches := w.ledger[g].launches + 1)]
  }

  lemma HandOverIsSane(w: World, w': World, from: Holder, worker: Worker)
    requires Sane(w) && HandsOver(w, w', from, worker)
    ensures Sane(w') && w'.ledger.Keys == w.ledger.Keys
  {
    assert forall t :: Owned(w, t) ==> Owned(w', t);
  }

  lemma HandOverMovesOneHolder(w: World, w': World, from: Holder, worker: Worker, g: Generation)
    requires Sane(w) && HandsOver(w, w', from, worker)
    ensures forall h :: Holds(w', h, g) <==>
      (Holds(w, h, g) && h != from) || (h == InWorker(w.nextId) && g == worker.token.generation)
  {
    assert w.nextId !in w.workers;
  }

  lemma HandOverIsFine(w: World, w': World, from: Holder, worker: Worker, g: Generation)
    requires Sane(w) && HandsOver(w, w', from, worker) && g in w.ledger && Fine(w, g)
    requires g == worker.token.generation
    ensures g in w'.ledger && Fine(w', g)
  {
    HandOverMovesOneHolder(w, w', from, worker, g);
    hide Sane, Held, Closed, Holds;
    assert w.ledger[g] == Expected(w, from);
    assert w'.workers[w.nextId] == worker;
    MovedIsFine(w', InWorker(w.nextId), g);
  }

  lemma HandOverLeavesOthers(w: World, w': World, from: Holder, worker: Worker, g: Generation)
    requires Sane(w) && HandsOver(w, w', from, worker) && g in w.ledger && Fine(w, g)
    requires g != worker.token.generation
    ensures g in w'.ledger && Fine(w', g)
  {
    HandOverMovesOneHolder(w, w', from, worker, g);
    assert w.nextId !in w.workers;
    assert forall h :: Holds(w, h, g) ==> h != InWorker(w.nextId);
    hide Sane, Closed, Holds;
    if OwnsSlot(w', g) {
      var h :| Holds(w, h, g);
      assert Holds(w', h, g);
    }
    UntouchedStaysFine(w, w', g);
  }

  lemma HandOverKeepsInv(w: World, w': World, from: Holder, worker: Worker)
    requires Inv(w) && HandsOver(w, w', from, worker)
    ensures Inv(w')
  {
    HandOverIsSane(w, w', from, worker);
    forall g | g in w'.ledger ensures Fine(w', g) {
      if g == worker.token.generation {
        HandOverIsFine(w, w', from, worker, g);
      } else {
        HandOverLeavesOthers(w, w', from, worker, g);
      }
    }
  }

  lemma StartHandsOver(w: World, id: nat)
    requires Sane(w) && id in w.dialogs && !w.dialogs[id].mustStop
    ensures HandsOver(w, AnswerStep(w, id, true), InDialog(id), Worker(w.dialogs[id].token, w.dialogs[id].order, false))
  {
    var g := w.dialogs[id].token.generation;
    assert Booked(w.ledger[g], []) == w.ledger[g];
  }

  lemma ResumeHandsOver(w: World, uiPresent: bool)
    requires Sane(w) && w.desk.Continue(uiPresent).1.Some?
    ensures HandsOver(w, CoreStoppedStep(w, uiPresent), InPending, w.desk.Continue(uiPresent).1.value)
  {
  }

  /** What the ledger counts. */
  predicate Bookable(e: Effect) {
    e.StopCore? || e.EnableSystemProxy? || e.ClearProxyState?
  }

  /** Of what a finished update does, only the aftermath is counted. */
  lemma OnlyTheAftermathCounts(worker: Worker, outcome: Outcome, uiPresent: bool, e: Effect)
    requires Bookable(e)
    ensures Count(Wrapup(worker, outcome, false, uiPresent), e) == Count(Aftermath(worker, outcome), e)
  {
    hide Aftermath;
    var tail := Aftermath(worker, outcome);
    CountConcat(Reported(outcome) + tail, Closing(outcome, uiPresent), e);
    CountConcat(Reported(outcome), tail, e);
    assert Count(Reported(outcome), e) == 0;
  }

  /** What a worker that passed the gate leaves in the ledger. */
  lemma WrapupBooks(worker: Worker, outcome: Outcome, shuttingDown: bool, uiPresent: bool, l: Ledger)
    ensures var starts, stopped, loud := worker.order.startAfterSuccess, worker.stoppedForInstall, !shuttingDown;
      var begun := loud && outcome.success && starts && (stopped ==> outcome.requiresRestart);
      var cleared := loud && stopped && outcome.success && !(outcome.requiresRestart && starts);
      Booked(l, Wrapup(worker, outcome, shuttingDown, uiPresent))
      == l.(ends := l.ends.(starts := l.ends.starts + (if begun then 1 else 0),
                            restores := l.ends.restores + (if loud && stopped && !outcome.success then 1 else 0),
                            clears := l.ends.clears + if cleared then 1 else 0))
  {
    hide Wrapup, Count, Aftermath;
    if shuttingDown {
      NothingToCount(worker, outcome, uiPresent);
    } else {
      OnlyTheAftermathCounts(worker, outcome, uiPresent, StopCore);
      OnlyTheAftermathCounts(worker, outcome, uiPresent, EnableSystemProxy(true));
      OnlyTheAftermathCounts(worker, outcome, uiPresent, EnableSystemProxy(false));
      OnlyTheAftermathCounts(worker, outcome, uiPresent, ClearProxyState);
      AftermathCounts(worker, outcome);
    }
  }

  lemma NothingToCount(worker: Worker, outcome: Outcome, uiPresent: bool)
    ensures forall e :: Count(Wrapup(worker, outcome, true, uiPresent), e) == 0
  {
    assert Wrapup(worker, outcome, true, uiPresent) == [];
  }

  lemma AftermathCounts(worker: Worker, outcome: Outcome)
    ensures var tail, starts, stopped := Aftermath(worker, outcome), worker.order.startAfterSuccess,
                                         worker.stoppedForInstall;
      var begun := outcome.success && starts && (stopped ==> outcome.requiresRestart);
      && Count(tail, StopCore) == 0 && Count(tail, EnableSystemProxy(true)) == (if begun then 1 else 0)
      && Count(tail, EnableSystemProxy(false)) == (if stopped && !outcome.success then 1 else 0)
      && Count(tail, ClearProxyState)
         == if stopped && outcome.success && !(outcome.requiresRestart && starts) then 1 else 0
  {
  }

  /** A worker is gone, and the ledger of its token now says `l`.  If its answer passed the gate, the
      slot is free; otherwise it is as it was. */
  ghost predicate Ended(w: World, w': World, id: nat, l: Ledger) {
    && id in w.workers && w.workers[id].token.generation in w.ledger
    && w'.workers == w.workers - {id} && w'.dialogs == w.dialogs && w'.nextId == w.nextId
    && w'.desk.slot in {w.desk.slot, w.desk.slot.Finish(w.workers[id].token)}
    && (w'.desk.pending == w.desk.pending
        || (w'.desk.pending == NOTHING_PENDING && w'.desk.slot.activeKind == NoTask))
    && w'.ledger == w.ledger[w.workers[id].token.generation := l]
  }

  /** A worker that passed the gate: if a core was stopped for it and the program is not shutting down,
      a failure is closed by restoring the core, a renewal by starting it, and the rest by a clear. */
  lemma PassedGateIsClosed(worker: Worker, outcome: Outcome, shuttingDown: bool, uiPresent: bool, l: Ledger)
    requires l == UNUSED.(launches := 1, stops := if worker.stoppedForInstall then 1 else 0)
    ensures var settled := Settled(l, worker, outcome, Wrapup(worker, outcome, shuttingDown, uiPresent), shuttingDown);
      var ends := settled.ends;
      && Closed(settled) && settled.stops == l.stops && ends.finals == 1
      && (worker.stoppedForInstall && !shuttingDown ==>
            && (ends.restores == 1 <==> !outcome.success)
            && (ends.starts == 1 <==> outcome.success && outcome.requiresRestart && worker.order.startAfterSuccess)
            && ends.restores + ends.starts + ends.clears == 1)
  {
    hide Wrapup, Booked;
    WrapupBooks(worker, outcome, shuttingDown, uiPresent, l);
  }

  /** The ledger a current worker's answer leaves behind. */
  lemma CurrentWorkerLedger(w: World, id: nat, outcome: Outcome, shuttingDown: bool)
    requires Sane(w) && id in w.workers && Fine(w, w.workers[id].token.generation)
    ensures var worker := w.workers[id];
      var l := w.ledger[worker.token.generation];
      Closed(Settled(l, worker, outcome, Wrapup(worker, outcome, shuttingDown, true), shuttingDown))
  {
    var worker := w.workers[id];
    assert Holds(w, InWorker(id), worker.token.generation);
    assert w.ledger[worker.token.generation] == Expected(w, InWorker(id));
    hide Sane, Fine, Closed, Settled, Wrapup, Holds;
    PassedGateIsClosed(worker, outcome, shuttingDown, true, w.ledger[worker.token.generation]);
  }

  lemma StaleWorkerEnds(w: World, id: nat, outcome: Outcome, shuttingDown: bool, uiPresent: bool)
    requires Sane(w) && id in w.workers && (!uiPresent || !w.desk.slot.IsCurrent(w.workers[id].token))
    ensures w.workers[id].token.generation in w.ledger
    ensures var w' := WorkerDoneStep(w, id, outcome, shuttingDown, uiPresent);
      Ended(w, w', id, w.ledger[w.workers[id].token.generation])
  {
    var w' := WorkerDoneStep(w, id, outcome, shuttingDown, uiPresent);
    var g := w.workers[id].token.generation;
    assert w' == w.(workers := w.workers - {id});
    assert w.ledger[g := w.ledger[g]] == w.ledger;
  }

  /** What a current worker's answer changes. */
  lemma CurrentWorkerStep(w: World, id: nat, outcome: Outcome, shuttingDown: bool)
    requires id in w.workers && w.desk.slot.IsCurrent(w.workers[id].token)
    requires w.workers[id].token.generation in w.ledger
    ensures var worker := w.workers[id];
      var g := worker.token.generation;
      var effects := Wrapup(worker, outcome, shuttingDown, true);
      WorkerDoneStep(w, id, outcome, shuttingDown, true)
      == w.(workers := w.workers - {id}, desk := Desk(w.desk.slot.Finish(worker.token), w.desk.ClearedIfSame(g)),
            ledger := w.ledger[g := Settled(w.ledger[g], worker, outcome, effects, shuttingDown)])
  {
    hide Wrapup, Settled;
  }

  lemma CurrentWorkerEnds(w: World, id: nat, outcome: Outcome, shuttingDown: bool)
    requires Sane(w) && id in w.workers && w.desk.slot.IsCurrent(w.workers[id].token)
    ensures w.workers[id].token.generation in w.ledger
    ensures var worker := w.workers[id];
      var w' := WorkerDoneStep(w, id, outcome, shuttingDown, true);
      && w'.desk.slot.activeKind == NoTask
      && var effects := Wrapup(worker, outcome, shuttingDown, true);
         Ended(w, w', id, Settled(w.ledger[worker.token.generation], worker, outcome, effects, shuttingDown))
  {
    var g := w.workers[id].token.generation;
    var cleared := w.desk.ClearedIfSame(g);
    assert cleared == w.desk.pending || cleared == NOTHING_PENDING;
    assert g in w.ledger;
    hide Sane, Settled, Wrapup, WorkerDoneStep, Desk.ClearedIfSame;
    CurrentWorkerStep(w, id, outcome, shuttingDown);
  }

  lemma EndedIsSane(w: World, w': World, id: nat, l: Ledger)
    requires Sane(w) && Ended(w, w', id, l)
    ensures Sane(w') && w'.ledger.Keys == w.ledger.Keys
  {
    assert forall t :: Owned(w, t) ==> Owned(w', t);
  }

  lemma EndedDropsOneHolder(w: World, w': World, id: nat, l: Ledger, g: Generation)
    requires Sane(w) && Ended(w, w', id, l)
    ensures forall h :: Holds(w', h, g) ==> Holds(w, h, g) && h != InWorker(id)
    ensures OwnsSlot(w', g) ==> OwnsSlot(w, g) && w'.desk.slot == w.desk.slot
    ensures OwnsSlot(w', g) && g != w.workers[id].token.generation ==>
              forall h :: Holds(w, h, g) ==> Holds(w', h, g)
  {
    hide Held, Closed, Expected;
    assert OwnsSlot(w', g) ==> w'.desk.slot == w.desk.slot && w'.desk.pending == w.desk.pending;
  }

  lemma EndedIsFine(w: World, w': World, id: nat, l: Ledger, g: Generation)
    requires Sane(w) && Ended(w, w', id, l) && g == w.workers[id].token.generation && g in w.ledger && Fine(w, g)
    requires w'.desk.slot.activeKind == NoTask || !w.desk.slot.IsCurrent(w.workers[id].token)
    requires Closed(l)
    ensures g in w'.ledger && Fine(w', g)
  {
    OwnerIsCurrent(w, w.workers[id].token);
    EndedDropsOneHolder(w, w', id, l, g);
    assert Holds(w, InWorker(id), g) && Sole(w, InWorker(id), g);
    assert w'.desk.slot.Consistent() by {
      EndedIsSane(w, w', id, l);
    }
    hide Sane, Closed, Holds, Expected, Held;
    assert !OwnsSlot(w', g);
    assert forall h :: !Holds(w', h, g);
  }

  lemma EndedLeavesOthers(w: World, w': World, id: nat, l: Ledger, g: Generation)
    requires Sane(w) && Ended(w, w', id, l) && g != w.workers[id].token.generation && g in w.ledger && Fine(w, g)
    ensures g in w'.ledger && Fine(w', g)
  {
    EndedDropsOneHolder(w, w', id, l, g);
    hide Sane, Closed, Holds;
    assert forall h :: h != InWorker(id) ==> Expected(w', h) == Expected(w, h);
    hide Expected, Ended;
    if OwnsSlot(w', g) {
      var h :| Holds(w, h, g);
      assert Holds(w', h, g);
    }
    assert w'.ledger[g] == w.ledger[g];
    UntouchedStaysFine(w, w', g);
  }

  lemma OthersAreSane(w: World, event: BackgroundTasks.Event)
    requires Sane(w) && Enabled(w, Others(event)) && w.desk.slot.generation + 1 < TWO_TO_64
    ensures Sane(OthersStep(w, event))
    ensures forall g :: OwnsSlot(OthersStep(w, event), g) ==> OwnsSlot(w, g)
  {
    StepKeepsConsistent(w.desk.slot, event);
    assert forall t :: Owned(w, t) ==> Owned(OthersStep(w, event), t);
  }

  lemma OthersAreFine(w: World, event: BackgroundTasks.Event, g: Generation)
    requires Sane(w) && Enabled(w, Others(event)) && w.desk.slot.generation + 1 < TWO_TO_64
    requires g in w.ledger && Fine(w, g)
    ensures Fine(OthersStep(w, event), g)
  {
    var w' := OthersStep(w, event);
    OthersAreSane(w, event);
    assert forall h :: Holds(w', h, g) <==> Holds(w, h, g);
    UntouchedStaysFine(w, w', g);
  }

  lemma AnswerKeepsInv(w: World, id: nat, confirmed: bool)
    requires Inv(w) && id in w.dialogs && Clean(w, Answer(id, confirmed))
    ensures Inv(AnswerStep(w, id, confirmed))
  {
    var w' := AnswerStep(w, id, confirmed);
    if !confirmed {
      DeclineLetsGo(w, id);
      LetGoKeepsInv(w, w', InDialog(id), w.dialogs[id].token);
    } else if w.dialogs[id].mustStop {
      StopParks(w, id);
      ParkedIsSane(w, w', id);
      forall g | g in w'.ledger ensures Fine(w', g) {
        if g == w.dialogs[id].token.generation {
          ParkedIsFine(w, w', id, g);
        } else {
          ParkedLeavesOthers(w, w', id, g);
        }
      }
    } else {
      StartHandsOver(w, id);
      HandOverKeepsInv(w, w', InDialog(id), Worker(w.dialogs[id].token, w.dialogs[id].order, false));
    }
  }

  lemma CoreStoppedKeepsInv(w: World, uiPresent: bool)
    requires Inv(w)
    ensures Inv(CoreStoppedStep(w, uiPresent))
  {
    var w' := CoreStoppedStep(w, uiPresent);
    var launched := w.desk.Continue(uiPresent).1;
    if launched.Some? {
      ResumeHandsOver(w, uiPresent);
      HandOverKeepsInv(w, w', InPending, launched.value);
    } else {
      DropStaleLetsGo(w, uiPresent);
      if w' != w {
        LetGoKeepsInv(w, w', InPending, w.desk.pending.taskToken);
      }
    }
  }

  lemma WorkerDoneKeepsInv(w: World, id: nat, outcome: Outcome, shuttingDown: bool, uiPresent: bool)
    requires Inv(w) && id in w.workers && Clean(w, WorkerDone(id, outcome, shuttingDown, uiPresent))
    ensures Inv(WorkerDoneStep(w, id, outcome, shuttingDown, uiPresent))
  {
    var worker := w.workers[id];
    if uiPresent && w.desk.slot.IsCurrent(worker.token) {
      CurrentWorkerEnds(w, id, outcome, shuttingDown);
      CurrentWorkerLedger(w, id, outcome, shuttingDown);
      var effects := Wrapup(worker, outcome, shuttingDown, true);
      EndedKeepsInv(w, WorkerDoneStep(w, id, outcome, shuttingDown, uiPresent), id,
                    Settled(w.ledger[worker.token.generation], worker, outcome, effects, shuttingDown));
    } else {
      StaleWorkerEnds(w, id, outcome, shuttingDown, uiPresent);
      assert Fine(w, worker.token.generation);
      EndedKeepsInv(w, WorkerDoneStep(w, id, outcome, shuttingDown, uiPresent), id, w.ledger[worker.token.generation]);
    }
  }

  lemma EndedKeepsInv(w: World, w': World, id: nat, l: Ledger)
    requires Inv(w) && Ended(w, w', id, l) && Closed(l)
    requires w'.desk.slot.activeKind == NoTask || !w.desk.slot.IsCurrent(w.workers[id].token)
    ensures Inv(w')
  {
    EndedIsSane(w, w', id, l);
    assert id in w.workers;
    hide Fine, Sane, Closed, Ended;
    forall g | g in w'.ledger ensures Fine(w', g) {
      if g == w.workers[id].token.generation {
        EndedIsFine(w, w', id, l, g);
      } else {
        EndedLeavesOthers(w, w', id, l, g);
      }
    }
  }

  /** Every enabled clean step keeps the protocol invariant. */
  lemma StepKeepsInv(w: World, e: Event)
    requires Inv(w) && Enabled(w, e) && Clean(w, e) && w.desk.slot.generation + 1 < TWO_TO_64
    ensures Inv(Step(w, e))
  {
    match e
    case Open(order, mustStop, uiPresent, blocked) =>
      var dialog := w.desk.Open(order, mustStop, uiPresent, blocked).1;
      OpenOpens(w, order, mustStop, uiPresent, blocked);
      if dialog.Some? {
        OpenedKeepsInv(w, Step(w, e), dialog.value);
      }
    case Answer(id, confirmed) =>
      AnswerKeepsInv(w, id, confirmed);
    case CoreStopped(uiPresent) =>
      CoreStoppedKeepsInv(w, uiPresent);
    case WorkerDone(id, outcome, shuttingDown, uiPresent) =>
      WorkerDoneKeepsInv(w, id, outcome, shuttingDown, uiPresent);
    case Others(event) =>
      OthersAreSane(w, event);
      forall g | g in w.ledger ensures Fine(Step(w, e), g) { OthersAreFine(w, event, g); }
  }

  // ----- What an unclean step costs -------------------------------------------------------------

  /** The slot is taken on behalf of a token that nothing will ever present again. */
  ghost predicate Leaked(w: World, token: Token) {
    w.desk.slot.IsCurrent(token) && Owned(w, token) && !Held(w, token.generation)
  }

  /** A clean step keeps every live token held; an unclean one leaks a live token. */
  lemma CleanIffNotLeaked(w: World, e: Event)
    requires Inv(w) && Enabled(w, e) && w.desk.slot.generation + 1 < TWO_TO_64
    ensures Clean(w, e) <==> !exists token :: Leaked(Step(w, e), token)
  {
    var w' := Step(w, e);
    if Clean(w, e) {
      StepKeepsInv(w, e);
      forall token ensures !Leaked(w', token) {
        if Leaked(w', token) {
          OwnerIsCurrent(w', token);
        }
      }
    } else if e.Answer? {
      LostInSnapshot(w, e.id);
    } else {
      LostWithWindow(w, e.id, e.outcome, e.shuttingDown);
    }
  }

  lemma LostInSnapshot(w: World, id: nat)
    requires Inv(w) && id in w.dialogs && w.dialogs[id].mustStop
    requires w.desk.slot.IsCurrent(w.desk.pending.taskToken)
    ensures Leaked(AnswerStep(w, id, true), w.desk.pending.taskToken)
  {
    StopParks(w, id);
    assert Fine(w, w.desk.pending.taskToken.generation);
    hide Fine, AnswerStep;
    ParkedLosesTheOther(w, AnswerStep(w, id, true), id);
  }

  lemma ParkedLosesTheOther(w: World, w': World, id: nat)
    requires Sane(w) && Parked(w, w', id)
    requires w.desk.slot.IsCurrent(w.desk.pending.taskToken) && w.desk.pending.taskToken.generation in w.ledger
    requires Fine(w, w.desk.pending.taskToken.generation)
    ensures Leaked(w', w.desk.pending.taskToken)
  {
    var token := w.desk.pending.taskToken;
    ParkedMovesOneHolder(w, w', id, token.generation);
    assert Holds(w, InPending, token.generation) && Sole(w, InPending, token.generation);
    assert !Holds(w, InDialog(id), token.generation);
    assert w.dialogs[id].token.generation != token.generation;
    assert Owned(w', token) && w'.desk.slot.IsCurrent(token);
    hide Sane, Closed, Expected, Holds, Parked, Fine;
    assert forall h :: !Holds(w', h, token.generation);
  }

  lemma LostWithWindow(w: World, id: nat, outcome: Outcome, shuttingDown: bool)
    requires Inv(w) && id in w.workers && w.desk.slot.IsCurrent(w.workers[id].token)
    ensures Leaked(WorkerDoneStep(w, id, outcome, shuttingDown, false), w.workers[id].token)
  {
    var w' := WorkerDoneStep(w, id, outcome, shuttingDown, false);
    var token := w.workers[id].token;
    assert w' == w.(workers := w.workers - {id});
    assert Holds(w, InWorker(id), token.generation) && Owned(w, token) && Fine(w, token.generation);
    assert forall h :: Holds(w', h, token.generation) ==> Holds(w, h, token.generation) && h != InWorker(id);
    hide Inv, Sane, Closed, Expected, Holds, WorkerDoneStep;
    forall h ensures !Holds(w', h, token.generation) {
    }
  }

  lemma LeakSurvivesAnswer(w: World, id: nat, confirmed: bool, token: Token)
    requires Leaked(w, token) && id in w.dialogs
    ensures Leaked(AnswerStep(w, id, confirmed), token)
  {
    var w' := AnswerStep(w, id, confirmed);
    assert !Holds(w, InDialog(id), token.generation) && !Holds(w, InPending, token.generation);
    forall h ensures !Holds(w', h, token.generation) {
      assert !Holds(w, h, token.generation);
    }
  }

  lemma LeakSurvivesCoreStopped(w: World, uiPresent: bool, token: Token)
    requires Leaked(w, token)
    ensures Leaked(CoreStoppedStep(w, uiPresent), token)
  {
    assert !Holds(w, InPending, token.generation);
    forall h ensures !Holds(CoreStoppedStep(w, uiPresent), h, token.generation) {
      assert !Holds(w, h, token.generation);
    }
  }

  lemma LeakSurvivesWorker(w: World, id: nat, outcome: Outcome, shuttingDown: bool, uiPresent: bool, token: Token)
    requires Leaked(w, token) && id in w.workers
    ensures Leaked(WorkerDoneStep(w, id, outcome, shuttingDown, uiPresent), token)
  {
    assert !Holds(w, InWorker(id), token.generation);
    forall h ensures !Holds(WorkerDoneStep(w, id, outcome, shuttingDown, uiPresent), h, token.generation) {
      assert !Holds(w, h, token.generation);
    }
  }

  lemma LeakSurvivesOthers(w: World, event: BackgroundTasks.Event, token: Token)
    requires Leaked(w, token) && Enabled(w, Others(event)) && !event.CancelActive?
    ensures Leaked(OthersStep(w, event), token)
  {
    forall h ensures !Holds(OthersStep(w, event), h, token.generation) {
      assert !Holds(w, h, token.generation);
    }
  }

  lemma LeakPersistsOneStep(w: World, e: Event, token: Token)
    requires Leaked(w, token) && Enabled(w, e) && e != Others(BackgroundTasks.Event.CancelActive)
    ensures Leaked(Step(w, e), token)
  {
    match e
    case Open(order, mustStop, uiPresent, blocked) => assert Step(w, e) == w;
    case Answer(id, confirmed) => LeakSurvivesAnswer(w, id, confirmed, token);
    case CoreStopped(uiPresent) => LeakSurvivesCoreStopped(w, uiPresent, token);
    case WorkerDone(id, outcome, shuttingDown, uiPresent) =>
      LeakSurvivesWorker(w, id, outcome, shuttingDown, uiPresent, token);
    case Others(event) => LeakSurvivesOthers(w, event, token);
  }

  ghost predicate EnabledRun(w: World, es: seq<Event>)
    decreases |es|
  {
    es == [] || (Enabled(w, es[0]) && EnabledRun(Step(w, es[0]), es[1..]))
  }

  ghost function Run(w: World, es: seq<Event>): World
    requires EnabledRun(w, es)
    decreases |es|
  {
    if es == [] then w else Run(Step(w, es[0]), es[1..])
  }

  /** A leaked slot stays taken through every run in which nobody cancels the active task. */
  lemma {:induction false} LeakPersists(w: World, es: seq<Event>, token: Token)
    requires Leaked(w, token) && EnabledRun(w, es) && Others(BackgroundTasks.Event.CancelActive) !in es
    ensures Leaked(Run(w, es), token)
    decreases |es|
  {
    if es != [] {
      assert es[0] in es;
      LeakPersistsOneStep(w, es[0], token);
      LeakPersists(Step(w, es[0]), es[1..], token);
    }
  }

  /** How a leak comes about: an update waits in its dialog, its task is cancelled, a second update
      parks its token while the core stops, and then the first dialog is confirmed. */
  lemma LateConfirmationLeaks(order: Order)
    ensures var es := [Open(order, true, true, false), Others(BackgroundTasks.Event.CancelActive),
                       Open(order, true, true, false), Answer(1, true), Answer(0, true)];
            EnabledRun(START, es) && Leaked(Run(START, es), Token(Kind.CoreUpdate, 3))
  {
    hide Step, Enabled, Leaked, TwoOpen, Run, EnabledRun;
    var start := START;
    var w1, w2, w3 := TwoDialogsOpen(start, order);
    var w4, w5 := BothConfirmed(w3, order);
    RunOfFive(start, [Open(order, true, true, false), Others(BackgroundTasks.Event.CancelActive),
                      Open(order, true, true, false), Answer(1, true), Answer(0, true)], w1, w2, w3, w4, w5);
  }

  lemma TwoDialogsOpen(start: World, order: Order) returns (w1: World, w2: World, w3: World)
    requires start == START
    ensures Enabled(start, Open(order, true, true, false)) && w1 == Step(start, Open(order, true, true, false))
    ensures Enabled(w1, Others(BackgroundTasks.Event.CancelActive))
    ensures w2 == Step(w1, Others(BackgroundTasks.Event.CancelActive))
    ensures Enabled(w2, Open(order, true, true, false))
    ensures w3 == Step(w2, Open(order, true, true, false)) && TwoOpen(w3, order)
  {
    w1 := Step(start, Open(order, true, true, false));
    w2 := Step(w1, Others(BackgroundTasks.Event.CancelActive));
    w3 := Step(w2, Open(order, true, true, false));
  }

  /** Two dialogs wait; the first one's token has lost the slot to the second one's. */
  ghost predicate TwoOpen(w: World, order: Order) {
    && w.dialogs == map[0 := Dialog(Token(Kind.CoreUpdate, 1), order, true),
                        1 := Dialog(Token(Kind.CoreUpdate, 3), order, true)]
    && w.workers == map[] && w.desk.pending == NOTHING_PENDING && 1 in w.ledger && 3 in w.ledger
    && w.desk.slot.IsCurrent(Token(Kind.CoreUpdate, 3)) && !w.desk.slot.IsCurrent(Token(Kind.CoreUpdate, 1))
  }

  lemma BothConfirmed(w3: World, order: Order) returns (w4: World, w5: World)
    requires TwoOpen(w3, order)
    ensures Enabled(w3, Answer(1, true)) && w4 == Step(w3, Answer(1, true))
    ensures Enabled(w4, Answer(0, true)) && w5 == Step(w4, Answer(0, true))
    ensures Leaked(w5, Token(Kind.CoreUpdate, 3))
  {
    w4 := AnswerStep(w3, 1, true);
    w5 := AnswerStep(w4, 0, true);
    assert w5.dialogs == map[] && w5.workers == map[] && w5.desk.slot == w3.desk.slot;
    assert w5.desk.pending.taskToken == Token(Kind.CoreUpdate, 1) && 3 in w5.ledger;
    assert forall h :: !Holds(w5, h, 3);
  }

  lemma RunOfFive(w: World, es: seq<Event>, w1: World, w2: World, w3: World, w4: World, w5: World)
    requires |es| == 5 && Enabled(w, es[0]) && w1 == Step(w, es[0]) && Enabled(w1, es[1]) && w2 == Step(w1, es[1])
    requires Enabled(w2, es[2]) && w3 == Step(w2, es[2]) && Enabled(w3, es[3]) && w4 == Step(w3, es[3])
    requires Enabled(w4, es[4]) && w5 == Step(w4, es[4])
    ensures EnabledRun(w, es) && Run(w, es) == w5
  {
    var t1, t2, t3, t4, t5 := es[1..], es[2..], es[3..], es[4..], es[5..];
    assert t1[1..] == t2 && t2[1..] == t3 && t3[1..] == t4 && t4[1..] == t5 == [];
    assert EnabledRun(w5, t5) && Run(w5, t5) == w5;
    assert EnabledRun(w4, t4) && Run(w4, t4) == w5;
    assert EnabledRun(w3, t3) && Run(w3, t3) == w5;
    assert EnabledRun(w2, t2) && Run(w2, t2) == w5;
    assert EnabledRun(w1, t1) && Run(w1, t1) == w5;
  }

  /** An update whose dialog is answered before anything else happens (or that skips confirmation)
      never takes an unclean step. */
  lemma PromptAnswerIsClean(w: World, order: Order, mustStop: bool, blocked: bool, confirmed: bool)
    requires Inv(w) && w.desk.slot.generation + 1 < TWO_TO_64
    requires w.nextId in OpenStep(w, order, mustStop, true, blocked).dialogs
    ensures var w' := OpenStep(w, order, mustStop, true, blocked);
            Clean(w', Answer(w.nextId, confirmed)) && Inv(AnswerStep(w', w.nextId, confirmed))
  {
    var w' := OpenStep(w, order, mustStop, true, blocked);
    OpenOpens(w, order, mustStop, true, blocked);
    assert w.nextId !in w.dialogs;
    OpenedKeepsInv(w, w', w'.dialogs[w.nextId]);
    AnswerKeepsInv(w', w.nextId, confirmed);
  }

  // ----- Whole runs -----------------------------------------------------------------------------

  ghost predicate CleanRun(w: World, es: seq<Event>)
    decreases |es|
  {
    es == [] || (Enabled(w, es[0]) && Clean(w, es[0]) && CleanRun(Step(w, es[0]), es[1..]))
  }

  lemma {:induction false} CleanRunKeepsInv(w: World, es: seq<Event>)
    requires Inv(w) && CleanRun(w, es) && w.desk.slot.generation + |es| < TWO_TO_64
    ensures EnabledRun(w, es) && Inv(Run(w, es))
    decreases |es|
  {
    if es != [] {
      StepKeepsInv(w, es[0]);
      GenerationAdvances(w, es[0]);
      CleanRunKeepsInv(Step(w, es[0]), es[1..]);
    }
  }

  lemma GenerationAdvances(w: World, e: Event)
    requires Sane(w) && Enabled(w, e) && w.desk.slot.generation + 1 < TWO_TO_64
    ensures Step(w, e).desk.slot.generation <= w.desk.slot.generation + 1
  {
  }

  /** In no state from here on is the slot taken for a token that nothing will present again. */
  ghost predicate NeverLeaks(w: World, es: seq<Event>)
    requires EnabledRun(w, es)
    decreases |es|
  {
    (forall token :: !Leaked(w, token)) && (es != [] ==> NeverLeaks(Step(w, es[0]), es[1..]))
  }

  lemma {:induction false} CleanRunNeverLeaks(w: World, es: seq<Event>)
    requires Inv(w) && EnabledRun(w, es) && w.desk.slot.generation + |es| < TWO_TO_64
    ensures CleanRun(w, es) <==> NeverLeaks(w, es)
    decreases |es|
  {
    hide Inv, Enabled, Step, Clean, Leaked;
    NothingLeaked(w);
    if es != [] {
      CleanIffNotLeaked(w, es[0]);
      if Clean(w, es[0]) {
        StepKeepsInv(w, es[0]);
        InvIsSane(w);
        GenerationAdvances(w, es[0]);
        CleanRunNeverLeaks(Step(w, es[0]), es[1..]);
      }
    }
  }

  lemma NothingLeaked(w: World)
    requires Inv(w)
    ensures forall token :: !Leaked(w, token)
  {
    forall token ensures !Leaked(w, token) {
      if Leaked(w, token) {
        OwnerIsCurrent(w, token);
      }
    }
  }

  lemma InvIsSane(w: World)
    requires Inv(w)
    ensures Sane(w)
  {
  }

  /** The protocol, from its start and short of the generation wrap, never leaks its slot if and only
      if all of its steps are clean. */
  lemma LeaksExactlyWhenUnclean(es: seq<Event>)
    requires EnabledRun(START, es) && |es| < TWO_TO_64
    ensures NeverLeaks(START, es) <==> CleanRun(START, es)
  {
    StartIsSane();
    hide NeverLeaks, CleanRun, EnabledRun;
    CleanRunNeverLeaks(START, es);
  }

  /** What is known about the token of generation `g`: while it is current exactly one holder
      (dialog, snapshot or outstanding worker) has it; it has stopped a core, started a worker and
      passed the finalize gate at most once each; once its update ends outside shutdown, a stopped core
      is restored after a failure, started after a success that calls for it, and its proxy state is
      cleared otherwise, one of the three; and until then the token of a stopped core is parked or with
      a worker that will do so. */
  ghost predicate Safe(w: World, g: Generation)
    requires g in w.ledger
  {
    var l := w.ledger[g];
    && (OwnsSlot(w, g) ==> exists h :: Holds(w, h, g) && forall h' :: Holds(w, h', g) ==> h' == h)
    && l.stops <= 1 && l.launches <= 1 && l.ends.finals <= 1
    && (l.stops == 1 && l.ends.finals == 1 && l.ends.quiet == 0 ==>
          if l.ends.failures == 1 then l.ends.restores == 1 && l.ends.starts == l.ends.clears == 0
          else if l.ends.renewals == 1 then l.ends.starts == 1 && l.ends.restores == l.ends.clears == 0
          else l.ends.clears == 1 && l.ends.starts == l.ends.restores == 0)
    && (l.stops == 0 ==> l.ends.restores == l.ends.clears == 0)
    && (l.stops == 1 && OwnsSlot(w, g) ==>
          l.ends.finals == 0 && (Holds(w, InPending, g) || HeldByStoppingWorker(w, g)))
  }

  ghost predicate HeldByStoppingWorker(w: World, g: Generation) {
    exists id :: Holds(w, InWorker(id), g) && w.workers[id].stoppedForInstall
  }

  lemma InvMeansSafe(w: World, g: Generation)
    requires Inv(w) && g in w.ledger
    ensures Safe(w, g)
  {
    assert Fine(w, g);
    if OwnsSlot(w, g) {
      var h :| Holds(w, h, g);
      assert w.ledger[g] == Expected(w, h);
    }
  }

  /** Core update never leaks or doubles its slot, in any clean run from the start. */
  lemma CoreUpdateIsSafe(es: seq<Event>)
    requires CleanRun(START, es) && |es| < TWO_TO_64
    ensures EnabledRun(START, es)
    ensures forall g :: g in Run(START, es).ledger ==> Safe(Run(START, es), g)
  {
    StartIsSane();
    CleanRunKeepsInv(START, es);
    forall g | g in Run(START, es).ledger ensures Safe(Run(START, es), g) {
      InvMeansSafe(Run(START, es), g);
    }
  }

  /** A run in which every dialog is answered before anything else happens and every worker's answer
      finds its window. */
  ghost predicate PromptRun(w: World, es: seq<Event>)
    decreases |es|
  {
    es == [] || match es[0]
      case Open(order, mustStop, uiPresent, blocked) =>
        var asked := Step(w, es[0]);
        if w.nextId in asked.dialogs then
          |es| > 1 && es[1].Answer? && es[1].id == w.nextId && PromptRun(Step(asked, es[1]), es[2..])
        else PromptRun(asked, es[1..])
      case Answer(_, _) => false
      case WorkerDone(_, _, _, uiPresent) => uiPresent && Enabled(w, es[0]) && PromptRun(Step(w, es[0]), es[1..])
      case _ => Enabled(w, es[0]) && PromptRun(Step(w, es[0]), es[1..])
  }

  /** An opened dialog and its answer leave no dialog open. */
  lemma AnsweredAtOnce(w: World, order: Order, mustStop: bool, uiPresent: bool, blocked: bool, confirmed: bool)
    requires Sane(w) && w.dialogs == map[] && w.desk.slot.generation + 1 < TWO_TO_64
    ensures var asked := OpenStep(w, order, mustStop, uiPresent, blocked);
      && (w.nextId in asked.dialogs ==> AnswerStep(asked, w.nextId, confirmed).dialogs == map[] && uiPresent)
      && (w.nextId !in asked.dialogs ==> asked.dialogs == map[])
  {
    var asked := OpenStep(w, order, mustStop, uiPresent, blocked);
    OpenOpens(w, order, mustStop, uiPresent, blocked);
    assert w.nextId in asked.dialogs ==> asked.dialogs.Keys == {w.nextId} && uiPresent;
    hide Sane, OpenStep, AnswerStep, Opened;
    if w.nextId in asked.dialogs {
      AnswerDropsDialog(asked, w.nextId, confirmed);
      assert asked.dialogs - {w.nextId} == map[];
    }
  }

  lemma AnswerDropsDialog(w: World, id: nat, confirmed: bool)
    requires id in w.dialogs
    ensures AnswerStep(w, id, confirmed).dialogs == w.dialogs - {id}
  {
  }

  lemma OthersOpenNothing(w: World, e: Event)
    requires Enabled(w, e) && w.dialogs == map[] && !e.Open?
    ensures Step(w, e).dialogs == map[]
  {
  }

  /** Such runs are clean, whatever else happens in them: other tasks, cancels, late workers. */
  lemma {:induction false} PromptRunsAreClean(w: World, es: seq<Event>)
    requires Inv(w) && w.dialogs == map[] && PromptRun(w, es) && w.desk.slot.generation + |es| < TWO_TO_64
    ensures CleanRun(w, es)
    decreases |es|
  {
    hide Inv, Enabled, Step, Clean;
    if es != [] {
      PromptStepIsClean(w, es);
      var next := Step(w, es[0]);
      if es[0].Open? && w.nextId in next.dialogs {
        assert es[1..][0] == es[1] && es[1..][1..] == es[2..];
        PromptRunsAreClean(Step(next, es[1]), es[2..]);
      } else {
        PromptRunsAreClean(next, es[1..]);
      }
    }
  }

  /** The first event of a prompt run, with its answer if it opens a dialog. */
  lemma PromptStepIsClean(w: World, es: seq<Event>)
    requires es != [] && Inv(w) && w.dialogs == map[] && PromptRun(w, es)
    requires w.desk.slot.generation + |es| < TWO_TO_64
    ensures Enabled(w, es[0]) && Clean(w, es[0])
    ensures var next := Step(w, es[0]);
      if es[0].Open? && w.nextId in next.dialogs then
        && Enabled(next, es[1]) && Clean(next, es[1]) && Inv(Step(next, es[1])) && Step(next, es[1]).dialogs == map[]
        && Step(next, es[1]).desk.slot.generation <= w.desk.slot.generation + 2
      else Inv(next) && next.dialogs == map[] && next.desk.slot.generation <= w.desk.slot.generation + 1
  {
    hide PromptRun, CleanRun;
    if es[0].Open? {
      PromptOpenIsClean(w, es);
    } else {
      assert Enabled(w, es[0]) && Clean(w, es[0]) by {
        PromptHead(w, es);
      }
      hide Clean, Sane, Fine;
      StepKeepsInv(w, es[0]);
      OthersOpenNothing(w, es[0]);
      GenerationAdvances(w, es[0]);
    }
  }

  lemma PromptHead(w: World, es: seq<Event>)
    requires es != [] && PromptRun(w, es)
    ensures !es[0].Open? ==> Enabled(w, es[0]) && Clean(w, es[0])
    ensures es[0].Open? && w.nextId in Step(w, es[0]).dialogs ==>
              |es| > 1 && es[1].Answer? && es[1].id == w.nextId
  {
    hide OpenStep, AnswerStep, CoreStoppedStep, WorkerDoneStep, OthersStep;
  }

  lemma PromptOpenIsClean(w: World, es: seq<Event>)
    requires es != [] && es[0].Open? && Inv(w) && w.dialogs == map[] && PromptRun(w, es)
    requires w.desk.slot.generation + |es| < TWO_TO_64
    ensures var next := Step(w, es[0]);
      if w.nextId in next.dialogs then
        && |es| > 1 && Enabled(next, es[1]) && Clean(next, es[1]) && Inv(Step(next, es[1]))
        && Step(next, es[1]).dialogs == map[]
        && Step(next, es[1]).desk.slot.generation <= w.desk.slot.generation + 2
      else Inv(next) && next.dialogs == map[] && next.desk.slot.generation <= w.desk.slot.generation + 1
  {
    PromptHead(w, es);
    hide PromptRun, Fine;
    var Open(order, mustStop, uiPresent, blocked) := es[0];
    var next := OpenStep(w, order, mustStop, uiPresent, blocked);
    GenerationAdvances(w, es[0]);
    StepKeepsInv(w, es[0]);
    if w.nextId in next.dialogs {
      var confirmed := es[1].confirmed;
      AnsweredAtOnce(w, order, mustStop, uiPresent, blocked, confirmed);
      PromptAnswerIsClean(w, order, mustStop, blocked, confirmed);
      GenerationAdvances(next, es[1]);
    } else {
      AnsweredAtOnce(w, order, mustStop, uiPresent, blocked, true);
    }
  }

  /** So core update never leaks or doubles its slot in any prompt run from the start. */
  lemma PromptUpdatesAreSafe(es: seq<Event>)
    requires PromptRun(START, es) && |es| < TWO_TO_64
    ensures EnabledRun(START, es)
    ensures forall g :: g in Run(START, es).ledger ==> Safe(Run(START, es), g)
  {
    StartIsSane();
    hide Inv, PromptRun, CleanRun, EnabledRun, Run, Safe;
    PromptRunsAreClean(START, es);
    CoreUpdateIsSafe(es);
  }

  lemma StartIsSane()
    ensures Inv(START)
  {
  }
}
