/** The single background-task slot: at most one long-running task at a time, guarded by tokens
    that carry a task kind and a generation.  Workers finish late, in any order, and anyone may
    cancel, so every operation has to cope with tokens that stopped being current long ago. */
module BackgroundTasks {

  datatype Kind = NoTask | SpeedTest | SubscriptionUpdate | AppUpdate | CoreUpdate | GeoUpdate

  datatype StartScope = UserTask | StartupTask

  const TWO_TO_64 := 0x1_0000_0000_0000_0000

  /** The counter is an unsigned 64-bit integer and wraps. */
  type Generation = n: nat | n < TWO_TO_64

  function Bump(g: Generation): Generation {
    if g == TWO_TO_64 - 1 then 0 else g + 1
  }

  datatype Token = Token(kind: Kind, generation: Generation) {
    predicate IsValid() {
      kind != NoTask && generation != 0
    }
  }

  const NO_TOKEN := Token(NoTask, 0)

  datatype Signal =
    | BlockedByCoreStartup
    | BusyWithAnotherTask(active: Kind)
    | RunningChanged(running: bool)

  /** The coordinator's state as a value, with the effect of each operation on it. */
  datatype Slot = Slot(activeKind: Kind, generation: Generation, activeGeneration: Generation) {

    predicate IsCurrent(token: Token) {
      token.IsValid() && activeKind == token.kind && activeGeneration == token.generation
    }

    predicate Refuses(kind: Kind, scope: StartScope, blocked: bool) {
      kind == NoTask || (scope == UserTask && blocked) || activeKind != NoTask
    }

    function Begin(kind: Kind, scope: StartScope, blocked: bool): (Slot, Token) {
      if Refuses(kind, scope, blocked) then (this, NO_TOKEN)
      else (Slot(kind, Bump(generation), Bump(generation)), Token(kind, Bump(generation)))
    }

    function Finish(token: Token): Slot {
      if IsCurrent(token) then Slot(NoTask, generation, 0) else this
    }

    function CancelActive(): Slot {
      if activeKind == NoTask then this else Slot(NoTask, Bump(generation), 0)
    }

    /** What every operation keeps as long as the counter has not wrapped. */
    ghost predicate Consistent() {
      && (activeKind == NoTask <==> activeGeneration == 0)
      && activeGeneration <= generation
    }

    /** Nothing has been issued under generation `g` yet. */
    ghost predicate Unissued(g: Generation) {
      g > generation
    }
  }

  const IDLE := Slot(NoTask, 0, 0)

  class BackgroundTaskCoordinator {
    var activeKind: Kind
    var generation: Generation
    var activeGeneration: Generation

    function State(): Slot
      reads this
    {
      Slot(activeKind, generation, activeGeneration)
    }

    constructor ()
      ensures State() == IDLE
    {
      activeKind, generation, activeGeneration := NoTask, 0, 0;
    }

    /** `blocked` is the answer of the installed blocking predicate (false when none is installed).
        A refused start leaves the slot alone and says why; an accepted one announces itself. */
    method TryBegin(kind: Kind, scope: StartScope, blocked: bool) returns (token: Token, signals: seq<Signal>)
      modifies this
      ensures (State(), token) == old(State()).Begin(kind, scope, blocked)
      ensures kind != NoTask && old(activeKind) == NoTask && !(scope == UserTask && blocked) ==>
                && activeKind == kind && activeGeneration == generation == (old(generation) + 1) % TWO_TO_64
                && token == Token(kind, generation)
      ensures kind == NoTask || old(activeKind) != NoTask || (scope == UserTask && blocked) ==>
                State() == old(State()) && token == Token(NoTask, 0)
      ensures BlockedByCoreStartup in signals <==> kind != NoTask && scope == UserTask && blocked
      ensures forall k :: BusyWithAnotherTask(k) in signals <==>
                k == old(activeKind) != NoTask && kind != NoTask && !(scope == UserTask && blocked)
      ensures RunningChanged(true) in signals <==> old(State()) != State()
    {
      if kind == NoTask {
        return NO_TOKEN, [];
      }
      if scope == UserTask && blocked {
        return NO_TOKEN, [BlockedByCoreStartup];
      }
      if activeKind != NoTask {
        return NO_TOKEN, [BusyWithAnotherTask(activeKind)];
      }
      activeKind := kind;
      generation := Bump(generation);
      activeGeneration := generation;
      return Token(kind, activeGeneration), [RunningChanged(true)];
    }

    method Finish(token: Token) returns (finished: bool, signals: seq<Signal>)
      modifies this
      ensures finished == old(State()).IsCurrent(token)
      ensures finished <==> token.kind == old(activeKind) != NoTask && token.generation == old(activeGeneration) != 0
      ensures generation == old(generation) && (finished ==> activeKind == NoTask && activeGeneration == 0)
      ensures State() == old(State()).Finish(token)
      ensures signals == if finished then [RunningChanged(false)] else []
    {
      if !State().IsCurrent(token) {
        return false, [];
      }
      activeKind := NoTask;
      activeGeneration := 0;
      return true, [RunningChanged(false)];
    }

    method CancelActive() returns (signals: seq<Signal>)
      modifies this
      ensures State() == old(State()).CancelActive()
      ensures old(activeKind) != NoTask ==>
                activeKind == NoTask && activeGeneration == 0 && generation == (old(generation) + 1) % TWO_TO_64
      ensures signals == if old(activeKind) == NoTask then [] else [RunningChanged(false)]
    {
      if activeKind == NoTask {
        return [];
      }
      activeKind := NoTask;
      activeGeneration := 0;
      generation := Bump(generation);
      return [RunningChanged(false)];
    }
  }

  // ----- Runs -----------------------------------------------------------------------------------

  /** One call by anybody.  `Finish` may carry any token at all: current, stale, or never issued. */
  datatype Event =
    | Begin(kind: Kind, scope: StartScope, blocked: bool)
    | Finish(token: Token)
    | CancelActive

  function Step(s: Slot, e: Event): Slot {
    match e
    case Begin(kind, scope, blocked) => s.Begin(kind, scope, blocked).0
    case Finish(token) => s.Finish(token)
    case CancelActive => s.CancelActive()
  }

  function Run(s: Slot, es: seq<Event>): Slot
    decreases |es|
  {
    if es == [] then s else Run(Step(s, es[0]), es[1..])
  }

  /** The valid tokens handed out along a run, oldest first. */
  function Issued(s: Slot, es: seq<Event>): seq<Token>
    decreases |es|
  {
    if es == [] then [] else
      (if es[0].Begin? && s.Begin(es[0].kind, es[0].scope, es[0].blocked).1.IsValid()
       then [s.Begin(es[0].kind, es[0].scope, es[0].blocked).1] else [])
      + Issued(Step(s, es[0]), es[1..])
  }

  /** How many `finish(token)` calls of the run returned true. */
  function SuccessfulFinishes(s: Slot, es: seq<Event>, token: Token): nat
    decreases |es|
  {
    if es == [] then 0 else
      (if es[0] == Finish(token) && s.IsCurrent(token) then 1 else 0)
      + SuccessfulFinishes(Step(s, es[0]), es[1..], token)
  }

  /** The run is too short to exhaust the 64-bit counter. */
  ghost predicate NoWrap(s: Slot, es: seq<Event>) {
    s.generation + |es| < TWO_TO_64
  }

  lemma StepKeepsConsistent(s: Slot, e: Event)
    requires s.Consistent() && s.generation + 1 < TWO_TO_64
    ensures Step(s, e).Consistent()
    ensures s.generation <= Step(s, e).generation <= s.generation + 1
  {
  }

  lemma {:induction false} RunKeepsConsistent(s: Slot, es: seq<Event>)
    requires s.Consistent() && NoWrap(s, es)
    ensures Run(s, es).Consistent()
    ensures s.generation <= Run(s, es).generation <= s.generation + |es|
    decreases |es|
  {
    if es != [] {
      StepKeepsConsistent(s, es[0]);
      RunKeepsConsistent(Step(s, es[0]), es[1..]);
    }
  }

  /** A start is accepted if and only if the task is a real one, the slot is idle, and no user task is
      asked for while core startup blocks them; a refused one changes nothing and yields no token. */
  lemma AcceptsExactlyWhen(s: Slot, kind: Kind, scope: StartScope, blocked: bool)
    ensures var (after, token) := s.Begin(kind, scope, blocked);
      if kind != NoTask && s.activeKind == NoTask && !(scope == UserTask && blocked) then
        && after.activeKind == kind && after.generation == after.activeGeneration != s.generation
        && after.generation == (s.generation + 1) % TWO_TO_64 && token == Token(kind, after.generation)
      else after == s && token == Token(NoTask, 0)
  {
  }

  /** A user task asked for while core startup blocks it leaves no trace, wherever it comes in a run:
      every later state and every token ever issued are those of the run without it. */
  lemma {:induction false} BlockedStartLeavesNoTrace(s: Slot, es: seq<Event>, fs: seq<Event>, kind: Kind)
    ensures var blocked := [Event.Begin(kind, UserTask, true)];
      && Run(s, es + blocked + fs) == Run(s, es + fs)
      && Issued(s, es + blocked + fs) == Issued(s, es + fs)
    decreases |es|
  {
    var blocked := [Event.Begin(kind, UserTask, true)];
    if es == [] {
      AcceptsExactlyWhen(s, kind, UserTask, true);
      assert es + fs == fs;
      assert (es + blocked + fs)[0] == blocked[0] && (es + blocked + fs)[1..] == fs;
    } else {
      assert (es + blocked + fs)[0] == es[0] == (es + fs)[0];
      assert (es + blocked + fs)[1..] == es[1..] + blocked + fs && (es + fs)[1..] == es[1..] + fs;
      BlockedStartLeavesNoTrace(Step(s, es[0]), es[1..], fs, kind);
    }
  }

  /** Two tokens that are current at the same time are the same token. */
  lemma AtMostOneCurrent(s: Slot, a: Token, b: Token)
    requires s.IsCurrent(a) && s.IsCurrent(b)
    ensures a == b
  {
  }

  /** Issued generations strictly increase and are all newer than anything known at the start. */
  lemma {:induction false} IssuedGenerationsIncrease(s: Slot, es: seq<Event>)
    requires s.Consistent() && NoWrap(s, es)
    ensures forall i :: 0 <= i < |Issued(s, es)| ==>
              s.generation < Issued(s, es)[i].generation <= Run(s, es).generation
    ensures forall i, j :: 0 <= i < j < |Issued(s, es)| ==>
              Issued(s, es)[i].generation < Issued(s, es)[j].generation
    decreases |es|
  {
    if es != [] {
      var s' := Step(s, es[0]);
      StepKeepsConsistent(s, es[0]);
      IssuedGenerationsIncrease(s', es[1..]);
      RunKeepsConsistent(s', es[1..]);
    }
  }

  /** A token that is not current and not newer than the counter never becomes current. */
  lemma {:induction false} StaleStaysStale(s: Slot, es: seq<Event>, token: Token)
    requires s.Consistent() && NoWrap(s, es)
    requires !s.IsCurrent(token) && !s.Unissued(token.generation)
    ensures !Run(s, es).IsCurrent(token)
    ensures SuccessfulFinishes(s, es, token) == 0
    decreases |es|
  {
    if es != [] {
      StepKeepsConsistent(s, es[0]);
      StaleStaysStale(Step(s, es[0]), es[1..], token);
    }
  }

  lemma {:induction false} RunConcat(s: Slot, es: seq<Event>, fs: seq<Event>)
    ensures Run(s, es + fs) == Run(Run(s, es), fs)
    decreases |es|
  {
    if es == [] {
      assert es + fs == fs;
    } else {
      assert (es + fs)[0] == es[0] && (es + fs)[1..] == es[1..] + fs;
      RunConcat(Step(s, es[0]), es[1..], fs);
    }
  }

  /** Once a token stopped being current it is never current again, whatever happens afterwards. */
  lemma NeverCurrentAgain(s: Slot, es: seq<Event>, fs: seq<Event>, token: Token)
    requires s.Consistent() && NoWrap(s, es + fs)
    requires s.IsCurrent(token) && !Run(s, es).IsCurrent(token)
    ensures !Run(s, es + fs).IsCurrent(token)
  {
    RunKeepsConsistent(s, es);
    StaleStaysStale(Run(s, es), fs, token);
    RunConcat(s, es, fs);
  }

  /** `finish` returns true at most once per token over a whole run, however many late workers
      try, and whether or not the token had been issued when the run began. */
  lemma {:induction false} FinishSucceedsAtMostOnce(s: Slot, es: seq<Event>, token: Token)
    requires s.Consistent() && NoWrap(s, es)
    ensures SuccessfulFinishes(s, es, token) <= 1
    decreases |es|
  {
    if es != [] {
      StepKeepsConsistent(s, es[0]);
      if es[0] == Finish(token) && s.IsCurrent(token) {
        StaleStaysStale(Step(s, es[0]), es[1..], token);
      } else {
        FinishSucceedsAtMostOnce(Step(s, es[0]), es[1..], token);
      }
    }
  }

  /** A running task keeps its slot through everything except its own finish and a cancel: no
      stale, forged or foreign finish and no competing start can take it away. */
  lemma {:induction false} OnlyOwnerOrCancelFrees(s: Slot, es: seq<Event>, token: Token)
    requires s.IsCurrent(token)
    requires Finish(token) !in es && CancelActive !in es
    ensures Run(s, es).IsCurrent(token)
    decreases |es|
  {
    if es != [] {
      assert es[0] in es;
      OnlyOwnerOrCancelFrees(Step(s, es[0]), es[1..], token);
    }
  }

  /** Where the 64-bit width matters: an accepted start yields a usable token exactly when the
      counter is not at its maximum.  At the maximum the slot is taken under generation 0, which
      no token can name, so nothing but a cancel ever frees it. */
  lemma WrapTakesSlotWithoutToken(s: Slot, kind: Kind, scope: StartScope, blocked: bool)
    requires kind != NoTask && s.activeKind == NoTask && !(scope == UserTask && blocked)
    ensures s.Begin(kind, scope, blocked).1.IsValid() <==> s.generation != TWO_TO_64 - 1
  {
  }

  lemma {:induction false} UnnamedTaskIsNeverFinished(s: Slot, es: seq<Event>)
    requires s.activeKind != NoTask && s.activeGeneration == 0 && CancelActive !in es
    ensures Run(s, es) == s
    decreases |es|
  {
    if es != [] {
      assert es[0] in es;
      UnnamedTaskIsNeverFinished(Step(s, es[0]), es[1..]);
    }
  }
}
