/** One outbound liveness probe: a pool of hosts walked two at a time.  Replies report status and
    completion in any order, and one timer bounds the whole walk.  The event loop is told to quit at
    the first reachable status, when every host of the pool has finished, or at the timeout; the
    handlers stay connected until it returns, so events may still follow. */
module LivenessProbe {

  const MAX_CONCURRENT := 2

  datatype Shape = UnknownShape | Unreachable | CertificateMismatch | TunnelBroken

  function FailureShapeRank(shape: Shape): nat {
    match shape
    case CertificateMismatch => 3
    case TunnelBroken => 2
    case Unreachable => 1
    case UnknownShape => 0
  }

  predicate IsReachableStatusCode(status: int) {
    status == 200 || status == 204
  }

  datatype FailureText = HttpStatus(status: int) | NetworkError(text: string) | NoResponse | TimedOutText

  /** A failure as it is reported: the host it belongs to and what went wrong. */
  datatype Reason = Reason(host: nat, text: FailureText)

  /** What the network layer knows about the request to `host`.  `finished` is set by the network,
      `handled` once the completion handler has run; the two need not happen together. */
  datatype Reply = Reply(host: nat, status: int, error: string, finished: bool, handled: bool)

  function Asked(host: nat): Reply {
    Reply(host, 0, "", false, false)
  }

  function ReplyFailureReason(reply: Reply): FailureText {
    if reply.status > 0 then HttpStatus(reply.status)
    else if reply.error != "" then NetworkError(reply.error)
    else NoResponse
  }

  /** The walk's state: `over` is that the loop was told to quit, `timer` that the timer still runs. */
  datatype Walk = Walk(
    total: nat,
    replies: seq<Reply>,
    nextIndex: nat,
    finishedCount: nat,
    reasons: seq<Reason>,
    shape: Shape,
    reachable: bool,
    completed: bool,
    over: bool,
    timer: bool) {

    function Record(reason: Reason, classify: Reason -> Shape): Walk {
      this.(reasons := reasons + [reason],
            shape := if FailureShapeRank(classify(reason)) > FailureShapeRank(shape) then classify(reason) else shape)
    }

    function Accept(i: nat): Walk
      requires i < |replies|
    {
      if !completed && IsReachableStatusCode(replies[i].status)
      then this.(reachable := true, completed := true, over := true) else this
    }

    /** Asks further hosts, in pool order, until two requests are in flight or the pool is used up. */
    function Refill(): Walk
      decreases total - nextIndex
    {
      if !completed && |replies| - finishedCount < MAX_CONCURRENT && nextIndex < total
      then this.(replies := replies + [Asked(nextIndex)], nextIndex := nextIndex + 1).Refill() else this
    }

    function Handle(i: nat, classify: Reason -> Shape): Walk
      requires i < |replies|
    {
      var seen := Accept(i);
      var told := if seen.completed then seen
                  else seen.Record(Reason(replies[i].host, ReplyFailureReason(replies[i])), classify);
      var counted := told.(finishedCount := finishedCount + 1, replies := replies[i := replies[i].(handled := true)]);
      if counted.completed then counted
      else if counted.finishedCount == total then counted.(over := true)
      else counted.Refill()
    }

    function TimeoutFrom(i: nat, classify: Reason -> Shape): Walk
      requires i <= |replies|
      decreases |replies| - i
    {
      if i == |replies| then this
      else if replies[i].finished then TimeoutFrom(i + 1, classify)
      else Record(Reason(i, TimedOutText), classify).TimeoutFrom(i + 1, classify)
    }

    function Timeout(classify: Reason -> Shape): Walk {
      var fired := this.(timer := false);
      (if completed then fired else fired.TimeoutFrom(0, classify)).(over := true)
    }
  }

  datatype Event =
    | Network(reply: nat, status: int, error: string, finished: bool)  // the network updates a reply
    | MetaDataChanged(reply: nat)
    | Finished(reply: nat)
    | TimedOut

  datatype Result = Result(reachable: bool, reasons: seq<Reason>, shape: Shape, attemptedHosts: nat)

  /** The state that the handlers of one probe share, and the handlers. */
  class ProbeRun {
    const total: nat
    const classify: Reason -> Shape
    var replies: seq<Reply>
    var nextIndex: nat
    var finishedCount: nat
    var failureReasons: seq<Reason>
    var failureShape: Shape
    var reachable: bool
    var completed: bool
    var over: bool
    var timerActive: bool

    function State(): Walk
      reads this
    {
      Walk(total, replies, nextIndex, finishedCount, failureReasons, failureShape, reachable, completed, over,
           timerActive)
    }

    constructor (total: nat, classify: Reason -> Shape)
      ensures this.total == total && this.classify == classify
      ensures State() == Start(total)
    {
      this.total := total;
      this.classify := classify;
      replies, nextIndex, finishedCount := [], 0, 0;
      failureReasons, failureShape := [], UnknownShape;
      reachable, completed, over, timerActive := false, false, false, true;
      new;
      StartMore();
    }

    method RecordFailure(reason: Reason)
      modifies this`failureReasons, this`failureShape
      ensures State() == old(State()).Record(reason, classify)
    {
      failureReasons := failureReasons + [reason];
      var shape := classify(reason);
      if FailureShapeRank(shape) > FailureShapeRank(failureShape) {
        failureShape := shape;
      }
    }

    method AcceptReachableStatus(i: nat)
      requires i < |replies|
      modifies this`reachable, this`completed, this`over
      ensures State() == old(State()).Accept(i)
    {
      if !completed && IsReachableStatusCode(replies[i].status) {
        reachable := true;
        completed := true;
        over := true;
      }
    }

    method StartMore()
      modifies this`replies, this`nextIndex
      ensures State() == old(State()).Refill()
    {
      while !completed && |replies| - finishedCount < MAX_CONCURRENT && nextIndex < total
        invariant State().Refill() == old(State()).Refill()
        decreases total - nextIndex
      {
        var host := nextIndex;
        nextIndex := nextIndex + 1;
        replies := replies + [Asked(host)];
      }
    }

    method OnMetaDataChanged(i: nat)
      requires i < |replies|
      modifies this
      ensures State() == old(State()).Accept(i)
      ensures completed <==> old(completed) || old(replies[i].status) == 200 || old(replies[i].status) == 204
    {
      AcceptReachableStatus(i);
    }

    method OnFinished(i: nat)
      requires i < |replies|
      modifies this
      ensures State() == old(State()).Handle(i, classify)
    {
      hide Walk.Refill, Walk.Record, Walk.Accept;
      AcceptReachableStatus(i);
      if !completed {
        RecordFailure(Reason(replies[i].host, ReplyFailureReason(replies[i])));
      }
      finishedCount := finishedCount + 1;
      replies := replies[i := replies[i].(handled := true)];
      if completed {
        return;
      }
      if finishedCount == total {
        over := true;
      } else {
        StartMore();
      }
    }

    method OnTimeout()
      modifies this
      ensures State() == old(State()).Timeout(classify)
    {
      timerActive := false;
      if !completed {
        var i := 0;
        while i < |replies|
          invariant i <= |replies| && replies == old(replies)
          invariant unchanged(`finishedCount) && unchanged(`completed)
          invariant State().TimeoutFrom(i, classify) == old(State()).(timer := false).TimeoutFrom(0, classify)
        {
          if !replies[i].finished {
            RecordFailure(Reason(i, TimedOutText));
          }
          i := i + 1;
        }
      }
      over := true;
    }

    method Verdict() returns (result: Result)
      ensures result == Outcome(State())
    {
      if completed {
        return Result(reachable, [], UnknownShape, nextIndex);
      }
      return Result(reachable, failureReasons, failureShape, nextIndex);
    }
  }

  /** Sets a probe up.  An empty pool or a non-positive budget is answered without asking anyone. */
  method Prepare(total: nat, timeoutMs: int, classify: Reason -> Shape) returns (run: ProbeRun?, unavailable: Result)
    ensures run == null <==> total == 0 || timeoutMs <= 0
    ensures run != null ==> fresh(run) && run.State() == Start(total) && run.classify == classify
    ensures run == null ==> unavailable == Result(false, [], UnknownShape, total)
  {
    unavailable := Result(false, [], UnknownShape, total);
    if total == 0 || timeoutMs <= 0 {
      return null, unavailable;
    }
    run := new ProbeRun(total, classify);
  }

  /** Before the first request; the timer is started with the loop. */
  function Idle(total: nat): Walk {
    Walk(total, [], 0, 0, [], UnknownShape, false, false, false, true)
  }

  function Start(total: nat): Walk {
    Idle(total).Refill()
  }

  function Outcome(w: Walk): Result {
    Result(w.reachable, if w.completed then [] else w.reasons, if w.completed then UnknownShape else w.shape,
           w.nextIndex)
  }

  // ----- Runs -----------------------------------------------------------------------------------

  /** What can happen until the event loop returns, told to quit or not: the network reports on a
      request it has not finished, each handler runs for a request, the completion handler once, and
      the single-shot timer fires once. */
  ghost predicate Enabled(w: Walk, e: Event) {
    match e
    case Network(i, _, _, _) => i < |w.replies| && !w.replies[i].finished
    case MetaDataChanged(i) => i < |w.replies| && !w.replies[i].handled
    case Finished(i) => i < |w.replies| && w.replies[i].finished && !w.replies[i].handled
    case TimedOut => w.timer
  }

  function Told(w: Walk, i: nat, status: int, error: string, finished: bool): Walk
    requires i < |w.replies|
  {
    w.(replies := w.replies[i := w.replies[i].(status := status, error := error, finished := finished)])
  }

  function Step(w: Walk, e: Event, classify: Reason -> Shape): Walk
    requires Enabled(w, e)
  {
    match e
    case Network(i, status, error, finished) => Told(w, i, status, error, finished)
    case MetaDataChanged(i) => w.Accept(i)
    case Finished(i) => w.Handle(i, classify)
    case TimedOut => w.Timeout(classify)
  }

  ghost predicate EnabledRun(w: Walk, es: seq<Event>, classify: Reason -> Shape)
    decreases |es|
  {
    es == [] || (Enabled(w, es[0]) && EnabledRun(Step(w, es[0], classify), es[1..], classify))
  }

  ghost function Run(w: Walk, es: seq<Event>, classify: Reason -> Shape): Walk
    requires EnabledRun(w, es, classify)
    decreases |es|
  {
    if es == [] then w else Run(Step(w, es[0], classify), es[1..], classify)
  }

  /** The requests a timeout reports: those the network has not finished, while undecided. */
  function Unfinished(w: Walk): set<nat> {
    if w.completed then {} else set i: nat | i < |w.replies| && !w.replies[i].finished
  }

  function ExpiredBy(w: Walk, e: Event): set<nat> {
    if e.TimedOut? then Unfinished(w) else {}
  }

  /** The requests that were unfinished when the timer fired in this run. */
  ghost function Expired(w: Walk, es: seq<Event>, classify: Reason -> Shape): set<nat>
    requires EnabledRun(w, es, classify)
    decreases |es|
  {
    if es == [] then {} else ExpiredBy(w, es[0]) + Expired(Step(w, es[0], classify), es[1..], classify)
  }

  // ----- Invariant ------------------------------------------------------------------------------

  function HandledCount(replies: seq<Reply>): nat {
    if replies == [] then 0
    else HandledCount(replies[..|replies| - 1]) + if replies[|replies| - 1].handled then 1 else 0
  }

  function ReasonsFor(reasons: seq<Reason>, host: nat): nat {
    if reasons == [] then 0
    else ReasonsFor(reasons[..|reasons| - 1], host) + if reasons[|reasons| - 1].host == host then 1 else 0
  }

  function Min(a: int, b: int): int {
    if a < b then a else b
  }

  /** The reported shape is the highest-ranked shape of any reported reason. */
  ghost predicate ShapeIsWorst(w: Walk, classify: Reason -> Shape) {
    && (forall k :: 0 <= k < |w.reasons| ==> FailureShapeRank(classify(w.reasons[k])) <= FailureShapeRank(w.shape))
    && (w.shape != UnknownShape ==> exists k :: 0 <= k < |w.reasons| && classify(w.reasons[k]) == w.shape)
  }

  /** The pool is asked in its own order, each host once. */
  ghost predicate InPoolOrder(w: Walk) {
    && |w.replies| == w.nextIndex <= w.total
    && forall i :: 0 <= i < |w.replies| ==> w.replies[i].host == i
  }

  ghost predicate Counted(w: Walk) {
    && w.finishedCount == HandledCount(w.replies)
    && (forall i :: 0 <= i < |w.replies| && w.replies[i].handled ==> w.replies[i].finished)
  }

  predicate HandledAt(w: Walk, i: nat) {
    i < |w.replies| && w.replies[i].handled
  }

  /** One reason for a handled completion, one for having been unfinished at the timeout. */
  ghost predicate Accounted(w: Walk, expired: set<nat>) {
    forall i: nat :: ReasonsFor(w.reasons, i)
                     == (if HandledAt(w, i) then 1 else 0) + (if i in expired then 1 else 0)
  }

  /** As long as no reachable status was seen. */
  ghost predicate Undecided(w: Walk, expired: set<nat>) {
    && Accounted(w, expired)
    && |w.replies| - w.finishedCount == Min(MAX_CONCURRENT, w.total - w.finishedCount)
    && (w.over <==> !w.timer || w.finishedCount == w.total)
  }

  ghost predicate Inv(w: Walk, expired: set<nat>, classify: Reason -> Shape) {
    && InPoolOrder(w) && Counted(w) && ShapeIsWorst(w, classify)
    && w.finishedCount <= |w.replies| <= w.finishedCount + MAX_CONCURRENT
    && (w.reachable <==> w.completed) && (w.completed ==> w.over)
    && (w.timer ==> expired == {}) && (forall i :: i in expired ==> i < |w.replies|)
    && (!w.completed ==> Undecided(w, expired))
  }

  // ----- Every step keeps it --------------------------------------------------------------------

  lemma {:induction false} HandledCountUpdate(replies: seq<Reply>, i: nat, reply: Reply)
    requires i < |replies|
    ensures HandledCount(replies[i := reply])
            == HandledCount(replies) - (if replies[i].handled then 1 else 0) + (if reply.handled then 1 else 0)
    decreases |replies|
  {
    var n := |replies| - 1;
    if i == n {
      assert replies[i := reply][..n] == replies[..n];
    } else {
      assert replies[i := reply][..n] == replies[..n][i := reply];
      HandledCountUpdate(replies[..n], i, reply);
    }
  }

  lemma {:induction false} HandledCountBound(replies: seq<Reply>)
    ensures HandledCount(replies) <= |replies|
    ensures (exists i :: 0 <= i < |replies| && !replies[i].handled) ==> HandledCount(replies) < |replies|
    decreases |replies|
  {
    if replies != [] {
      HandledCountBound(replies[..|replies| - 1]);
    }
  }

  /** How far a refill goes: until two are in flight or the pool is used up. */
  lemma {:induction false} RefillReaches(w: Walk)
    requires |w.replies| == w.nextIndex <= w.total
    ensures var r := w.Refill();
            && r == w.(replies := r.replies, nextIndex := |r.replies|)
            && |r.replies| == (if w.completed || |w.replies| >= w.finishedCount + MAX_CONCURRENT then |w.replies|
                               else Min(w.total, w.finishedCount + MAX_CONCURRENT))
    decreases w.total - w.nextIndex
  {
    if !w.completed && |w.replies| - w.finishedCount < MAX_CONCURRENT && w.nextIndex < w.total {
      RefillReaches(w.(replies := w.replies + [Asked(w.nextIndex)], nextIndex := w.nextIndex + 1));
    }
  }

  /** What it adds: fresh requests, to the hosts of those places. */
  lemma {:induction false} RefillAsks(w: Walk)
    requires |w.replies| == w.nextIndex
    ensures w.replies <= w.Refill().replies
    ensures forall i :: |w.replies| <= i < |w.Refill().replies| ==> w.Refill().replies[i] == Asked(i)
    decreases w.total - w.nextIndex
  {
    if !w.completed && |w.replies| - w.finishedCount < MAX_CONCURRENT && w.nextIndex < w.total {
      var next := w.(replies := w.replies + [Asked(w.nextIndex)], nextIndex := w.nextIndex + 1);
      RefillAsks(next);
      assert w.Refill() == next.Refill();
      assert next.Refill().replies[w.nextIndex] == next.replies[w.nextIndex];
    }
  }

  /** Refilling only asks further hosts, in pool order, until two are in flight or none is left. */
  lemma RefillFills(w: Walk)
    requires InPoolOrder(w)
    ensures var r := w.Refill();
            && r == w.(replies := r.replies, nextIndex := |r.replies|) && InPoolOrder(r) && w.replies <= r.replies
            && (forall i :: |w.replies| <= i < |r.replies| ==> r.replies[i] == Asked(i))
            && |r.replies| == (if w.completed || |w.replies| >= w.finishedCount + MAX_CONCURRENT then |w.replies|
                               else Min(w.total, w.finishedCount + MAX_CONCURRENT))
  {
    hide Walk.Refill;
    RefillReaches(w);
    RefillAsks(w);
    var r := w.Refill();
    assert forall i :: 0 <= i < |w.replies| ==> r.replies[i] == w.replies[i];
  }

  lemma {:induction false} NewRequestsAreUnhandled(replies: seq<Reply>, n: nat)
    requires n <= |replies| && forall i :: n <= i < |replies| ==> !replies[i].handled
    ensures HandledCount(replies) == HandledCount(replies[..n])
    decreases |replies|
  {
    if n < |replies| {
      NewRequestsAreUnhandled(replies[..|replies| - 1], n);
      assert replies[..|replies| - 1][..n] == replies[..n];
    } else {
      assert replies[..n] == replies;
    }
  }

  lemma RecordKeepsShape(w: Walk, reason: Reason, classify: Reason -> Shape)
    requires ShapeIsWorst(w, classify)
    ensures ShapeIsWorst(w.Record(reason, classify), classify)
  {
    var r := w.Record(reason, classify);
    if r.shape != UnknownShape {
      if r.shape == classify(reason) {
        assert classify(r.reasons[|w.reasons|]) == r.shape;
      } else {
        var k :| 0 <= k < |w.reasons| && classify(w.reasons[k]) == w.shape;
        assert classify(r.reasons[k]) == r.shape;
      }
    }
  }

  lemma OneMoreReason(reasons: seq<Reason>, reason: Reason, host: nat)
    ensures ReasonsFor(reasons + [reason], host)
            == ReasonsFor(reasons, host) + if reason.host == host then 1 else 0
  {
    assert (reasons + [reason])[..|reasons|] == reasons;
  }

  lemma {:induction false} TimeoutKeepsShape(w: Walk, i: nat, classify: Reason -> Shape)
    requires i <= |w.replies| && ShapeIsWorst(w, classify)
    ensures ShapeIsWorst(w.TimeoutFrom(i, classify), classify)
    decreases |w.replies| - i
  {
    hide ShapeIsWorst;
    if i < |w.replies| {
      if w.replies[i].finished {
        TimeoutKeepsShape(w, i + 1, classify);
      } else {
        RecordKeepsShape(w, Reason(i, TimedOutText), classify);
        TimeoutKeepsShape(w.Record(Reason(i, TimedOutText), classify), i + 1, classify);
      }
    }
  }

  /** The timeout reports each request from the `i`-th on that the network has not finished, once. */
  lemma {:induction false} TimeoutReports(w: Walk, i: nat, classify: Reason -> Shape, host: nat)
    requires i <= |w.replies|
    ensures var r := w.TimeoutFrom(i, classify);
            && r == w.(reasons := r.reasons, shape := r.shape)
            && ReasonsFor(r.reasons, host) == ReasonsFor(w.reasons, host)
                 + if i <= host < |w.replies| && !w.replies[host].finished then 1 else 0
    decreases |w.replies| - i
  {
    hide FailureShapeRank, ReasonsFor;
    if i < |w.replies| {
      if w.replies[i].finished {
        TimeoutReports(w, i + 1, classify, host);
      } else {
        var reason := Reason(i, TimedOutText);
        OneMoreReason(w.reasons, reason, host);
        TimeoutReports(w.Record(reason, classify), i + 1, classify, host);
      }
    }
  }

  lemma NetworkKeepsInv(w: Walk, expired: set<nat>, i: nat, status: int, error: string, finished: bool,
                        classify: Reason -> Shape)
    requires Inv(w, expired, classify) && i < |w.replies| && !w.replies[i].finished
    ensures Inv(Told(w, i, status, error, finished), expired, classify)
  {
    hide HandledCount, ReasonsFor;
    var w' := Told(w, i, status, error, finished);
    HandledCountUpdate(w.replies, i, w'.replies[i]);
    assert forall j: nat :: HandledAt(w', j) <==> HandledAt(w, j);
  }

  lemma TimeoutKeepsInv(w: Walk, expired: set<nat>, classify: Reason -> Shape)
    requires Inv(w, expired, classify) && w.timer
    ensures var after := w.Timeout(classify);
      && Inv(after, expired + Unfinished(w), classify) && after.completed == w.completed && !after.timer
      && after.total == w.total && after.replies == w.replies
  {
    hide HandledCount, ReasonsFor;
    if !w.completed {
      var w' := w.Timeout(classify);
      var fired := w.(timer := false);
      TimeoutReports(fired, 0, classify, 0);
      TimeoutKeepsShape(fired, 0, classify);
      forall i: nat
        ensures ReasonsFor(w'.reasons, i)
                == (if HandledAt(w', i) then 1 else 0) + (if i in expired + Unfinished(w) then 1 else 0)
      {
        TimeoutReports(fired, 0, classify, i);
      }
      assert Accounted(w', expired + Unfinished(w));
    }
  }

  lemma AcceptKeepsInv(w: Walk, expired: set<nat>, i: nat, classify: Reason -> Shape)
    requires Inv(w, expired, classify) && i < |w.replies|
    ensures var after := w.Accept(i);
      && Inv(after, expired, classify) && after.total == w.total && after.replies == w.replies
      && (after.completed <==> w.completed || w.replies[i].status == 200 || w.replies[i].status == 204)
  {
    hide HandledCount, ReasonsFor;
  }

  /** The state right after a completion has been handled, before any refill. */
  function Finishing(w: Walk, i: nat, classify: Reason -> Shape): Walk
    requires i < |w.replies|
  {
    var told := if w.completed then w
                else w.Record(Reason(w.replies[i].host, ReplyFailureReason(w.replies[i])), classify);
    told.(finishedCount := w.finishedCount + 1, replies := w.replies[i := w.replies[i].(handled := true)])
  }

  lemma FinishingIsCounted(w: Walk, expired: set<nat>, i: nat, classify: Reason -> Shape)
    requires Inv(w, expired, classify) && i < |w.replies| && w.replies[i].finished && !w.replies[i].handled
    ensures var t := Finishing(w, i, classify);
            && InPoolOrder(t) && Counted(t) && ShapeIsWorst(t, classify) && t.finishedCount <= |t.replies|
            && (!w.completed ==> Accounted(t, expired))
  {
    hide HandledCount, ReasonsFor;
    var t := Finishing(w, i, classify);
    HandledCountUpdate(w.replies, i, t.replies[i]);
    HandledCountBound(t.replies);
    if !w.completed {
      var reason := Reason(w.replies[i].host, ReplyFailureReason(w.replies[i]));
      RecordKeepsShape(w, reason, classify);
      forall j: nat
        ensures ReasonsFor(t.reasons, j) == (if HandledAt(t, j) then 1 else 0) + (if j in expired then 1 else 0)
      {
        OneMoreReason(w.reasons, reason, j);
        assert HandledAt(t, j) <==> HandledAt(w, j) || j == i;
      }
    }
  }

  lemma RefillKeepsInv(t: Walk, expired: set<nat>, classify: Reason -> Shape)
    requires InPoolOrder(t) && Counted(t) && ShapeIsWorst(t, classify) && Accounted(t, expired)
    requires t.finishedCount <= |t.replies| <= t.finishedCount + MAX_CONCURRENT && t.finishedCount < t.total
    requires !t.completed && !t.reachable && (t.over <==> !t.timer)
    requires (t.timer ==> expired == {}) && forall i :: i in expired ==> i < |t.replies|
    ensures var r := t.Refill();
      && Inv(r, expired, classify) && !r.completed && r.total == t.total && r.timer == t.timer
      && forall i: nat :: HandledAt(t, i) ==> HandledAt(r, i)
  {
    hide HandledCount, ReasonsFor;
    RefillFills(t);
    var r := t.Refill();
    NewRequestsAreUnhandled(r.replies, |t.replies|);
    assert r.replies[..|t.replies|] == t.replies;
    assert forall i: nat :: HandledAt(r, i) <==> HandledAt(t, i);
    assert Accounted(r, expired) && ShapeIsWorst(r, classify);
  }

  lemma FinishedKeepsInv(w: Walk, expired: set<nat>, i: nat, classify: Reason -> Shape)
    requires Inv(w, expired, classify) && Enabled(w, Finished(i))
    ensures Inv(w.Handle(i, classify), expired, classify)
    ensures var after := w.Handle(i, classify);
      && after.total == w.total && after.timer == w.timer && HandledAt(after, i)
      && (after.completed <==> w.completed || w.replies[i].status == 200 || w.replies[i].status == 204)
  {
    hide HandledCount, ReasonsFor, Walk.Refill;
    var seen := w.Accept(i);
    AcceptKeepsInv(w, expired, i, classify);
    FinishingIsCounted(seen, expired, i, classify);
    var t := Finishing(seen, i, classify);
    if !t.completed && t.finishedCount < t.total {
      RefillKeepsInv(t, expired, classify);
    }
  }

  /** Every enabled event keeps the invariant, and decides for "reachable" exactly when its handler
      looks at 200 or 204. */
  lemma StepKeepsInv(w: Walk, expired: set<nat>, e: Event, classify: Reason -> Shape)
    requires Inv(w, expired, classify) && Enabled(w, e)
    ensures var after := Step(w, e, classify);
      && Inv(after, expired + ExpiredBy(w, e), classify) && after.total == w.total
      && (after.completed <==> w.completed || Shows(w, e))
  {
    hide Inv, Walk.Accept, Walk.Handle, Walk.Timeout;
    assert e.TimedOut? || expired + ExpiredBy(w, e) == expired;
    match e
    case Network(i, status, error, finished) =>
      NetworkKeepsInv(w, expired, i, status, error, finished, classify);
    case MetaDataChanged(i) => AcceptKeepsInv(w, expired, i, classify);
    case Finished(i) => FinishedKeepsInv(w, expired, i, classify);
    case TimedOut => TimeoutKeepsInv(w, expired, classify);
  }

  /** A handler looks at a request that shows 200 or 204. */
  ghost predicate Shows(w: Walk, e: Event)
    requires Enabled(w, e)
  {
    && (e.MetaDataChanged? || e.Finished?)
    && (w.replies[e.reply].status == 200 || w.replies[e.reply].status == 204)
  }

  ghost predicate Showed(w: Walk, es: seq<Event>, classify: Reason -> Shape)
    requires EnabledRun(w, es, classify)
    decreases |es|
  {
    es != [] && (Shows(w, es[0]) || Showed(Step(w, es[0], classify), es[1..], classify))
  }

  lemma StartIsInv(total: nat, classify: Reason -> Shape)
    requires total > 0
    ensures Inv(Start(total), {}, classify) && Start(total).total == total && !Start(total).reachable
  {
    RefillFills(Idle(total));
    RefillKeepsInv(Idle(total), {}, classify);
  }

  lemma {:induction false} RunKeepsInv(w: Walk, expired: set<nat>, es: seq<Event>, classify: Reason -> Shape)
    requires Inv(w, expired, classify) && EnabledRun(w, es, classify)
    ensures var end := Run(w, es, classify);
      && Inv(end, expired + Expired(w, es, classify), classify) && end.total == w.total
      && (end.reachable <==> w.reachable || Showed(w, es, classify))
    decreases |es|
  {
    hide Step, Enabled, Shows, ExpiredBy, Undecided, InPoolOrder, Counted, ShapeIsWorst;
    if es == [] {
      assert expired + {} == expired;
    } else {
      StepKeepsInv(w, expired, es[0], classify);
      var next := Step(w, es[0], classify);
      RunKeepsInv(next, expired + ExpiredBy(w, es[0]), es[1..], classify);
      assert expired + ExpiredBy(w, es[0]) + Expired(next, es[1..], classify)
             == expired + (ExpiredBy(w, es[0]) + Expired(next, es[1..], classify));
    }
  }

  // ----- What the reasons say -------------------------------------------------------------------

  /** A timed-out request was unfinished at the timeout; any other reason is what its handled reply says:
      its status if it has one, else its error, else that nothing came. */
  ghost predicate Explained(w: Walk, expired: set<nat>, reason: Reason) {
    || (reason.text == TimedOutText && reason.host in expired)
    || (HandledAt(w, reason.host) && var reply := w.replies[reason.host];
        reason.text == if reply.status > 0 then HttpStatus(reply.status)
                       else if reply.error != "" then NetworkError(reply.error) else NoResponse)
  }

  ghost predicate AllExplained(w: Walk, expired: set<nat>) {
    forall k :: 0 <= k < |w.reasons| ==> Explained(w, expired, w.reasons[k])
  }

  /** What was explained stays so if handled replies stay as they are. */
  lemma StillExplained(w: Walk, w': Walk, expired: set<nat>, expired': set<nat>)
    requires AllExplained(w, expired) && expired <= expired' && |w.reasons| <= |w'.reasons|
    requires forall i: nat :: HandledAt(w, i) ==> HandledAt(w', i) && w'.replies[i] == w.replies[i]
    requires forall k :: 0 <= k < |w.reasons| ==> w'.reasons[k] == w.reasons[k]
    requires forall k :: |w.reasons| <= k < |w'.reasons| ==> Explained(w', expired', w'.reasons[k])
    ensures AllExplained(w', expired')
  {
    forall k | 0 <= k < |w'.reasons| ensures Explained(w', expired', w'.reasons[k]) {
      if k < |w.reasons| {
        assert Explained(w, expired, w.reasons[k]);
      }
    }
  }

  lemma {:induction false} TimeoutSays(w: Walk, i: nat, classify: Reason -> Shape)
    requires i <= |w.replies|
    ensures var r := w.TimeoutFrom(i, classify);
      && w.reasons <= r.reasons && r == w.(reasons := r.reasons, shape := r.shape)
      && forall k :: |w.reasons| <= k < |r.reasons| ==>
           && r.reasons[k].text == TimedOutText && r.reasons[k].host < |w.replies|
           && !w.replies[r.reasons[k].host].finished
    decreases |w.replies| - i
  {
    hide FailureShapeRank;
    if i < |w.replies| {
      if w.replies[i].finished {
        TimeoutSays(w, i + 1, classify);
      } else {
        TimeoutSays(w.Record(Reason(i, TimedOutText), classify), i + 1, classify);
      }
    }
  }

  lemma TimeoutStaysExplained(w: Walk, expired: set<nat>, classify: Reason -> Shape)
    requires AllExplained(w, expired)
    ensures AllExplained(w.Timeout(classify), expired + Unfinished(w))
  {
    var w' := w.Timeout(classify);
    if !w.completed {
      TimeoutSays(w.(timer := false), 0, classify);
    }
    hide Walk.Timeout;
    StillExplained(w, w', expired, expired + Unfinished(w));
  }

  lemma HandleSays(w: Walk, i: nat, classify: Reason -> Shape)
    requires InPoolOrder(w) && i < |w.replies|
    ensures var r := w.Handle(i, classify);
      && |r.replies| >= |w.replies| && r.replies[i] == w.replies[i].(handled := true)
      && (forall j :: 0 <= j < |w.replies| && j != i ==> r.replies[j] == w.replies[j])
      && (r.reasons == w.reasons || r.reasons == w.reasons + [Reason(i, ReplyFailureReason(w.replies[i]))])
  {
    hide Walk.Record, Walk.Refill, ReplyFailureReason;
    var seen := w.Accept(i);
    RecordAdds(seen, Reason(i, ReplyFailureReason(w.replies[i])), classify);
    var t := Finishing(seen, i, classify);
    RefillFills(t);
    assert |t.replies| == |w.replies| && t.replies <= t.Refill().replies;
  }

  lemma RecordAdds(w: Walk, reason: Reason, classify: Reason -> Shape)
    ensures var r := w.Record(reason, classify); r == w.(reasons := w.reasons + [reason], shape := r.shape)
  {
  }

  lemma HandleStaysExplained(w: Walk, expired: set<nat>, i: nat, classify: Reason -> Shape)
    requires InPoolOrder(w) && AllExplained(w, expired) && Enabled(w, Finished(i))
    ensures AllExplained(w.Handle(i, classify), expired)
  {
    hide Walk.Handle;
    HandleSays(w, i, classify);
    StillExplained(w, w.Handle(i, classify), expired, expired);
  }

  lemma StepStaysExplained(w: Walk, expired: set<nat>, e: Event, classify: Reason -> Shape)
    requires InPoolOrder(w) && Counted(w) && AllExplained(w, expired) && Enabled(w, e)
    ensures AllExplained(Step(w, e, classify), expired + ExpiredBy(w, e))
  {
    hide Explained, Walk.Handle, Walk.Timeout, HandledCount;
    assert e.TimedOut? || expired + ExpiredBy(w, e) == expired;
    match e
    case Network(i, status, error, finished) =>
      StillExplained(w, Told(w, i, status, error, finished), expired, expired);
    case MetaDataChanged(i) => StillExplained(w, w.Accept(i), expired, expired);
    case Finished(i) => HandleStaysExplained(w, expired, i, classify);
    case TimedOut => TimeoutStaysExplained(w, expired, classify);
  }

  lemma {:induction false} RunStaysExplained(w: Walk, expired: set<nat>, es: seq<Event>, classify: Reason -> Shape)
    requires Inv(w, expired, classify) && AllExplained(w, expired) && EnabledRun(w, es, classify)
    ensures AllExplained(Run(w, es, classify), expired + Expired(w, es, classify))
    decreases |es|
  {
    hide Step, Enabled, ExpiredBy, AllExplained, Undecided, InPoolOrder, Counted, ShapeIsWorst;
    if es == [] {
      assert expired + {} == expired;
    } else {
      StepKeepsInv(w, expired, es[0], classify);
      StepStaysExplained(w, expired, es[0], classify);
      var next := Step(w, es[0], classify);
      RunStaysExplained(next, expired + ExpiredBy(w, es[0]), es[1..], classify);
      assert expired + ExpiredBy(w, es[0]) + Expired(next, es[1..], classify)
             == expired + (ExpiredBy(w, es[0]) + Expired(next, es[1..], classify));
    }
  }

  // ----- The verdict ----------------------------------------------------------------------------

  /** Exactly one reason for every asked host, and none for any other. */
  ghost predicate OneReasonEach(w: Walk) {
    forall i: nat :: ReasonsFor(w.reasons, i) == if i < |w.replies| then 1 else 0
  }

  ghost predicate SomeReasonIs(reasons: seq<Reason>, classify: Reason -> Shape, shape: Shape) {
    exists k :: 0 <= k < |reasons| && classify(reasons[k]) == shape
  }

  /** A certificate mismatch outweighs a broken tunnel, and that an unreachable host. */
  lemma WorstShapeIs(w: Walk, classify: Reason -> Shape)
    requires ShapeIsWorst(w, classify)
    ensures w.shape == if SomeReasonIs(w.reasons, classify, CertificateMismatch) then CertificateMismatch
                       else if SomeReasonIs(w.reasons, classify, TunnelBroken) then TunnelBroken
                       else if SomeReasonIs(w.reasons, classify, Unreachable) then Unreachable
                       else UnknownShape
  {
  }

  /** Under any order of events, including those after the loop was told to quit: hosts are asked in
      pool order, each once, never more than two in flight, and exactly min(2, hosts left) until a
      reachable status is seen; the probe says reachable exactly when a handler saw 200 or 204, and then
      gives no reasons; otherwise all hosts have been handled or the timer has fired, every reason is
      explained, the shape is the worst one of the reported reasons, and each asked host has one reason
      for its handled completion and one for having been unfinished at the timeout.  So there is one reason
      for each exactly when each was either handled or unfinished at the timeout, and not both. */
  lemma VerdictIsRight(total: nat, es: seq<Event>, classify: Reason -> Shape)
    requires total > 0 && EnabledRun(Start(total), es, classify)
    ensures var w := Run(Start(total), es, classify);
            var expired := Expired(Start(total), es, classify);
            var result := Outcome(w);
            && w.total == total && InPoolOrder(w) && result.attemptedHosts == |w.replies|
            && |w.replies| - w.finishedCount <= 2
            && (result.reachable <==> Showed(Start(total), es, classify))
            && (result.reachable ==> result.reasons == [] && result.shape == UnknownShape)
            && (!result.reachable ==>
                  && (var left := total - w.finishedCount;
                      |w.replies| - w.finishedCount == if left < 2 then left else 2)
                  && (w.over <==> !w.timer || w.finishedCount == total)
                  && result.reasons == w.reasons && AllExplained(w, expired)
                  && (result.shape ==
                        if SomeReasonIs(w.reasons, classify, CertificateMismatch) then CertificateMismatch
                        else if SomeReasonIs(w.reasons, classify, TunnelBroken) then TunnelBroken
                        else if SomeReasonIs(w.reasons, classify, Unreachable) then Unreachable
                        else UnknownShape)
                  && (forall i: nat :: ReasonsFor(result.reasons, i)
                        == (if HandledAt(w, i) then 1 else 0) + (if i in expired then 1 else 0))
                  && (OneReasonEach(w) <==> forall i: nat :: i < |w.replies| ==> (HandledAt(w, i) <==> i !in expired)))
  {
    StartIsExplained(total);
    hide Run, EnabledRun, Showed, Expired, HandledCount, ReasonsFor, Start, AllExplained, SomeReasonIs;
    StartIsInv(total, classify);
    RunKeepsInv(Start(total), {}, es, classify);
    RunStaysExplained(Start(total), {}, es, classify);
    var w := Run(Start(total), es, classify);
    var expired := Expired(Start(total), es, classify);
    assert {} + expired == expired;
    WorstShapeIs(w, classify);
    hide ShapeIsWorst;
    if !w.reachable {
      assert forall i: nat :: HandledAt(w, i) || i in expired ==> i < |w.replies|;
    }
  }

  lemma StartIsExplained(total: nat)
    ensures AllExplained(Start(total), {})
  {
    RefillFills(Idle(total));
  }

  // ----- Where one reason each fails ------------------------------------------------------------

  lemma TwoAsked()
    ensures Start(2) == Walk(2, [Asked(0), Asked(1)], 2, 0, [], UnknownShape, false, false, false, true)
  {
    RefillFills(Idle(2));
    assert Start(2).replies == [Asked(0), Asked(1)];
  }

  lemma RunOfTwo(w: Walk, a: Event, b: Event, classify: Reason -> Shape)
    requires Enabled(w, a) && Enabled(Step(w, a, classify), b)
    ensures EnabledRun(w, [a, b], classify)
    ensures Run(w, [a, b], classify) == Step(Step(w, a, classify), b, classify)
  {
    assert [a, b][1..] == [b] && [b][1..] == [];
    var next := Step(Step(w, a, classify), b, classify);
    assert EnabledRun(next, [], classify) && Run(next, [], classify) == next;
    assert EnabledRun(Step(w, a, classify), [b], classify);
  }

  /** A host that the network has finished with a failing status, but whose handler has not run when
      the timer fires, gets no reason. */
  lemma FinishedButUnhandledIsNotReported(classify: Reason -> Shape)
    ensures var es := [Network(0, 500, "", true), TimedOut];
      && EnabledRun(Start(2), es, classify)
      && var w := Run(Start(2), es, classify);
        w.over && !w.reachable && ReasonsFor(w.reasons, 0) == 0 && !OneReasonEach(w)
  {
    TwoAsked();
    var w1 := Step(Start(2), Network(0, 500, "", true), classify);
    assert w1.replies == [Reply(0, 500, "", true, false), Asked(1)];
    RunOfTwo(Start(2), Network(0, 500, "", true), TimedOut, classify);
    TimeoutReports(w1, 0, classify, 0);
  }

  /** The three states of the run below. */
  lemma LateStates(w0: Walk, classify: Reason -> Shape) returns (w1: Walk, w2: Walk, w3: Walk)
    requires Inv(w0, {}, classify) && w0.timer && !w0.completed
    requires w0.replies == [Asked(0), Asked(1)]
    ensures w1 == w0.Timeout(classify) && w1.replies == w0.replies
    ensures w2 == Told(w1, 0, 500, "", true) && w3 == w2.Handle(0, classify)
    ensures Inv(w3, {0, 1}, classify) && !w3.completed && !w3.timer && HandledAt(w3, 0)
  {
    hide Inv, Walk.Handle, Walk.Timeout;
    TimeoutKeepsInv(w0, {}, classify);
    w1 := w0.Timeout(classify);
    assert {} + Unfinished(w0) == {0, 1};
    NetworkKeepsInv(w1, {0, 1}, 0, 500, "", true, classify);
    w2 := Told(w1, 0, 500, "", true);
    FinishedKeepsInv(w2, {0, 1}, 0, classify);
    w3 := w2.Handle(0, classify);
  }

  /** A host reported as timed out whose handler still runs before the loop returns is reported twice. */
  lemma LateCompletionIsReportedTwice(classify: Reason -> Shape)
    ensures var es := [TimedOut, Network(0, 500, "", true), Finished(0)];
      && EnabledRun(Start(2), es, classify)
      && var w := Run(Start(2), es, classify);
        w.over && !w.reachable && ReasonsFor(w.reasons, 0) == 2 && !OneReasonEach(w)
  {
    var es := [TimedOut, Network(0, 500, "", true), Finished(0)];
    TwoAsked();
    StartIsInv(2, classify);
    var w0 := Start(2);
    hide Start, Inv, ReasonsFor, HandledCount, OneReasonEach, Walk.Handle, Walk.Timeout;
    var w1, w2, w3 := LateStates(w0, classify);
    RunOfTwo(w1, es[1], es[2], classify);
    assert es[1..] == [es[1], es[2]];
    assert EnabledRun(w0, es, classify) && Run(w0, es, classify) == w3;
    UndecidedCount(w3, {0, 1}, 0, classify);
  }

  lemma UndecidedCount(w: Walk, expired: set<nat>, i: nat, classify: Reason -> Shape)
    requires Inv(w, expired, classify) && !w.completed && !w.timer && HandledAt(w, i) && i in expired
    ensures w.over && !w.reachable && ReasonsFor(w.reasons, i) == 2 && !OneReasonEach(w)
  {
  }
}
