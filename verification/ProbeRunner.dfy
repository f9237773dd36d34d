/** How an auto-switch probe batch gets its turn: a task token plus one batch of the speed-test
    controller, released together when the controller reports the batch finished. */
module ProbeRunner {
  import opened BackgroundTasks

  /** The controller runs one batch at a time; an auto-switch batch remembers its token and whether
      a failover decision waits for it. */
  datatype Batch = NoBatch | ForeignBatch | AutoBatch(token: Token, failover: bool)

  datatype Channel = Channel(slot: Slot, batch: Batch) {

    function Run(failover: bool, activationInProgress: bool, ready: bool): (Channel, bool) {
      if activationInProgress then (this, false) else
      var (slot', token) := slot.Begin(Kind.SpeedTest, StartupTask, false);
      if !token.IsValid() then (this.(slot := slot'), false)
      else if batch != NoBatch || !ready then (this.(slot := slot'.Finish(token)), false)
      else (Channel(slot', AutoBatch(token, failover)), true)
    }

    /** The batch is over; a token that is no longer current frees nothing. */
    function BatchFinished(): Channel {
      Channel(if batch.AutoBatch? then slot.Finish(batch.token) else slot, NoBatch)
    }
  }

  class AutoSwitchProbeRunner {
    const tasks: BackgroundTaskCoordinator
    var batch: Batch

    constructor (tasks: BackgroundTaskCoordinator)
      ensures this.tasks == tasks && batch == NoBatch
    {
      this.tasks := tasks;
      batch := NoBatch;
    }

    function State(): Channel
      reads this, tasks
    {
      Channel(tasks.State(), batch)
    }

    /** `ready` is whether the controller can queue a batch at all (its worker thread is running). */
    method Run(failover: bool, activationInProgress: bool, ready: bool) returns (started: bool)
      modifies this, tasks
      ensures (State(), started) == old(State()).Run(failover, activationInProgress, ready)
      ensures started <==> !activationInProgress && ready && old(batch) == NoBatch
                           && old(tasks.activeKind) == NoTask && old(tasks.generation) != TWO_TO_64 - 1
      ensures started ==>
                && batch == AutoBatch(Token(SpeedTest, tasks.generation), failover) && tasks.activeKind == SpeedTest
                && tasks.activeGeneration == tasks.generation == old(tasks.generation) + 1
      ensures !started ==> batch == old(batch) && tasks.activeKind in {old(tasks.activeKind), Kind.SpeedTest}
      ensures !started && old(tasks.generation) != TWO_TO_64 - 1 ==> tasks.activeKind == old(tasks.activeKind)
    {
      if activationInProgress {
        return false;
      }
      var token, _ := tasks.TryBegin(Kind.SpeedTest, StartupTask, false);
      if !token.IsValid() {
        return false;
      }
      if batch != NoBatch || !ready {
        var _, _ := tasks.Finish(token);
        return false;
      }
      batch := AutoBatch(token, failover);
      return true;
    }

    method BatchFinished() returns (failoverDone: bool)
      modifies this, tasks
      ensures State() == old(State()).BatchFinished()
      ensures batch == NoBatch && tasks.generation == old(tasks.generation)
      ensures tasks.activeKind == if old(batch).AutoBatch? && old(tasks.State()).IsCurrent(old(batch).token) then NoTask
                                  else old(tasks.activeKind)
      ensures failoverDone == (old(batch).AutoBatch? && old(batch).failover)
    {
      failoverDone := batch.AutoBatch? && batch.failover;
      if batch.AutoBatch? {
        var _, _ := tasks.Finish(batch.token);
      }
      batch := NoBatch;
    }
  }

  /** A refused probe leaves the slot exactly as free or as taken as it was. */
  lemma RefusalKeepsTheSlot(c: Channel, failover: bool, activationInProgress: bool, ready: bool)
    requires c.slot.Consistent() && c.slot.generation + 1 < TWO_TO_64
    requires !c.Run(failover, activationInProgress, ready).1
    ensures var c' := c.Run(failover, activationInProgress, ready).0;
            && c'.batch == c.batch && c'.slot.activeKind == c.slot.activeKind
            && c'.slot.activeGeneration == c.slot.activeGeneration
            && forall token: Token :: token.generation <= c.slot.generation ==>
                 (c'.slot.IsCurrent(token) <==> c.slot.IsCurrent(token))
  {
  }
}
