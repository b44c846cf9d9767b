/** The helper's mutex-protected fields as the object whose methods update them. Each method is one critical section,
    and does to the fields what the protocol's step does. */
module HelperThreads {
  import opened Wrappers
  import opened HelperProtocol

  class Helper {
    var activePid: Option<nat>
    var activeId: nat
    var activeHasOutput: bool
    var activeWaitsForOutput: bool
    var pendingStop: bool
    var workerRunning: bool

    function Fields(): (f: Shared)
      reads this
    {
      Shared(activePid, activeId, activeHasOutput, activeWaitsForOutput, pendingStop, workerRunning)
    }

    constructor ()
      ensures Fields() == IDLE
    {
      activePid, activeId, activeHasOutput := None, 0, false;
      activeWaitsForOutput, pendingStop, workerRunning := false, false, false;
    }

    /** The first section of handle_run: whether the request is refused. */
    method IsBusy() returns (busy: bool)
      ensures busy == Occupied(Fields())
    {
      busy := workerRunning || activePid.Some?;
    }

    /** The second one, once the thread of the request before has been joined. */
    method BeginRun(id: nat, waits: bool)
      modifies this
      ensures Fields() == Begun(old(Fields()), id, waits)
    {
      workerRunning := true;
      activeId := id;
      activeWaitsForOutput := waits;
      pendingStop := false;
    }

    /** What the shutdown loop samples: the child to interrupt, if it has not been signalled yet, and
        whether to go on. */
    method SampleActive(signalled: Option<nat>) returns (target: Option<nat>, running: bool)
      ensures running == Fields().running
      ensures target == if Fields().activePid != signalled then Fields().activePid else None
    {
      running := workerRunning;
      target := if activePid != signalled then activePid else None;
    }

    method HandleStop() returns (reply: Reply, active: nat)
      modifies this`pendingStop
      ensures Fields() == Queued(old(Fields()))
      ensures reply == Answer(old(Fields())) && active == old(activeId)
    {
      active := activeId;
      var defer := workerRunning && (activePid.None? || (activeWaitsForOutput && !activeHasOutput));
      if defer {
        pendingStop := true;
      }
      if !workerRunning && activePid.None? {
        reply := NoOperation;
      } else if defer {
        reply := Deferred;
      } else {
        reply := Deliver(activePid.value);
      }
    }

    /** The child has been spawned. */
    method PublishChild(id: nat, child: nat) returns (stopOnStart: bool)
      modifies this
      ensures stopOnStart == StopsOnStart(old(Fields()))
      ensures Fields() == Published(old(Fields()), id, child)
    {
      activePid := Some(child);
      activeId := id;
      activeHasOutput := false;
      stopOnStart := pendingStop && !activeWaitsForOutput;
      if stopOnStart {
        pendingStop := false;
      }
    }

    /** A line of output has been read. */
    method TakeLine() returns (deliverQueued: bool)
      modifies this
      ensures deliverQueued == TakesQueued(old(Fields()))
      ensures Fields() == SawOutput(old(Fields()))
    {
      deliverQueued := false;
      if !activeHasOutput {
        activeHasOutput := true;
        deliverQueued := pendingStop;
        pendingStop := false;
      }
    }

    /** The child has been reaped; this precedes the report that the request has finished. */
    method PublishIdle()
      modifies this
      ensures Fields() == IDLE && !Occupied(Fields())
    {
      activePid, activeId, activeHasOutput := None, 0, false;
      activeWaitsForOutput, pendingStop, workerRunning := false, false, false;
    }
  }
}
