/** What the protocol does for sure: a stop that has been queued is signalled, and a request that has been submitted is
    reported. */
module HelperDelivery {
  import opened Wrappers
  import opened HelperProtocol

  // ---- one step ---------------------------------------------------------------------------------

  /** A stop leaves the queue only into the hands of the worker that serves its request, or when that request has
      ended. */
  lemma QueueIsTaken(steps: seq<Step>, step: Step)
    requires Play(START, steps).Some? && Enabled(Play(START, steps).value, step)
    ensures var s := Play(START, steps).value; var t := Next(s, step);
            s.shared.pendingStop && !t.shared.pendingStop ==>
              || (Taken(t.worker) && t.asked == Serving(t.worker) == Serving(s.worker) == Some(s.shared.activeId))
              || s.worker.Clearing?
  {
    AlwaysInv(steps);
    StepKeeps(Play(START, steps).value, step);
    QueueStep(Play(START, steps).value, step);
  }

  lemma QueueStep(s: State, step: Step)
    requires Inv(s) && Enabled(s, step) && Inv(Next(s, step))
    ensures var t := Next(s, step);
            s.shared.pendingStop && !t.shared.pendingStop ==>
              || (Taken(t.worker) && t.asked == Serving(t.worker) == Serving(s.worker) == Some(s.shared.activeId))
              || s.worker.Clearing?
  {
    hide Tokens, StopsInOrder, SignalsOwn, NeverBusy, ChildrenAgree;
    if step.ReaderStep? && s.reader.Accepting? {
      assert !s.shared.running by { AcceptsWhenIdle(s); }
    }
  }

  lemma AcceptsWhenIdle(s: State)
    requires Inv(s) && s.reader.Accepting?
    ensures !s.shared.running && s.shared == IDLE
  {
    hide StopsInOrder, SignalsOwn, NeverBusy, ChildrenAgree, InboxHolds;
  }

  /** A worker that holds a stop gives it up only by signalling the child of the request the stop was for, or because
      the transport has failed. */
  lemma TakenIsSignalled(steps: seq<Step>, step: Step)
    requires Play(START, steps).Some? && Enabled(Play(START, steps).value, step)
    ensures var s := Play(START, steps).value; var t := Next(s, step);
            Taken(s.worker) && !Taken(t.worker) ==>
              || (t.failed && t.worker.Aborting?)
              || (&& s.asked.Some? && s.asked == Serving(s.worker) && ChildOf(s.worker).Some?
                  && t.signals == s.signals + [Signal(ChildOf(s.worker).value, StopOf(s.asked.value))]
                  && ChildOf(s.worker).value in s.children && s.children[ChildOf(s.worker).value] == s.asked.value)
  {
    AlwaysInv(steps);
    TakenStep(Play(START, steps).value, step);
  }

  lemma TakenStep(s: State, step: Step)
    requires Inv(s) && Enabled(s, step)
    ensures var t := Next(s, step);
            Taken(s.worker) && !Taken(t.worker) ==>
              || (t.failed && t.worker.Aborting?)
              || (&& s.asked.Some? && s.asked == Serving(s.worker) && ChildOf(s.worker).Some?
                  && t.signals == s.signals + [Signal(ChildOf(s.worker).value, StopOf(s.asked.value))]
                  && ChildOf(s.worker).value in s.children && s.children[ChildOf(s.worker).value] == s.asked.value)
  {
    hide StopsInOrder, SignalsOwn, NeverBusy, InboxHolds;
    if Taken(s.worker) && step.ReaderStep? {
      ReaderLeavesWorker(s, step.flag);
    }
  }

  /** The reader touches the worker only when that is over. */
  lemma ReaderLeavesWorker(s: State, flag: bool)
    requires Inv(s) && CanRead(s, flag) && !Over(s.worker)
    ensures ReaderNext(s, flag).worker == s.worker
  {
    hide StopsInOrder, SignalsOwn, NeverBusy, InboxHolds, ChildrenAgree;
  }

  /** A stop aimed at a child is signalled unless the child has been reaped, and the client is told which. */
  lemma KillingSignals(s: State, flag: bool)
    requires s.reader.Killing? && CanRead(s, flag)
    ensures var t := ReaderNext(s, flag);
            || (t.signals == s.signals + [Signal(s.reader.pid, StopOf(s.reader.cause))]
                && (s.failed || t.outbox == s.outbox + [StopResult(s.reader.active, true)]))
            || (s.reader.pid !in s.unreaped && t.signals == s.signals
                && (s.failed || t.outbox == s.outbox + [StopResult(s.reader.active, false)]))
    ensures Inv(s) ==> s.reader.pid in s.children && s.children[s.reader.pid] == s.reader.cause
  {
    hide Tokens, StopsInOrder, SignalsOwn, NeverBusy, InboxHolds;
  }

  // ---- all steps --------------------------------------------------------------------------------

  /** The stop for a request has been sent to its child. */
  predicate Signalled(s: State, pid: nat, id: nat) {
    exists i | 0 <= i < |s.signals| :: s.signals[i] == Signal(pid, StopOf(id))
  }

  /** The worker has announced its child and has not given it up. */
  predicate Attending(w: Worker) {
    w.Announcing? || w.Reading? || w.Line? || w.Delivering?
  }

  /** A queued stop waits for something; a stop that was queued for the request being served is queued, held or sent;
      and none has been queued for a request before it is served. */
  predicate StopsHeld(s: State) {
    && (s.shared.pendingStop && s.shared.activePid.Some? ==> s.shared.waits && !s.shared.hasOutput)
    && (s.asked.Some? ==> s.asked.value <= s.client.requestId)
    && (s.asked == Some(s.client.requestId) ==> !RunIn(s.inbox, s.client.requestId) && !BusyReader(s.reader))
    && (s.asked.Some? && s.asked == Serving(s.worker) ==>
          && (s.worker.Launching? || s.worker.Spawned? ==> s.shared.pendingStop)
          && (Attending(s.worker) ==>
                || s.shared.pendingStop || Taken(s.worker)
                || Signalled(s, ChildOf(s.worker).value, s.asked.value)))
    && (Attending(s.worker) ==> s.shared.activePid == ChildOf(s.worker))
    && (s.worker.Launching? || s.worker.Spawned? ==> s.shared.activePid.None?)
  }

  lemma SignalledMore(s: State, t: State, pid: nat, id: nat)
    requires s.signals <= t.signals && Signalled(s, pid, id)
    ensures Signalled(t, pid, id)
  {
    var i :| 0 <= i < |s.signals| && s.signals[i] == Signal(pid, StopOf(id));
    assert t.signals[i] == s.signals[i];
  }

  lemma ClientHolds(s: State, step: Step)
    requires Inv(s) && StopsHeld(s) && Enabled(s, step)
    requires !step.ReaderStep? && !step.WorkerStep? && !step.WorkerLine?
    ensures StopsHeld(Next(s, step))
  {
    hide StopsInOrder, SignalsOwn, NeverBusy, ChildrenAgree, SharedAgrees;
    var t := Next(s, step);
    assert t.signals == s.signals && t.shared == s.shared && t.worker == s.worker && t.asked == s.asked;
    assert t.reader == s.reader;
    if t.client.requestId == s.client.requestId {
      SameRuns(s, t);
    } else {
      assert t.client.requestId == s.client.requestId + 1;
    }
  }

  /** No request is put into the pipe again. */
  lemma SameRuns(s: State, t: State)
    requires s.inbox <= t.inbox && |t.inbox| <= |s.inbox| + 1
    requires |t.inbox| > |s.inbox| ==> !t.inbox[|s.inbox|].Run?
    ensures RunIn(t.inbox, s.client.requestId) ==> RunIn(s.inbox, s.client.requestId)
  {
    if RunIn(t.inbox, s.client.requestId) {
      var i :| 0 <= i < |t.inbox| && t.inbox[i].Run? && t.inbox[i].id == s.client.requestId;
      assert i < |s.inbox| && s.inbox[i] == t.inbox[i];
    }
  }

  lemma ReaderHolds(s: State, flag: bool)
    requires Inv(s) && StopsHeld(s) && CanRead(s, flag)
    ensures StopsHeld(ReaderNext(s, flag))
  {
    hide Inv, StopsHeld;
    if s.reader.Waiting? && !s.failed && s.inbox != [] {
      ReadHolds(s);
    } else if s.reader.Accepting? {
      AcceptHolds(s, flag);
    } else {
      OtherReaderHolds(s, flag);
    }
  }

  lemma AcceptHolds(s: State, flag: bool)
    requires Inv(s) && StopsHeld(s) && CanRead(s, flag) && s.reader.Accepting?
    ensures StopsHeld(ReaderNext(s, flag))
  {
    hide StopsInOrder, SignalsOwn, NeverBusy, ChildrenAgree, Signalled, RunIn, FinishedIn;
    AcceptsWhenIdle(s);
  }

  lemma OtherReaderHolds(s: State, flag: bool)
    requires Inv(s) && StopsHeld(s) && CanRead(s, flag) && !s.reader.Accepting?
    requires !(s.reader.Waiting? && !s.failed && s.inbox != [])
    ensures StopsHeld(ReaderNext(s, flag))
  {
    hide Inv, StopsHeld, ReaderNext, CanRead;
    OtherReader(s, flag);
    HeldSame(s, ReaderNext(s, flag));
  }

  /** What a step of the reader leaves alone that neither takes a request nor accepts one. */
  predicate Aside(s: State, t: State) {
    && t.shared == s.shared && t.asked == s.asked && t.client == s.client && t.inbox == s.inbox
    && (t.worker == s.worker || t.worker.NoThread?) && !BusyReader(t.reader) && s.signals <= t.signals
  }

  lemma OtherReader(s: State, flag: bool)
    requires CanRead(s, flag) && !s.reader.Accepting? && !(s.reader.Waiting? && !s.failed && s.inbox != [])
    ensures Aside(s, ReaderNext(s, flag))
  {
    hide ReaderNext, Aside, CanRead;
    if s.reader.Killing? || s.reader.Interrupting? {
      KillAside(s, flag);
    } else if s.reader.Waiting? || s.reader.Draining? || s.reader.Exited? {
      QuietAside(s, flag);
    } else {
      SpeakAside(s, flag);
    }
  }

  lemma KillAside(s: State, flag: bool)
    requires CanRead(s, flag) && (s.reader.Killing? || s.reader.Interrupting?)
    ensures Aside(s, ReaderNext(s, flag))
  {
  }

  lemma QuietAside(s: State, flag: bool)
    requires CanRead(s, flag) && (s.reader.Waiting? || s.reader.Draining? || s.reader.Exited?)
    requires !(s.reader.Waiting? && !s.failed && s.inbox != [])
    ensures Aside(s, ReaderNext(s, flag))
  {
  }

  lemma SpeakAside(s: State, flag: bool)
    requires CanRead(s, flag) && (s.reader.Starting? || s.reader.Rejecting? || s.reader.Replying? || s.reader.Joining?)
    ensures Aside(s, ReaderNext(s, flag))
  {
  }

  lemma HeldSame(s: State, t: State)
    requires StopsHeld(s) && Aside(s, t)
    ensures StopsHeld(t)
  {
    hide Signalled, RunIn, Taken;
    SignalledStill(s, t);
  }

  lemma SignalledStill(s: State, t: State)
    requires s.signals <= t.signals
    ensures forall pid, id | Signalled(s, pid, id) :: Signalled(t, pid, id)
  {
    forall pid, id | Signalled(s, pid, id) ensures Signalled(t, pid, id) {
      SignalledMore(s, t, pid, id);
    }
  }

  lemma ReadHolds(s: State)
    requires Inv(s) && StopsHeld(s) && s.reader.Waiting? && !s.failed && s.inbox != []
    ensures StopsHeld(ReadRequest(s))
  {
    hide StopsInOrder, SignalsOwn, NeverBusy, RunIn, Signalled;
    var t := ReadRequest(s);
    PopTokens(s);
    PopRuns(s);
    SignalledStill(s, t);
    if s.inbox[0].Stop? && s.shared.running {
      StopIsForActive(s);
      ServedIsRead(s);
    }
  }

  lemma PopRuns(s: State)
    requires s.inbox != []
    ensures RunIn(s.inbox[1..], s.client.requestId) ==> RunIn(s.inbox, s.client.requestId)
  {
    if i :| 0 <= i < |s.inbox[1..]| && s.inbox[1..][i].Run? && s.inbox[1..][i].id == s.client.requestId {
      assert s.inbox[i + 1].Run?;
    }
  }

  /** While a request is served its Run is not in the pipe. */
  lemma ServedIsRead(s: State)
    requires Inv(s) && s.shared.running
    ensures !RunIn(s.inbox, s.client.requestId) && Serving(s.worker) == Some(s.client.requestId)
  {
    hide StopsInOrder, SignalsOwn, NeverBusy, ChildrenAgree;
  }

  lemma WorkerHolds(s: State, flag: bool, pid: nat)
    requires Inv(s) && StopsHeld(s) && CanWork(s, flag, pid)
    ensures StopsHeld(WorkerNext(s, flag, pid))
  {
    hide StopsInOrder, SignalsOwn, NeverBusy, Tokens, RunIn, Signalled;
    var t := WorkerNext(s, flag, pid);
    assert s.signals <= t.signals;
    SignalledStill(s, t);
    if s.worker.Delivering? {
      assert flag;
      assert t.signals[|s.signals|] == Signal(s.worker.pid, QueuedBy(s.asked));
      SentLast(t);
    }
  }

  lemma SentLast(t: State)
    requires t.signals != [] && t.signals[|t.signals| - 1].cause.StopOf?
    ensures Signalled(t, t.signals[|t.signals| - 1].pid, t.signals[|t.signals| - 1].cause.id)
  {
  }

  lemma LineHolds(s: State)
    requires Inv(s) && StopsHeld(s) && s.worker.Reading?
    ensures StopsHeld(Next(s, WorkerLine))
  {
    hide StopsInOrder, SignalsOwn, NeverBusy, Tokens, RunIn, Signalled;
    SignalledStill(s, Next(s, WorkerLine));
  }

  lemma {:induction false} AlwaysHeld(steps: seq<Step>)
    requires Play(START, steps).Some?
    ensures StopsHeld(Play(START, steps).value)
  {
    hide Inv, StopsHeld, Next;
    if steps == [] {
      NoneHeld();
    } else {
      var front, step := steps[..|steps| - 1], steps[|steps| - 1];
      AlwaysHeld(front);
      AlwaysInv(front);
      var s := Play(START, front).value;
      match step
      case ReaderStep(flag) => StepIsRead(s, flag); ReaderHolds(s, flag);
      case WorkerStep(flag, pid) => StepIsWork(s, flag, pid); WorkerHolds(s, flag, pid);
      case WorkerLine => LineHolds(s);
      case _ => ClientHolds(s, step);
    }
  }

  lemma NoneHeld()
    ensures StopsHeld(START)
  {
  }

  lemma StepIsRead(s: State, flag: bool)
    requires Enabled(s, ReaderStep(flag))
    ensures Next(s, ReaderStep(flag)) == ReaderNext(s, flag)
  {
  }

  lemma StepIsWork(s: State, flag: bool, pid: nat)
    requires Enabled(s, WorkerStep(flag, pid))
    ensures Next(s, WorkerStep(flag, pid)) == WorkerNext(s, flag, pid)
  {
  }

  /** In every interleaving: once the program has produced output, or need not, a worker that goes on reading has sent
      every stop that was queued for its request to that request's child. */
  lemma QueuedStopArrives(steps: seq<Step>)
    requires Play(START, steps).Some?
    ensures var s := Play(START, steps).value;
            s.worker.Reading? && s.asked == Some(s.worker.id) && (s.shared.hasOutput || !s.shared.waits) ==>
              Signalled(s, s.worker.pid, s.worker.id)
              && s.worker.pid in s.children && s.children[s.worker.pid] == s.worker.id
  {
    hide Signalled;
    AlwaysHeld(steps);
    AlwaysInv(steps);
  }

  // ---- reports ----------------------------------------------------------------------------------

  /** The newest request is on its way, with the reader, with the worker, or reported, unless the helper is leaving or
      the transport has failed. */
  predicate RequestKept(s: State) {
    s.client.begun && !s.failed && !Leaving(s.reader) ==>
      || RunIn(s.inbox, s.client.requestId)
      || (BusyReader(s.reader) && s.reader.id == s.client.requestId)
      || Serving(s.worker) == Some(s.client.requestId)
      || FinishedIn(s.outbox, s.client.requestId)
  }

  predicate Leaving(r: Reader) {
    r.Draining? || r.Interrupting? || r.Joining? || r.Exited?
  }

  lemma RunPushed(inbox: seq<Request>, r: Request)
    ensures forall id | RunIn(inbox, id) :: RunIn(inbox + [r], id)
    ensures r.Run? ==> RunIn(inbox + [r], r.id)
  {
    forall id | RunIn(inbox, id) ensures RunIn(inbox + [r], id) {
      var i :| 0 <= i < |inbox| && inbox[i].Run? && inbox[i].id == id;
      assert (inbox + [r])[i] == inbox[i];
    }
    assert (inbox + [r])[|inbox|] == r;
  }

  lemma FinishedPushed(outbox: seq<Message>, m: Message)
    ensures forall id | FinishedIn(outbox, id) :: FinishedIn(outbox + [m], id)
    ensures m.Finished? ==> FinishedIn(outbox + [m], m.id)
  {
    forall id | FinishedIn(outbox, id) ensures FinishedIn(outbox + [m], id) {
      var i :| 0 <= i < |outbox| && outbox[i] == Finished(id);
      assert (outbox + [m])[i] == outbox[i];
    }
    assert (outbox + [m])[|outbox|] == m;
  }

  lemma FinishedEmitted(s: State)
    ensures forall m: Message, ok: bool, id: nat | FinishedIn(s.outbox, id) :: FinishedIn(Emit(s, m, ok).outbox, id)
    ensures forall ok: bool, id: nat | !Emit(s, Finished(id), ok).failed ::
              FinishedIn(Emit(s, Finished(id), ok).outbox, id)
  {
    hide FinishedIn;
    forall m: Message, ok: bool, id: nat | FinishedIn(s.outbox, id) ensures FinishedIn(Emit(s, m, ok).outbox, id) {
      FinishedPushed(s.outbox, m);
    }
    forall ok: bool, id: nat | !Emit(s, Finished(id), ok).failed
      ensures FinishedIn(Emit(s, Finished(id), ok).outbox, id) {
      FinishedPushed(s.outbox, Finished(id));
    }
  }

  lemma HandleKeepsRequest(s: State, waits: bool, valid: bool)
    requires Inv(s) && RequestKept(s) && s.outbox != [] && !s.client.closed
    ensures RequestKept(HandleOne(s, waits, valid))
  {
    hide StopsInOrder, SignalsOwn, NeverBusy, ChildrenAgree, SharedAgrees, RunIn, InboxHolds;
    var m := s.outbox[0];
    var t := s.(outbox := s.outbox[1..], client := Handled(s.client, m));
    if m.Ready? && t.client.active && !t.client.begun {
      RunPushed(t.inbox, Run(t.client.requestId + 1, waits, valid));
    } else if FinishedIn(s.outbox, s.client.requestId) && t.client.begun {
      var i :| 0 <= i < |s.outbox| && s.outbox[i] == Finished(s.client.requestId);
      assert i > 0 && s.outbox[1..][i - 1] == s.outbox[i];
    }
  }

  lemma ClientKeepsRequest(s: State, step: Step)
    requires Inv(s) && RequestKept(s) && Enabled(s, step)
    requires step.ClientRun? || step.ClientStop? || step.ClientQuit? || step.ClientClose?
    ensures RequestKept(Next(s, step))
  {
    hide RunIn, FinishedIn, Inv;
    match step
    case ClientRun(waits, valid) => RunPushed(s.inbox, Run(s.client.requestId + 1, waits, valid));
    case ClientStop => RunPushed(s.inbox, Stop(s.client.requestId));
    case ClientQuit => RunPushed(s.inbox, Quit);
    case _ =>
  }

  lemma ReaderKeepsRequest(s: State, flag: bool)
    requires Inv(s) && RequestKept(s) && CanRead(s, flag)
    ensures RequestKept(ReaderNext(s, flag))
  {
    hide StopsInOrder, SignalsOwn, NeverBusy, ChildrenAgree, FinishedIn;
    FinishedEmitted(s);
    if s.reader.Waiting? && !s.failed && s.inbox != [] {
      TakenFromPipe(s);
    } else if s.reader.Killing? {
      FinishedEmitted(Kill(s, s.reader.pid, StopOf(s.reader.cause), flag));
    } else {
      hide RunIn;
    }
  }

  lemma TakenFromPipe(s: State)
    requires Inv(s) && RequestKept(s) && s.reader.Waiting? && !s.failed && s.inbox != []
    ensures RequestKept(ReadRequest(s))
  {
    hide StopsInOrder, SignalsOwn, NeverBusy, ChildrenAgree, FinishedIn;
    PopTokens(s);
    if s.inbox[0].Run? {
      ReadRunKeeps(s);
    } else if RunIn(s.inbox, s.client.requestId) {
      var i :| 0 <= i < |s.inbox| && s.inbox[i].Run? && s.inbox[i].id == s.client.requestId;
      assert s.inbox[1..][i - 1] == s.inbox[i];
      assert RunIn(s.inbox[1..], s.client.requestId);
    }
  }

  lemma WorkerKeepsRequest(s: State, flag: bool, pid: nat)
    requires Inv(s) && RequestKept(s) && CanWork(s, flag, pid)
    ensures RequestKept(WorkerNext(s, flag, pid))
  {
    hide StopsInOrder, SignalsOwn, NeverBusy, ChildrenAgree, RunIn, FinishedIn, InboxHolds;
    FinishedEmitted(s);
    if s.worker.Delivering? {
      FinishedEmitted(Kill(s, s.worker.pid, QueuedBy(s.asked), flag));
    }
  }

  /** In every interleaving, while the helper runs and can be written to, a submitted request is on its way, being
      served, or reported: none is lost. */
  lemma {:induction false} RequestNotLost(steps: seq<Step>)
    requires Play(START, steps).Some?
    ensures RequestKept(Play(START, steps).value)
  {
    hide Inv, RequestKept, Next;
    if steps == [] {
      NothingAsked();
    } else {
      var front, step := steps[..|steps| - 1], steps[|steps| - 1];
      RequestNotLost(front);
      AlwaysInv(front);
      var s := Play(START, front).value;
      match step
      case ClientHandle(waits, valid) => StepIsHandled(s, waits, valid); HandleKeepsRequest(s, waits, valid);
      case ReaderStep(flag) => StepIsRead(s, flag); ReaderKeepsRequest(s, flag);
      case WorkerStep(flag, pid) => StepIsWork(s, flag, pid); WorkerKeepsRequest(s, flag, pid);
      case WorkerLine => LineKeepsRequest(s);
      case _ => ClientKeepsRequest(s, step);
    }
  }

  lemma NothingAsked()
    ensures RequestKept(START)
  {
  }

  lemma StepIsHandled(s: State, waits: bool, valid: bool)
    requires Enabled(s, ClientHandle(waits, valid))
    ensures Next(s, ClientHandle(waits, valid)) == HandleOne(s, waits, valid)
  {
  }

  lemma LineKeepsRequest(s: State)
    requires RequestKept(s) && s.worker.Reading?
    ensures RequestKept(Next(s, WorkerLine))
  {
    hide RunIn, FinishedIn;
  }

  // ---- shutting down ----------------------------------------------------------------------------

  /** The helper's shutdown has been signalled to a child, or the child has been reaped. */
  predicate Interrupted(s: State, pid: nat) {
    pid !in s.unreaped || exists i | 0 <= i < |s.signals| :: s.signals[i] == Signal(pid, Shutdown)
  }

  predicate InterruptsHeld(s: State) {
    s.reader.Draining? && s.reader.signalled.Some? ==>
      s.reader.signalled.value in s.children && Interrupted(s, s.reader.signalled.value)
  }

  lemma InterruptedStill(s: State, t: State, pid: nat)
    requires Interrupted(s, pid) && s.signals <= t.signals && (pid in t.unreaped ==> pid in s.unreaped)
    ensures Interrupted(t, pid)
  {
    if i :| 0 <= i < |s.signals| && s.signals[i] == Signal(pid, Shutdown) {
      assert t.signals[i] == s.signals[i];
    }
  }

  lemma ReaderInterrupts(s: State, flag: bool)
    requires Inv(s) && InterruptsHeld(s) && CanRead(s, flag)
    ensures InterruptsHeld(ReaderNext(s, flag))
  {
    hide Tokens, StopsInOrder, SignalsOwn, NeverBusy, SharedAgrees;
    var t := ReaderNext(s, flag);
    if s.reader.Draining? && s.reader.signalled.Some? {
      InterruptedStill(s, t, s.reader.signalled.value);
    } else if s.reader.Interrupting? && flag {
      assert t.signals[|s.signals|] == Signal(s.reader.pid, Shutdown);
    }
  }

  lemma OthersInterrupt(s: State, step: Step)
    requires InterruptsHeld(s) && Enabled(s, step) && !step.ReaderStep?
    ensures InterruptsHeld(Next(s, step))
  {
    if s.reader.Draining? && s.reader.signalled.Some? {
      InterruptedStill(s, Next(s, step), s.reader.signalled.value);
    }
  }

  lemma {:induction false} AlwaysInterrupts(steps: seq<Step>)
    requires Play(START, steps).Some?
    ensures InterruptsHeld(Play(START, steps).value)
  {
    hide Inv, InterruptsHeld, Next;
    if steps == [] {
      NoneInterrupted();
    } else {
      var front, step := steps[..|steps| - 1], steps[|steps| - 1];
      AlwaysInterrupts(front);
      AlwaysInv(front);
      var s := Play(START, front).value;
      if step.ReaderStep? {
        StepIsRead(s, step.flag);
        ReaderInterrupts(s, step.flag);
      } else {
        OthersInterrupt(s, step);
      }
    }
  }

  lemma NoneInterrupted()
    ensures InterruptsHeld(START)
  {
  }

  /** In every interleaving, a helper that shuts down while a child is known takes its next step to interrupt that
      child, unless it has done so already or the child has been reaped. */
  lemma ShutdownInterrupts(steps: seq<Step>, flag: bool)
    requires Play(START, steps).Some?
    requires var s := Play(START, steps).value; s.reader.Draining? && s.shared.activePid.Some? && CanRead(s, flag)
    ensures var s := Play(START, steps).value; var t := ReaderNext(s, flag);
            || (t.reader.Interrupting? && Some(t.reader.pid) == s.shared.activePid)
            || (t.reader == s.reader && Interrupted(s, s.shared.activePid.value))
  {
    hide Interrupted, Tokens, StopsInOrder, SignalsOwn, NeverBusy, ChildrenAgree;
    AlwaysInterrupts(steps);
    AlwaysInv(steps);
  }

  /** That step signals it, unless it has been reaped. */
  lemma InterruptSignals(s: State, flag: bool)
    requires s.reader.Interrupting? && CanRead(s, flag)
    ensures var t := ReaderNext(s, flag);
            || t.signals == s.signals + [Signal(s.reader.pid, Shutdown)]
            || (s.reader.pid !in s.unreaped && t.signals == s.signals)
  {
  }

  // ---- ending -----------------------------------------------------------------------------------

  /** Steps the worker has left at most. */
  function WorkLeft(w: Worker): nat {
    match w
    case NoThread => 0
    case Ended => 0
    case Launching(_) => 8
    case Spawned(_, _) => 8
    case Announcing(_, _, _) => 7
    case Line(_, _, _) => 6
    case Delivering(_, _) => 5
    case Reading(_, _) => 4
    case Aborting(_, _) => 3
    case Reaping(_, _) => 3
    case Clearing(_) => 2
    case Reporting(_) => 1
  }

  function StepsLeft(s: State): nat {
    4 * WorkLeft(s.worker)
    + match s.reader
      case Draining(signalled, _) =>
        if s.shared.activePid.Some? && s.shared.activePid != signalled then 4 else 2
      case Interrupting(pid, _, _) => if s.shared.activePid.Some? && s.shared.activePid != Some(pid) then 5 else 3
      case Joining(_) => 1
      case _ => 0
  }

  /** The reader can do no more before the worker goes on. */
  predicate WaitsForWorker(s: State) {
    || (s.reader.Joining? && !Over(s.worker))
    || (s.reader.Draining? && s.shared.running
        && (s.shared.activePid.None? || s.shared.activePid == s.reader.signalled))
  }

  /** What the helper does next when nothing goes wrong: the reader interrupts and joins, the worker goes on. */
  function Onward(s: State): Step {
    if WaitsForWorker(s) then WorkerStep(!s.worker.Launching?, 0) else ReaderStep(true)
  }

  lemma WorkerGoesOn(s: State)
    requires Inv(s) && Leaving(s.reader) && WaitsForWorker(s)
    ensures var step := WorkerStep(!s.worker.Launching?, 0);
            && Enabled(s, step) && Next(s, step).reader == s.reader
            && StepsLeft(Next(s, step)) < StepsLeft(s)
  {
    hide Tokens, StopsInOrder, SignalsOwn, NeverBusy, ChildrenAgree;
  }

  lemma ReaderGoesOn(s: State)
    requires Inv(s) && Leaving(s.reader) && !s.reader.Exited? && !WaitsForWorker(s)
    ensures var step := ReaderStep(true);
            && Enabled(s, step) && Leaving(Next(s, step).reader)
            && StepsLeft(Next(s, step)) < StepsLeft(s)
  {
    hide Tokens, StopsInOrder, SignalsOwn, NeverBusy, ChildrenAgree, WorkLeft;
    assert WorkLeft(NoThread) == WorkLeft(Ended) == 0 by { NoWorkLeft(); }
  }

  lemma NoWorkLeft()
    ensures WorkLeft(NoThread) == WorkLeft(Ended) == 0
  {
  }

  /** In every interleaving, a helper that has begun to shut down can still end. */
  lemma {:induction false} ShutdownEnds(steps: seq<Step>) returns (more: seq<Step>)
    requires Play(START, steps).Some? && Leaving(Play(START, steps).value.reader)
    ensures Play(START, steps + more).Some? && Play(START, steps + more).value.reader.Exited?
    decreases StepsLeft(Play(START, steps).value)
  {
    hide Inv, Next, StepsLeft, Enabled, WaitsForWorker;
    var s := Play(START, steps).value;
    more := [];
    if s.reader.Exited? {
      assert steps + more == steps;
    } else {
      AlwaysInv(steps);
      if WaitsForWorker(s) { WorkerGoesOn(s); } else { ReaderGoesOn(s); }
      var next := steps + [Onward(s)];
      assert next[..|steps|] == steps;
      more := ShutdownEnds(next);
      assert next + more == steps + ([Onward(s)] + more);
      more := [Onward(s)] + more;
    }
  }
}
