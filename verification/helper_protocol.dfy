/** The privileged helper and its client: two helper threads, one child at a time, and two FIFO pipes, as interleaved
    atomic steps. A step of the helper is one critical section, one system call or one message. */
module HelperProtocol {
  import opened Wrappers

  // ---- messages ---------------------------------------------------------------------------------

  /** What the client writes. waits says that the program must produce output before it may be interrupted;
      valid is whether argv is a list of strings. */
  datatype Request = Run(id: nat, waits: bool, valid: bool) | Stop(id: nat) | Quit

  /** What the helper writes. Busy is the refusal "another privileged operation is already active". */
  datatype Message = Ready | Busy(id: nat) | Finished(id: nat) | StopResult(active: nat,
      delivered: bool) | Other(id: nat) | Bye

  // ---- the helper's shared fields ---------------------------------------------------------------

  /** The fields guarded by the helper's mutex. */
  datatype Shared = Shared(
    activePid: Option<nat>,
    activeId: nat,
    hasOutput: bool,
    waits: bool,
    pendingStop: bool,
    running: bool)

  const IDLE := Shared(None, 0, false, false, false, false)

  predicate Occupied(f: Shared) {
    f.running || f.activePid.Some?
  }

  /** Accepting a request. */
  function Begun(f: Shared, id: nat, waits: bool): Shared {
    f.(running := true, activeId := id, waits := waits, pendingStop := false)
  }

  /** A stop is queued while there is no child yet, or while the child has to produce output first. */
  predicate Defers(f: Shared) {
    f.running && (f.activePid.None? || (f.waits && !f.hasOutput))
  }

  function Queued(f: Shared): Shared {
    f.(pendingStop := f.pendingStop || Defers(f))
  }

  datatype Reply = NoOperation | Deferred | Deliver(pid: nat)

  /** What a stop request is answered with. */
  function Answer(f: Shared): Reply {
    if Defers(f) then Deferred
    else if f.activePid.Some? then Deliver(f.activePid.value)
    else NoOperation
  }

  predicate StopsOnStart(f: Shared) {
    f.pendingStop && !f.waits
  }

  /** The child's pid becomes known; a queued stop of a program that need not wait is taken now. */
  function Published(f: Shared, id: nat, pid: nat): Shared {
    f.(activePid := Some(pid), activeId := id, hasOutput := false, pendingStop := f.pendingStop && !StopsOnStart(f))
  }

  predicate TakesQueued(f: Shared) {
    !f.hasOutput && f.pendingStop
  }

  /** A line of output: the first one takes a queued stop. */
  function SawOutput(f: Shared): Shared {
    if f.hasOutput then f else f.(hasOutput := true, pendingStop := false)
  }

  // ---- threads ----------------------------------------------------------------------------------

  datatype Reader =
    | Starting
    | Waiting
    | Rejecting(id: nat)
    | Accepting(id: nat, waits: bool)
    | Replying(active: nat, delivered: bool)
    | Killing(pid: nat, active: nat, cause: nat)
    | Draining(signalled: Option<nat>, bye: bool)
    | Interrupting(pid: nat, running: bool, bye: bool)
    | Joining(bye: bool)
    | Exited

  datatype Worker =
    | NoThread
    | Launching(id: nat)
    | Spawned(id: nat, pid: nat)
    | Announcing(id: nat, pid: nat, stop: bool)
    | Reading(id: nat, pid: nat)
    | Line(id: nat, pid: nat, queued: bool)
    | Delivering(id: nat, pid: nat)
    | Aborting(id: nat, pid: nat)
    | Reaping(id: nat, pid: nat)
    | Clearing(id: nat)
    | Reporting(id: nat)
    | Ended

  /** Why a signal was sent: a Stop for a request, the helper's shutdown, or a worker giving its own child up. */
  datatype Cause = StopOf(id: nat) | Shutdown | GivingUp

  datatype Signal = Signal(pid: nat, cause: Cause)

  /** The client's view: a request may be held until the helper is ready; begun is its submission. */
  datatype Client = Client(active: bool, begun: bool, requestId: nat, ready: bool, closed: bool)

  /** children, asked and signals are history: which request each child was spawned for, the request named by the last
      Stop that was queued, and every signal with the reason it was sent. */
  datatype State = State(
    client: Client,
    inbox: seq<Request>,
    outbox: seq<Message>,
    failed: bool,
    shared: Shared,
    reader: Reader,
    worker: Worker,
    children: map<nat, nat>,
    unreaped: set<nat>,
    asked: Option<nat>,
    signals: seq<Signal>)

  const START := State(Client(false, false, 0, false, false), [], [], false, IDLE, Starting, NoThread, map[], {}, None,
      [])

  /** Every possible step. flag is what the environment decides: whether a message gets through, a signal is delivered,
      a program may run. */
  datatype Step =
    | ClientRun(waits: bool, valid: bool)
    | ClientStop
    | ClientQuit
    | ClientClose
    | ClientHandle(waits: bool, valid: bool)
    | ReaderStep(flag: bool)
    | WorkerStep(flag: bool, pid: nat)
    | WorkerLine

  /** A message is lost once the transport has failed; a failed write makes it fail. */
  function Emit(s: State, m: Message, ok: bool): State {
    if s.failed then s else if ok then s.(outbox := s.outbox + [m]) else s.(failed := true)
  }

  function Send(s: State, r: Request): State {
    s.(inbox := s.inbox + [r])
  }

  function Begin(s: State, waits: bool, valid: bool): State {
    var id := s.client.requestId + 1;
    Send(s.(client := s.client.(active := true, begun := true, requestId := id)), Run(id, waits, valid))
  }

  /** The client's handling of one message. */
  function Handled(c: Client, m: Message): Client {
    match m
    case Ready => c.(ready := true)
    case Finished(id) => if c.begun && id == c.requestId then c.(active := false, begun := false) else c
    case _ => c
  }

  function HandleOne(s: State, waits: bool, valid: bool): State
    requires s.outbox != []
  {
    var m := s.outbox[0];
    var t := s.(outbox := s.outbox[1..], client := Handled(s.client, m));
    if m.Ready? && t.client.active && !t.client.begun then Begin(t, waits, valid) else t
  }

  /** What one line on standard input starts. */
  function ReadRequest(s: State): State
    requires s.inbox != []
  {
    var t := s.(inbox := s.inbox[1..]);
    match s.inbox[0]
    case Run(id, waits, valid) =>
      if !valid then t.(reader := Rejecting(id))
      else if Occupied(s.shared) then Emit(Emit(t, Busy(id), true), Finished(id), true)
      else t.(reader := Accepting(id, waits))
    case Stop(id) =>
      var f := s.shared;
      var u := t.(shared := Queued(f));
      match Answer(f) {
        case NoOperation => u.(reader := Replying(f.activeId, false))
        case Deferred => u.(reader := Replying(f.activeId, true), asked := Some(id))
        case Deliver(pid) => u.(reader := Killing(pid, f.activeId, id))
      }
    case Quit => t.(reader := Draining(None, true))
  }

  predicate Over(w: Worker) {
    w.NoThread? || w.Ended?
  }

  predicate CanRead(s: State, flag: bool) {
    match s.reader
    case Starting => true
    case Waiting => s.inbox != [] || s.client.closed || s.failed
    case Accepting(_, _) => Over(s.worker)
    case Joining(_) => Over(s.worker)
    case Killing(pid, _, _) => flag || pid !in s.unreaped
    case Interrupting(pid, _, _) => flag || pid !in s.unreaped
    case Exited => false
    case _ => true
  }

  function Kill(s: State, pid: nat, cause: Cause, ok: bool): State {
    if ok then s.(signals := s.signals + [Signal(pid, cause)]) else s
  }

  function ReaderNext(s: State, flag: bool): State
    requires CanRead(s, flag)
  {
    match s.reader
    case Starting => if flag then Emit(s, Ready, true).(reader := Waiting)
        else Emit(s, Ready, false).(reader := Draining(None, false))
    case Waiting => if s.failed || s.inbox == [] then s.(reader := Draining(None, false)) else ReadRequest(s)
    case Rejecting(id) => Emit(s, Finished(id), flag).(reader := Waiting)
    case Accepting(id, waits) => s.(shared := Begun(s.shared, id, waits), worker := Launching(id), reader := Waiting)
    case Replying(active, delivered) => Emit(s, StopResult(active, delivered), flag).(reader := Waiting)
    case Killing(pid, active, cause) => Emit(Kill(s, pid, StopOf(cause), flag), StopResult(active, flag),
        true).(reader := Waiting)
    case Draining(signalled, bye) =>
      var f := s.shared;
      if f.activePid.Some?
          && f.activePid != signalled then s.(reader := Interrupting(f.activePid.value, f.running, bye))
      else if f.running then s
      else s.(reader := Joining(bye))
    case Interrupting(pid, running, bye) =>
      Kill(s, pid, Shutdown, flag).(reader := if running then Draining(Some(pid), bye) else Joining(bye))
    case Joining(bye) => (if bye then Emit(s, Bye, flag) else s).(worker := NoThread, reader := Exited)
  }

  function QueuedBy(asked: Option<nat>): Cause {
    if asked.Some? then StopOf(asked.value) else GivingUp
  }

  predicate CanWork(s: State, flag: bool, pid: nat) {
    match s.worker
    case NoThread => false
    case Ended => false
    case Launching(_) => flag ==> pid !in s.children
    case Announcing(_, _, _) => true
    case Delivering(_, p) => flag || p !in s.unreaped
    case _ => true
  }

  function WorkerNext(s: State, flag: bool, pid: nat): State
    requires CanWork(s, flag, pid)
  {
    match s.worker
    case Launching(id) =>
      if flag then s.(worker := Spawned(id, pid), children := s.children[pid := id], unreaped := s.unreaped + {pid})
      else Emit(s, Other(id), true).(worker := Clearing(id))
    case Spawned(id, p) => s.(shared := Published(s.shared, id, p), worker := Announcing(id, p, StopsOnStart(s.shared)))
    case Announcing(id, p, stop) =>
      var t := Emit(s, Other(id), flag);
      t.(worker := if t.failed then Aborting(id, p) else if stop then Delivering(id, p) else Reading(id, p))
    case Reading(id, p) => s.(worker := Reaping(id, p))
    case Line(id, p, queued) =>
      var t := Emit(s, Other(id), flag);
      t.(worker := if t.failed then Aborting(id, p) else if queued then Delivering(id, p) else Reading(id, p))
    case Delivering(id, p) =>
      Emit(Kill(s, p, QueuedBy(s.asked), flag), StopResult(id, flag), true).(worker := Reading(id, p))
    case Aborting(id, p) => Kill(s, p, GivingUp, flag).(unreaped := s.unreaped - {p}, worker := Clearing(id))
    case Reaping(id, p) => s.(unreaped := s.unreaped - {p}, worker := Clearing(id))
    case Clearing(id) => s.(shared := IDLE, worker := Reporting(id))
    case Reporting(id) => Emit(s, Finished(id), flag).(worker := Ended)
  }

  predicate Enabled(s: State, step: Step) {
    match step
    case ClientRun(_, _) => !s.client.active && !s.client.closed
    case ClientStop => s.client.active && !s.client.closed
    case ClientQuit => !s.client.closed
    case ClientClose => true
    case ClientHandle(_, _) => s.outbox != [] && !s.client.closed
    case ReaderStep(flag) => CanRead(s, flag)
    case WorkerStep(flag, pid) => CanWork(s, flag, pid)
    case WorkerLine => s.worker.Reading?
  }

  function Next(s: State, step: Step): State
    requires Enabled(s, step)
  {
    match step
    case ClientRun(waits, valid) =>
      if s.client.ready then Begin(s, waits, valid) else s.(client := s.client.(active := true))
    case ClientStop => Send(s, Stop(s.client.requestId))
    case ClientQuit => Send(s, Quit)
    case ClientClose => s.(client := s.client.(closed := true))
    case ClientHandle(waits, valid) => HandleOne(s, waits, valid)
    case ReaderStep(flag) => ReaderNext(s, flag)
    case WorkerStep(flag, pid) => WorkerNext(s, flag, pid)
    case WorkerLine =>
      s.(shared := SawOutput(s.shared), worker := Line(s.worker.id, s.worker.pid, TakesQueued(s.shared)))
  }

  /** The state a sequence of steps leads to; None when some step is not enabled where it is taken. */
  function Play(s: State, steps: seq<Step>): Option<State> {
    if steps == [] then Some(s)
    else
      match Play(s, steps[..|steps| - 1])
      case None => None
      case Some(mid) => if Enabled(mid, steps[|steps| - 1]) then Some(Next(mid, steps[|steps| - 1])) else None
  }

  // ---- the invariant ----------------------------------------------------------------------------

  predicate RunIn(inbox: seq<Request>, id: nat) {
    exists i | 0 <= i < |inbox| :: inbox[i].Run? && inbox[i].id == id
  }

  /** The request a worker is serving, until it has reported. */
  function Serving(w: Worker): Option<nat> {
    match w
    case NoThread => None
    case Ended => None
    case Launching(id) => Some(id)
    case Spawned(id, _) => Some(id)
    case Announcing(id, _, _) => Some(id)
    case Reading(id, _) => Some(id)
    case Line(id, _, _) => Some(id)
    case Delivering(id, _) => Some(id)
    case Aborting(id, _) => Some(id)
    case Reaping(id, _) => Some(id)
    case Clearing(id) => Some(id)
    case Reporting(id) => Some(id)
  }

  /** The child a worker has not reaped. */
  function ChildOf(w: Worker): Option<nat> {
    match w
    case Spawned(_, pid) => Some(pid)
    case Announcing(_, pid, _) => Some(pid)
    case Reading(_, pid) => Some(pid)
    case Line(_, pid, _) => Some(pid)
    case Delivering(_, pid) => Some(pid)
    case Aborting(_, pid) => Some(pid)
    case Reaping(_, pid) => Some(pid)
    case _ => None
  }

  /** The newest request is in at most one place: on its way, with the reader, with the worker, or reported. */
  predicate InboxHolds(s: State) {
    && (forall i | 0 <= i < |s.inbox| && s.inbox[i].Run? :: s.client.begun && s.inbox[i].id == s.client.requestId)
    && (forall i, j | 0 <= i < j < |s.inbox| && s.inbox[i].Run? :: !s.inbox[j].Run?)
    && (RunIn(s.inbox, s.client.requestId) ==>
         !BusyReader(s.reader) && Over(s.worker)
         && !FinishedIn(s.outbox, s.client.requestId))
  }

  predicate BusyReader(r: Reader) {
    r.Rejecting? || r.Accepting?
  }

  predicate FinishedIn(outbox: seq<Message>, id: nat) {
    exists i | 0 <= i < |outbox| :: outbox[i] == Finished(id)
  }

  predicate Tokens(s: State) {
    && InboxHolds(s)
    && (BusyReader(s.reader) ==>
         s.client.begun && s.reader.id == s.client.requestId && Over(s.worker)
         && !FinishedIn(s.outbox, s.client.requestId))
    && (Serving(s.worker).Some? ==>
         s.client.begun && Serving(s.worker).value == s.client.requestId
         && !FinishedIn(s.outbox, s.client.requestId))
    && (forall i | 0 <= i < |s.outbox| && s.outbox[i].Finished? ::
         s.client.begun && s.outbox[i].id == s.client.requestId)
    && (forall i, j | 0 <= i < j < |s.outbox| && s.outbox[i].Finished? :: !s.outbox[j].Finished?)
    && (s.client.begun ==> s.client.active)
  }

  /** A Stop in flight is for the newest request, unless that request's Run is still behind it. */
  predicate StopsInOrder(s: State) {
    forall i | 0 <= i < |s.inbox| && s.inbox[i].Stop? :: s.inbox[i].id == s.client.requestId || RunAfter(s.inbox, i)
  }

  predicate RunAfter(inbox: seq<Request>, i: nat) {
    exists j | i < j < |inbox| :: inbox[j].Run?
  }

  /** The mutex-protected fields say where the worker is. */
  predicate SharedAgrees(s: State) {
    && (s.shared.running <==> Serving(s.worker).Some? && !s.worker.Reporting?)
    && (s.shared.running ==> s.shared.activeId == Serving(s.worker).value)
    && (!s.shared.running ==> s.shared == IDLE)
    && (s.shared.activePid.Some? ==>
          s.shared.activePid.value in s.children && s.children[s.shared.activePid.value] == s.shared.activeId)
  }

  /** Children belong to the requests they were spawned for. */
  predicate ChildrenAgree(s: State) {
    && s.unreaped == (if ChildOf(s.worker).Some? then {ChildOf(s.worker).value} else {})
    && (ChildOf(s.worker).Some? ==>
         ChildOf(s.worker).value in s.children
         && s.children[ChildOf(s.worker).value] == Serving(s.worker).value)
    && (s.reader.Killing? ==> s.reader.pid in s.children && s.children[s.reader.pid] == s.reader.cause)
    && (s.reader.Interrupting? ==> s.reader.pid in s.children)
    && (forall p | p in s.children :: s.children[p] <= s.client.requestId)
  }

  /** Every signal sent for a Stop went to the child of the very request the Stop was for. */
  predicate SignalsOwn(s: State) {
    forall i | 0 <= i < |s.signals| ::
      && s.signals[i].pid in s.children
      && (s.signals[i].cause.StopOf? ==> s.children[s.signals[i].pid] == s.signals[i].cause.id)
  }

  /** A queued Stop, and one the worker has taken off the queue, was for the request being served. */
  predicate QueueOwn(s: State) {
    && (s.shared.pendingStop ==> s.asked == Some(s.shared.activeId))
    && (Taken(s.worker) ==> s.asked == Serving(s.worker))
  }

  /** The worker holds a Stop it took from the queue and has not delivered. */
  predicate Taken(w: Worker) {
    (w.Announcing? && w.stop) || (w.Line? && w.queued) || w.Delivering?
  }

  predicate NeverBusy(s: State) {
    forall i | 0 <= i < |s.outbox| :: !s.outbox[i].Busy?
  }

  predicate ExitsClean(s: State) {
    && (s.reader.Exited? ==> Over(s.worker)) && (s.reader.Joining? ==> !s.shared.running)
    && (s.reader.Interrupting? ==> s.reader.running)
  }

  predicate Inv(s: State) {
    && Tokens(s) && SharedAgrees(s) && ChildrenAgree(s) && SignalsOwn(s) && QueueOwn(s) && NeverBusy(s) && ExitsClean(s)
       && StopsInOrder(s)
  }

  // ---- every step keeps it ----------------------------------------------------------------------

  lemma ClientKeeps(s: State, step: Step)
    requires Inv(s) && Enabled(s, step)
    requires step.ClientRun? || step.ClientStop? || step.ClientQuit? || step.ClientClose?
    ensures Inv(Next(s, step))
  {
    if step.ClientRun? && s.client.ready {
      BeginKeeps(s, step.waits, step.valid);
    } else {
      hide StopsInOrder;
      SendOrder(s, Next(s, step));
      KeptSignals(s, Next(s, step));
    }
  }

  lemma SendOrder(s: State, t: State)
    requires StopsInOrder(s) && s.inbox <= t.inbox && |t.inbox| <= |s.inbox| + 1
    requires |t.inbox| == |s.inbox| ==> t.client.requestId == s.client.requestId
    requires |t.inbox| > |s.inbox| ==> var r := t.inbox[|s.inbox|];
             if r.Run? then true
                 else t.client.requestId == s.client.requestId && (r.Stop? ==> r.id == t.client.requestId)
    ensures StopsInOrder(t)
  {
    forall i | 0 <= i < |t.inbox| && t.inbox[i].Stop?
      ensures t.inbox[i].id == t.client.requestId || RunAfter(t.inbox, i) {
      if i < |s.inbox| {
        assert s.inbox[i] == t.inbox[i];
        if RunAfter(s.inbox, i) {
          var j :| i < j < |s.inbox| && s.inbox[j].Run?;
          assert t.inbox[j] == s.inbox[j];
        }
      }
    }
  }

  lemma HandleKeeps(s: State, waits: bool, valid: bool)
    requires Inv(s) && s.outbox != [] && !s.client.closed
    ensures Inv(HandleOne(s, waits, valid))
  {
    hide Inv;
    var t := s.(outbox := s.outbox[1..], client := Handled(s.client, s.outbox[0]));
    TakeKeeps(s);
    if s.outbox[0].Ready? && t.client.active && !t.client.begun {
      BeginKeeps(t, waits, valid);
    }
  }

  lemma TakeKeeps(s: State)
    requires Inv(s) && s.outbox != []
    ensures Inv(s.(outbox := s.outbox[1..], client := Handled(s.client, s.outbox[0])))
  {
    hide StopsInOrder;
    var t := s.(outbox := s.outbox[1..], client := Handled(s.client, s.outbox[0]));
    SameStops(s, t);
    KeptSignals(s, t);
  }

  lemma SameStops(s: State, t: State)
    requires StopsInOrder(s) && t.inbox == s.inbox && t.client.requestId == s.client.requestId
    ensures StopsInOrder(t)
  {
  }

  lemma BeginKeeps(s: State, waits: bool, valid: bool)
    requires Inv(s) && !s.client.begun
    ensures Inv(Begin(s, waits, valid))
  {
    hide StopsInOrder;
    var t := Begin(s, waits, valid);
    SendOrder(s, t);
    KeptSignals(s, t);
  }

  lemma ReaderKeeps(s: State, flag: bool)
    requires Inv(s) && CanRead(s, flag) && !(s.reader.Waiting? && !s.failed && s.inbox != [])
    ensures Inv(ReaderNext(s, flag))
  {
    hide Inv;
    if s.reader.Accepting? {
      AcceptKeeps(s, flag);
    } else if s.reader.Rejecting? {
      RejectKeeps(s, flag);
    } else if s.reader.Killing? || s.reader.Interrupting? {
      KillKeeps(s, flag);
    } else {
      QuietReaderKeeps(s, flag);
    }
  }

  lemma AcceptKeeps(s: State, flag: bool)
    requires Inv(s) && CanRead(s, flag) && s.reader.Accepting?
    ensures Inv(ReaderNext(s, flag))
  {
    hide StopsInOrder, RunAfter, RunIn;
    var t := ReaderNext(s, flag);
    SameOrder(s, t);
    KeptSignals(s, t);
    assert Serving(s.worker).None?;
    NotInPipe(s);
    assert t.shared == Shared(None, s.reader.id, false, s.reader.waits, false, true);
  }

  /** While the reader holds the newest request it is not in the pipe as well. */
  lemma NotInPipe(s: State)
    requires InboxHolds(s) && BusyReader(s.reader)
    ensures !RunIn(s.inbox, s.client.requestId)
  {
  }

  lemma RejectKeeps(s: State, flag: bool)
    requires Inv(s) && CanRead(s, flag) && s.reader.Rejecting?
    ensures Inv(ReaderNext(s, flag))
  {
    hide StopsInOrder, RunAfter, RunIn, SignalsOwn;
    var t := ReaderNext(s, flag);
    SameOrder(s, t);
    KeptSignals(s, t);
    NotInPipe(s);
  }

  lemma KillKeeps(s: State, flag: bool)
    requires Inv(s) && CanRead(s, flag) && (s.reader.Killing? || s.reader.Interrupting?)
    ensures Inv(ReaderNext(s, flag))
  {
    hide StopsInOrder, RunAfter, RunIn;
    var t := ReaderNext(s, flag);
    SameOrder(s, t);
  }

  lemma QuietReaderKeeps(s: State, flag: bool)
    requires Inv(s) && CanRead(s, flag) && !(s.reader.Waiting? && !s.failed && s.inbox != [])
    requires !BusyReader(s.reader) && !s.reader.Killing? && !s.reader.Interrupting?
    ensures Inv(ReaderNext(s, flag))
  {
    hide Inv;
    if s.reader.Starting? || s.reader.Replying? {
      SpeakKeeps(s, flag);
    } else {
      LeaveKeeps(s, flag);
    }
  }

  lemma SpeakKeeps(s: State, flag: bool)
    requires Inv(s) && CanRead(s, flag) && (s.reader.Starting? || s.reader.Replying?)
    ensures Inv(ReaderNext(s, flag))
  {
    hide StopsInOrder, RunAfter, RunIn, SignalsOwn, QueueOwn;
    var t := ReaderNext(s, flag);
    SameOrder(s, t);
    KeptSignals(s, t);
    SameQueue(s, t);
  }

  lemma LeaveKeeps(s: State, flag: bool)
    requires Inv(s) && CanRead(s, flag) && !(s.reader.Waiting? && !s.failed && s.inbox != [])
    requires s.reader.Waiting? || s.reader.Draining? || s.reader.Joining?
    ensures Inv(ReaderNext(s, flag))
  {
    hide StopsInOrder, RunAfter, RunIn, SignalsOwn;
    var t := ReaderNext(s, flag);
    SameOrder(s, t);
    KeptSignals(s, t);
  }

  lemma SameQueue(s: State, t: State)
    requires QueueOwn(s) && t.shared == s.shared && t.worker == s.worker && t.asked == s.asked
    ensures QueueOwn(t)
  {
  }

  lemma KeptSignals(s: State, t: State)
    requires SignalsOwn(s) && t.signals == s.signals && t.children == s.children
    ensures SignalsOwn(t)
  {
  }

  lemma ReadKeeps(s: State)
    requires Inv(s) && s.reader.Waiting? && !s.failed && s.inbox != []
    ensures Inv(ReadRequest(s))
  {
    match s.inbox[0]
    case Run(id, waits, valid) => ReadRunKeeps(s);
    case Stop(id) => ReadStopKeeps(s);
    case Quit => PopOrder(s); PopTokens(s);
  }

  /** What stays true of the pipe when its first request is taken out. */
  lemma PopOrder(s: State)
    requires Inv(s) && s.inbox != []
    ensures StopsInOrder(s.(inbox := s.inbox[1..]))
  {
    var t := s.(inbox := s.inbox[1..]);
    forall i | 0 <= i < |t.inbox| && t.inbox[i].Stop?
      ensures t.inbox[i].id == t.client.requestId || RunAfter(t.inbox, i) {
      assert s.inbox[i + 1] == t.inbox[i];
      if RunAfter(s.inbox, i + 1) {
        var j :| i + 1 < j < |s.inbox| && s.inbox[j].Run?;
        assert t.inbox[j - 1] == s.inbox[j];
      }
    }
  }

  lemma PopTokens(s: State)
    requires Inv(s) && s.inbox != []
    ensures InboxHolds(s.(inbox := s.inbox[1..]))
    ensures s.inbox[0].Run? ==> RunIn(s.inbox, s.client.requestId) && !RunIn(s.inbox[1..], s.client.requestId)
                                && s.inbox[0].id == s.client.requestId && s.client.begun
  {
    var rest := s.inbox[1..];
    assert forall i | 0 <= i < |rest| :: rest[i] == s.inbox[i + 1];
    if RunIn(rest, s.client.requestId) {
      var i :| 0 <= i < |rest| && rest[i].Run? && rest[i].id == s.client.requestId;
      assert s.inbox[i + 1].Run?;
    }
    if s.inbox[0].Run? {
      assert s.inbox[0].id == s.client.requestId;
    }
  }

  lemma ReadRunKeeps(s: State)
    requires Inv(s) && s.reader.Waiting? && !s.failed && s.inbox != [] && s.inbox[0].Run?
    ensures Inv(ReadRequest(s)) && !Occupied(s.shared)
  {
    hide StopsInOrder, RunIn, RunAfter;
    PopOrder(s);
    PopTokens(s);
    assert Over(s.worker) && !s.shared.running && s.shared == IDLE;
    var t := ReadRequest(s);
    SameOrder(s.(inbox := s.inbox[1..]), t);
  }

  lemma SameOrder(s: State, t: State)
    requires StopsInOrder(s) && t.inbox == s.inbox && t.client == s.client
    ensures StopsInOrder(t)
  {
  }

  lemma ReadStopKeeps(s: State)
    requires Inv(s) && s.reader.Waiting? && !s.failed && s.inbox != [] && s.inbox[0].Stop?
    ensures Inv(ReadRequest(s))
    ensures s.shared.running ==> s.inbox[0].id == s.shared.activeId == s.client.requestId
  {
    hide StopsInOrder, RunAfter, SignalsOwn, NeverBusy;
    PopOrder(s);
    PopTokens(s);
    if s.shared.running {
      StopIsForActive(s);
    }
    var t := ReadRequest(s);
    SameOrder(s.(inbox := s.inbox[1..]), t);
    SameSignals(s, t);
  }

  lemma SameSignals(s: State, t: State)
    requires t.signals == s.signals && t.children == s.children && t.outbox == s.outbox
    ensures SignalsOwn(s) ==> SignalsOwn(t)
    ensures NeverBusy(s) ==> NeverBusy(t)
  {
  }

  /** While a request is being served no Run is on its way. */
  lemma NoRunBehind(s: State)
    requires Tokens(s) && Serving(s.worker).Some?
    ensures !RunAfter(s.inbox, 0)
  {
    forall j | 0 <= j < |s.inbox| ensures !s.inbox[j].Run? {
      assert s.inbox[j].Run? ==> RunIn(s.inbox, s.client.requestId);
    }
  }

  /** A Stop that is read while a request is being served was sent for that request. */
  lemma StopIsForActive(s: State)
    requires Inv(s) && s.inbox != [] && s.inbox[0].Stop? && s.shared.running
    ensures s.inbox[0].id == s.shared.activeId == s.client.requestId
  {
    NoRunBehind(s);
  }

  lemma WorkerKeeps(s: State, flag: bool, pid: nat)
    requires Inv(s) && CanWork(s, flag, pid)
    ensures Inv(WorkerNext(s, flag, pid))
  {
    hide StopsInOrder, InboxHolds;
    var t := WorkerNext(s, flag, pid);
    SameOrder(s, t);
    SameInbox(s, t);
    if s.worker.Launching? {
      LaunchKeeps(s, flag, pid);
    } else if s.worker.Delivering? {
      DeliverKeeps(s, flag, pid);
    } else if s.worker.Aborting? || s.worker.Reaping? || s.worker.Clearing? || s.worker.Reporting? {
      EndKeeps(s, flag, pid);
    } else {
      OutputKeeps(s, flag, pid);
    }
  }

  lemma SameInbox(s: State, t: State)
    requires Inv(s) && t.inbox == s.inbox && t.client == s.client && t.reader == s.reader && !Over(s.worker)
    ensures InboxHolds(t)
  {
  }

  lemma LaunchKeeps(s: State, flag: bool, pid: nat)
    requires Inv(s) && CanWork(s, flag, pid) && s.worker.Launching?
    requires InboxHolds(WorkerNext(s, flag, pid)) && StopsInOrder(WorkerNext(s, flag, pid))
    ensures Inv(WorkerNext(s, flag, pid))
  {
    hide StopsInOrder, InboxHolds;
  }

  lemma DeliverKeeps(s: State, flag: bool, pid: nat)
    requires Inv(s) && CanWork(s, flag, pid) && s.worker.Delivering?
    requires InboxHolds(WorkerNext(s, flag, pid)) && StopsInOrder(WorkerNext(s, flag, pid))
    ensures Inv(WorkerNext(s, flag, pid))
  {
    hide StopsInOrder, InboxHolds;
  }

  lemma EndKeeps(s: State, flag: bool, pid: nat)
    requires Inv(s) && CanWork(s, flag, pid)
             && (s.worker.Aborting? || s.worker.Reaping? || s.worker.Clearing? || s.worker.Reporting?)
    requires InboxHolds(WorkerNext(s, flag, pid)) && StopsInOrder(WorkerNext(s, flag, pid))
    ensures Inv(WorkerNext(s, flag, pid))
  {
    hide StopsInOrder, InboxHolds;
  }

  lemma OutputKeeps(s: State, flag: bool, pid: nat)
    requires Inv(s) && CanWork(s, flag, pid)
             && (s.worker.Spawned? || s.worker.Announcing? || s.worker.Reading? || s.worker.Line?)
    requires InboxHolds(WorkerNext(s, flag, pid)) && StopsInOrder(WorkerNext(s, flag, pid))
    ensures Inv(WorkerNext(s, flag, pid))
  {
    hide StopsInOrder, InboxHolds;
  }

  lemma LineKeeps(s: State)
    requires Inv(s) && s.worker.Reading?
    ensures Inv(Next(s, WorkerLine))
  {
    hide StopsInOrder, InboxHolds;
    SameOrder(s, Next(s, WorkerLine));
    SameInbox(s, Next(s, WorkerLine));
  }

  lemma StepKeeps(s: State, step: Step)
    requires Inv(s) && Enabled(s, step)
    ensures Inv(Next(s, step))
  {
    hide Inv;
    match step
    case ClientRun(_, _) => ClientKeeps(s, step);
    case ClientStop => ClientKeeps(s, step);
    case ClientQuit => ClientKeeps(s, step);
    case ClientClose => ClientKeeps(s, step);
    case ClientHandle(waits, valid) => HandleKeeps(s, waits, valid);
    case ReaderStep(flag) =>
      if s.reader.Waiting? && !s.failed && s.inbox != [] { ReadKeeps(s); } else { ReaderKeeps(s, flag); }
    case WorkerStep(flag, pid) => WorkerKeeps(s, flag, pid);
    case WorkerLine => LineKeeps(s);
  }

  /** The invariant holds in every state of every interleaving. */
  lemma {:induction false} AlwaysInv(steps: seq<Step>)
    requires Play(START, steps).Some?
    ensures Inv(Play(START, steps).value)
  {
    if steps != [] {
      AlwaysInv(steps[..|steps| - 1]);
      StepKeeps(Play(START, steps[..|steps| - 1]).value, steps[|steps| - 1]);
    }
  }

  // ---- what the protocol promises ---------------------------------------------------------------

  /** In every interleaving at most one child is unreaped, a client that submits only after completion is never told
      that an operation is already active, every signal sent for a Stop went to the child of that Stop's own request,
      and the helper has exited only with no child left. */
  lemma HelperSafe(steps: seq<Step>)
    requires Play(START, steps).Some?
    ensures var s := Play(START, steps).value;
            && |s.unreaped| <= 1
            && (forall i | 0 <= i < |s.outbox| :: !s.outbox[i].Busy?)
            && (forall i | 0 <= i < |s.signals| && s.signals[i].cause.StopOf? ::
                  s.signals[i].pid in s.children && s.children[s.signals[i].pid] == s.signals[i].cause.id)
            && (s.reader.Exited? ==> s.unreaped == {})
  {
    AlwaysInv(steps);
  }

  /** A Stop that finds a request active belongs to that very request, whatever is still in the pipes; it is either
      aimed at that request's child or queued, and a queued Stop is dropped when the request ends. */
  lemma AcceptedStopIsOwn(steps: seq<Step>)
    requires Play(START, steps).Some?
    requires var s := Play(START, steps).value;
             s.reader.Waiting? && !s.failed && s.inbox != [] && s.inbox[0].Stop? && Occupied(s.shared)
    ensures var s := Play(START, steps).value; var t := ReadRequest(s);
            && Serving(s.worker) == Some(s.inbox[0].id)
            && (t.reader.Killing? ==> t.reader.pid in t.children && t.children[t.reader.pid] == s.inbox[0].id)
            && (!t.reader.Killing? ==> t.shared.pendingStop)
  {
    AlwaysInv(steps);
    var s := Play(START, steps).value;
    ReadStopKeeps(s);
  }

  /** A queued Stop never outlives its request: when nothing is being served, none is queued. */
  lemma QueuedStopEnds(steps: seq<Step>)
    requires Play(START, steps).Some?
    ensures var s := Play(START, steps).value; s.shared.pendingStop ==>
              Serving(s.worker) == Some(s.shared.activeId)
              && s.shared.activeId == s.client.requestId
  {
    AlwaysInv(steps);
  }
}
