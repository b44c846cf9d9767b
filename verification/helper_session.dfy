/** The administrator session of the application: one request at a time, submitted to the helper and completed once. */
module HelperSession {
  import opened Wrappers
  import HelperProtocol

  /** permitted is whether the program is one of those the helper runs; waits is whether it is the operation engine. */
  datatype CommandRequest = CommandRequest(
    purpose: string, program: string, privileged: bool, permitted: bool, waits: bool, stream: bool)

  datatype Completion = Completion(code: int, output: string, purpose: string)

  datatype Event =
    | HelperStarting
    | HelperReady
    | Progress(percent: real)
    | Engine(line: string)
    | Output(line: string)
    | StopDelivered
    | StopFailed(reason: string)
    | SessionError(text: string)
    | HelperClosed

  /** What the helper writes; engine is whether the line is an engine event. */
  datatype Report =
    | ReadyReport
    | StartedReport(id: nat)
    | ProgressReport(id: nat, percent: real)
    | OutputReport(id: nat, line: string, engine: bool)
    | ErrorReport(about: Option<nat>, text: string)
    | StopReport(active: nat, delivered: bool, text: string)
    | FinishedReport(id: nat, code: int)
    | OtherReport

  const NO_PKEXEC := "pkexec is not installed; administrator authentication is unavailable."
  const NOT_PERMITTED := "The privileged helper does not permit: "
  const NOT_RUNNING := "the privileged helper is not running"
  const NOT_SENT := "Unable to send stop request to the administrator session: the privileged helper is not running"
  const NOT_DELIVERED := "Stop signal was not delivered: "
  const NO_OPERATION := "The administrator session has no active operation."
  const ENDED := "The administrator session ended before the operation completed."

  /** The session's fields, with what it has written and reported so far. */
  datatype State = State(
    ready: bool,
    starting: bool,
    request: Option<CommandRequest>,
    requestId: nat,
    activeId: Option<nat>,
    output: seq<string>,
    errors: seq<string>,
    sent: seq<HelperProtocol.Request>,
    events: seq<Event>,
    completed: seq<Completion>)

  const START := State(false, false, None, 0, None, [], [], [], [], [])

  function Joined(parts: seq<string>): string {
    if parts == [] then "" else Joined(parts[..|parts| - 1]) + parts[|parts| - 1]
  }

  function Purpose(s: State): string {
    if s.request.Some? then s.request.value.purpose else ""
  }

  predicate Blank(c: char) {
    c in " \t\n\r"
  }

  /** Without blanks at either end. */
  function Stripped(text: string): string
    decreases |text|
  {
    if text == "" then ""
    else if Blank(text[0]) then Stripped(text[1..])
    else if Blank(text[|text| - 1]) then Stripped(text[..|text| - 1])
    else text
  }

  function Emitted(s: State, e: Event): State {
    s.(events := s.events + [e])
  }

  function Ended(s: State, code: int, output: string, purpose: string): State {
    s.(request := None, completed := s.completed + [Completion(code, output, purpose)])
  }

  function Submitted(s: State, ok: bool): State {
    if s.request.None? || !s.ready then s
    else if !s.request.value.permitted then Ended(s, 127, NOT_PERMITTED + s.request.value.program, Purpose(s))
    else
      var id := s.requestId + 1;
      var t := s.(requestId := id, activeId := Some(id), output := []);
      if ok then t.(sent := t.sent + [HelperProtocol.Run(id, s.request.value.waits, true)])
      else Ended(t, 127, NOT_RUNNING, Purpose(s))
  }

  function StartFailed(s: State, text: string): State {
    var t := s.(starting := false, ready := false);
    if s.request.Some? then Ended(t, 127, text, Purpose(s)) else Emitted(t, SessionError(text))
  }

  function Started(s: State, pkexec: bool): State {
    if pkexec then Emitted(s.(starting := true), HelperStarting) else StartFailed(s, NO_PKEXEC)
  }

  predicate Accepts(s: State, r: CommandRequest) {
    r.privileged && s.request.None?
  }

  function Requested(s: State, r: CommandRequest, ok: bool, pkexec: bool): State {
    if !Accepts(s, r) then s
    else
      var t := s.(request := Some(r));
      if t.ready then Submitted(t, ok) else if !t.starting then Started(t, pkexec) else t
  }

  function Clamped(percent: real): real {
    if percent < 0.0 then 0.0 else if percent > 100.0 then 100.0 else percent
  }

  function Handled(s: State, m: Report, ok: bool): State {
    match m
    case ReadyReport => Submitted(Emitted(s.(ready := true, starting := false), HelperReady), ok)
    case ProgressReport(id, percent) => if s.activeId == Some(id) then Emitted(s, Progress(Clamped(percent))) else s
    case OutputReport(id, line, engine) =>
      if s.activeId != Some(id) then s
      else if engine then Emitted(s, Engine(line))
      else
        var t := s.(output := s.output + [line + "\n"]);
        if s.request.Some? && s.request.value.stream then Emitted(t, Output(line)) else t
    case ErrorReport(about, text) =>
      if s.activeId == about then s.(output := s.output + [text + "\n"]) else Emitted(s, Output(text))
    case StopReport(_, delivered, text) =>
          Emitted(s, if delivered then StopDelivered else StopFailed(NOT_DELIVERED + text))
    case FinishedReport(id, code) =>
      if s.activeId == Some(id) then Ended(s.(activeId := None, output := []), code, Joined(s.output), Purpose(s))
          else s
    case _ => s
  }

  function Exited(s: State, code: int): State {
    var text := Stripped(Joined(s.errors));
    var t := s.(ready := false, starting := false, errors := []);
    if s.request.Some? then
      Ended(t.(activeId := None), if code == 0 then 127 else code, if text == "" then ENDED else text, Purpose(s))
    else if s.ready then Emitted(t, HelperClosed)
    else t
  }

  function Drained(s: State, line: string): State {
    s.(errors := s.errors + [line])
  }

  function Stopped(s: State, ok: bool): State {
    if s.request.None? then Emitted(s, StopFailed(NO_OPERATION))
    else if ok then s.(sent := s.sent + [HelperProtocol.Stop(if s.activeId.Some? then s.activeId.value
        else s.requestId)])
    else Emitted(s, StopFailed(NOT_SENT))
  }

  // ---- the object -------------------------------------------------------------------------------

  class Session {
    var ready: bool
    var starting: bool
    var request: Option<CommandRequest>
    var requestId: nat
    var activeId: Option<nat>
    var output: seq<string>
    var errors: seq<string>
    ghost var sent: seq<HelperProtocol.Request>
    ghost var events: seq<Event>
    ghost var completed: seq<Completion>

    ghost function Now(): State
      reads this
    {
      State(ready, starting, request, requestId, activeId, output, errors, sent, events, completed)
    }

    constructor ()
      ensures Now() == START
    {
      ready, starting, request, requestId, activeId := false, false, None, 0, None;
      output, errors, sent, events, completed := [], [], [], [], [];
    }

    method Emit(e: Event)
      modifies this`events
      ensures Now() == Emitted(old(Now()), e)
    {
      events := events + [e];
    }

    method Complete(code: int, text: string, purpose: string)
      modifies this`request, this`completed
      ensures Now() == Ended(old(Now()), code, text, purpose)
    {
      request := None;
      completed := completed + [Completion(code, text, purpose)];
    }

    /** Submits the held request, if there is one and the helper is ready; ok is whether it can be written to. */
    method BeginRequest(ok: bool)
      modifies this
      ensures Now() == Submitted(old(Now()), ok)
    {
      if request.None? || !ready {
        return;
      }
      var purpose := request.value.purpose;
      if !request.value.permitted {
        Complete(127, NOT_PERMITTED + request.value.program, purpose);
        return;
      }
      requestId := requestId + 1;
      activeId := Some(requestId);
      output := [];
      if ok {
        sent := sent + [HelperProtocol.Run(requestId, request.value.waits, true)];
      } else {
        Complete(127, NOT_RUNNING, purpose);
      }
    }

    method FailStart(text: string)
      modifies this
      ensures Now() == StartFailed(old(Now()), text)
    {
      starting, ready := false, false;
      if request.Some? {
        Complete(127, text, request.value.purpose);
      } else {
        Emit(SessionError(text));
      }
    }

    method StartHelper(pkexec: bool)
      modifies this
      ensures Now() == Started(old(Now()), pkexec)
    {
      if !pkexec {
        FailStart(NO_PKEXEC);
        return;
      }
      starting := true;
      Emit(HelperStarting);
    }

    /** Accepts a request unless it is not privileged or one is held; then submits it or starts the helper. */
    method Run(r: CommandRequest, ok: bool, pkexec: bool) returns (accepted: bool)
      modifies this
      ensures accepted == Accepts(old(Now()), r) && Now() == Requested(old(Now()), r, ok, pkexec)
    {
      if !r.privileged || request.Some? {
        return false;
      }
      request := Some(r);
      if ready {
        BeginRequest(ok);
      } else if !starting {
        StartHelper(pkexec);
      }
      accepted := true;
    }

    method HandleMessage(m: Report, ok: bool)
      modifies this
      ensures Now() == Handled(old(Now()), m, ok)
    {
      var purpose := if request.Some? then request.value.purpose else "";
      match m
      case ReadyReport =>
        ready, starting := true, false;
        Emit(HelperReady);
        BeginRequest(ok);
      case StartedReport(_) =>
      case ProgressReport(id, percent) =>
        if activeId == Some(id) {
          Emit(Progress(Clamped(percent)));
        }
      case OutputReport(id, line, engine) =>
        if activeId == Some(id) {
          if engine {
            Emit(Engine(line));
          } else {
            output := output + [line + "\n"];
            if request.Some? && request.value.stream {
              Emit(Output(line));
            }
          }
        }
      case ErrorReport(about, text) =>
        if activeId == about {
          output := output + [text + "\n"];
        } else {
          Emit(Output(text));
        }
      case StopReport(_, delivered, text) =>
        Emit(if delivered then StopDelivered else StopFailed(NOT_DELIVERED + text));
      case FinishedReport(id, code) =>
        if activeId == Some(id) {
          var text := Joined(output);
          activeId, output := None, [];
          Complete(code, text, purpose);
        }
      case OtherReport =>
    }

    /** The helper's process has ended. */
    method Exit(code: int)
      modifies this
      ensures Now() == Exited(old(Now()), code)
    {
      var wasReady := ready;
      ready, starting := false, false;
      var text := Stripped(Joined(errors));
      errors := [];
      if request.Some? {
        activeId := None;
        Complete(if code == 0 then 127 else code, if text == "" then ENDED else text, request.value.purpose);
      } else if wasReady {
        Emit(HelperClosed);
      }
    }

    /** A line of the helper's standard error. */
    method DrainStderr(line: string)
      modifies this`errors
      ensures Now() == Drained(old(Now()), line)
    {
      errors := errors + [line];
    }

    method RequestStop(ok: bool) returns (asked: bool)
      modifies this
      ensures Now() == Stopped(old(Now()), ok) && asked == (old(request).Some? && ok)
    {
      if request.None? {
        Emit(StopFailed(NO_OPERATION));
        return false;
      }
      if !ok {
        Emit(StopFailed(NOT_SENT));
        return false;
      }
      sent := sent + [HelperProtocol.Stop(if activeId.Some? then activeId.value else requestId)];
      asked := true;
    }
  }

  // ---- every request completes once -------------------------------------------------------------

  datatype Call =
    | Ask(r: CommandRequest, ok: bool, pkexec: bool)
    | Receive(m: Report, ok: bool)
    | CannotStart(text: string)
    | End(code: int)
    | ErrorLine(line: string)
    | AskStop(ok: bool)

  function After(s: State, call: Call): State {
    match call
    case Ask(r, ok, pkexec) => Requested(s, r, ok, pkexec)
    case Receive(m, ok) => Handled(s, m, ok)
    case CannotStart(text) => StartFailed(s, text)
    case End(code) => Exited(s, code)
    case ErrorLine(line) => Drained(s, line)
    case AskStop(ok) => Stopped(s, ok)
  }

  function AfterAll(calls: seq<Call>): State {
    if calls == [] then START else After(AfterAll(calls[..|calls| - 1]), calls[|calls| - 1])
  }

  /** The purposes of the accepted requests, in order. */
  function AcceptedBy(calls: seq<Call>): seq<string> {
    if calls == [] then []
    else
      var c := calls[|calls| - 1];
      AcceptedBy(calls[..|calls| - 1])
      + if c.Ask? && Accepts(AfterAll(calls[..|calls| - 1]), c.r) then [c.r.purpose] else []
  }

  function Purposes(done: seq<Completion>): seq<string> {
    seq(|done|, i requires 0 <= i < |done| => done[i].purpose)
  }

  /** The requests completed, then the one held. */
  function Answered(s: State): seq<string> {
    Purposes(s.completed) + if s.request.Some? then [s.request.value.purpose] else []
  }

  /** The report of a request that has been completed already. */
  predicate Stray(s: State, call: Call) {
    call.Receive? && call.m.FinishedReport? && s.activeId == Some(call.m.id) && s.request.None?
  }

  ghost predicate NoStray(calls: seq<Call>) {
    forall k | 0 <= k < |calls| :: !Stray(AfterAll(calls[..k]), calls[k])
  }

  /** Whatever happens to the helper, the requests accepted are those completed, in order and once each, and the one
      held: exactly as long as no report arrives of a request that has been completed already. */
  lemma {:induction false} CompletedOnce(calls: seq<Call>)
    ensures NoStray(calls) <==> Answered(AfterAll(calls)) == AcceptedBy(calls)
    ensures !NoStray(calls) ==> |Answered(AfterAll(calls))| > |AcceptedBy(calls)|
  {
    if calls != [] {
      hide After, Answered, Stray, Accepts, NoStray;
      var front, c := calls[..|calls| - 1], calls[|calls| - 1];
      CompletedOnce(front);
      AnsweredStep(AfterAll(front), c);
      NoStrayStep(calls);
    }
  }

  lemma NoStrayStep(calls: seq<Call>)
    requires calls != []
    ensures var front := calls[..|calls| - 1];
            NoStray(calls) <==> NoStray(front) && !Stray(AfterAll(front), calls[|calls| - 1])
  {
    hide AfterAll, Stray;
    var front := calls[..|calls| - 1];
    assert calls[..|front|] == front;
    assert forall k | 0 <= k < |front| :: front[..k] == calls[..k] && front[k] == calls[k];
  }

  lemma AnsweredStep(s: State, c: Call)
    ensures Answered(After(s, c)) == Answered(s)
            + (if c.Ask? && Accepts(s, c.r) then [c.r.purpose] else if Stray(s, c) then [""] else [])
  {
    hide Purposes, Joined, Clamped, Submitted, StartFailed, Ended, Answered;
    match c
    case Ask(r, ok, pkexec) =>
      if Accepts(s, r) {
        var t := s.(request := Some(r));
        assert Answered(t) == Answered(s) + [r.purpose] by { HoldsOne(s, r); }
        SubmittedAnswers(t, ok);
        StartAnswers(t, pkexec);
      }
    case Receive(m, ok) => HandledAnswers(s, m, ok);
    case CannotStart(text) => StartFailedAnswers(s, text);
    case End(code) => ExitAnswers(s, code);
    case ErrorLine(line) => SameAnswers(s, Drained(s, line));
    case AskStop(ok) => SameAnswers(s, Stopped(s, ok));
  }

  lemma HoldsOne(s: State, r: CommandRequest)
    requires s.request.None?
    ensures Answered(s.(request := Some(r))) == Answered(s) + [r.purpose]
  {
    hide Purposes;
  }

  lemma SameAnswers(s: State, t: State)
    requires t.request == s.request && t.completed == s.completed
    ensures Answered(t) == Answered(s)
  {
  }

  lemma EndedAnswers(s: State, code: int, text: string)
    ensures Answered(Ended(s, code, text, Purpose(s))) == Answered(s) + if s.request.None? then [""] else []
  {
    hide Purposes;
    PurposesMore(s.completed, Completion(code, text, Purpose(s)));
  }

  lemma SubmittedAnswers(s: State, ok: bool)
    ensures Answered(Submitted(s, ok)) == Answered(s)
  {
    hide Ended, Answered;
    if s.request.Some? && s.ready {
      var id := s.requestId + 1;
      var t := s.(requestId := id, activeId := Some(id), output := []);
      SameAnswers(s, t);
      EndedAnswers(s, 127, NOT_PERMITTED + s.request.value.program);
      EndedAnswers(t, 127, NOT_RUNNING);
      SameAnswers(t, t.(sent := t.sent + [HelperProtocol.Run(id, s.request.value.waits, true)]));
    }
  }

  lemma StartFailedAnswers(s: State, text: string)
    ensures Answered(StartFailed(s, text)) == Answered(s)
  {
    hide Ended, Answered;
    var t := s.(starting := false, ready := false);
    SameAnswers(s, t);
    EndedAnswers(t, 127, text);
    SameAnswers(t, Emitted(t, SessionError(text)));
  }

  lemma StartAnswers(s: State, pkexec: bool)
    ensures Answered(Started(s, pkexec)) == Answered(s)
  {
    hide StartFailed, Answered;
    StartFailedAnswers(s, NO_PKEXEC);
    SameAnswers(s, Emitted(s.(starting := true), HelperStarting));
  }

  lemma HandledAnswers(s: State, m: Report, ok: bool)
    ensures Answered(Handled(s, m, ok)) == Answered(s) + if Stray(s, Receive(m, ok)) then [""] else []
  {
    hide Ended, Answered, Submitted, Joined, Clamped;
    match m
    case ReadyReport =>
      var t := Emitted(s.(ready := true, starting := false), HelperReady);
      SameAnswers(s, t);
      SubmittedAnswers(t, ok);
    case FinishedReport(id, code) =>
      var t := s.(activeId := None, output := []);
      SameAnswers(s, t);
      EndedAnswers(t, code, Joined(s.output));
    case _ => SameAnswers(s, Handled(s, m, ok));
  }

  lemma ExitAnswers(s: State, code: int)
    ensures Answered(Exited(s, code)) == Answered(s)
  {
    hide Ended, Answered, Joined, Stripped;
    var text := Stripped(Joined(s.errors));
    var t := s.(ready := false, starting := false, errors := []);
    SameAnswers(s, t);
    SameAnswers(s, t.(activeId := None));
    EndedAnswers(t.(activeId := None), if code == 0 then 127 else code, if text == "" then ENDED else text);
    SameAnswers(t, Emitted(t, HelperClosed));
  }

  lemma PurposesMore(done: seq<Completion>, e: Completion)
    ensures Purposes(done + [e]) == Purposes(done) + [e.purpose]
  {
  }

  /** A request is completed before its report when it cannot be written, or when the helper's output cannot be read. */
  predicate CutShort(s: State, c: Call) {
    || (c.Ask? && !c.ok)
    || (c.Receive? && !c.ok)
    || (c.CannotStart? && s.activeId.Some?)
  }

  predicate Serving(s: State) {
    s.activeId.Some? ==> s.request.Some? && s.request.value.permitted
  }

  /** Otherwise there is no such report. */
  lemma {:induction false} NoStrayUnlessCutShort(calls: seq<Call>)
    requires forall k | 0 <= k < |calls| :: !CutShort(AfterAll(calls[..k]), calls[k])
    ensures NoStray(calls) && Serving(AfterAll(calls))
  {
    if calls != [] {
      hide After, CutShort, Stray, Serving, NoStray;
      var front, c := calls[..|calls| - 1], calls[|calls| - 1];
      assert calls[..|front|] == front;
      forall k | 0 <= k < |front| ensures !CutShort(AfterAll(front[..k]), front[k]) {
        assert front[..k] == calls[..k] && front[k] == calls[k];
      }
      NoStrayUnlessCutShort(front);
      HeldWhileActive(AfterAll(front), c);
      NoStrayStep(calls);
    } else {
      assert NoStray(calls);
    }
  }

  lemma HeldWhileActive(s: State, c: Call)
    requires Serving(s) && !CutShort(s, c)
    ensures !Stray(s, c) && Serving(After(s, c))
  {
  }

  // ---- the client of the protocol ---------------------------------------------------------------

  function Client(s: State): HelperProtocol.Client {
    HelperProtocol.Client(s.request.Some?, s.activeId.Some?, s.requestId, s.ready, false)
  }

  function MessageOf(m: Report): HelperProtocol.Message {
    match m
    case ReadyReport => HelperProtocol.Ready
    case StopReport(active, delivered, _) => HelperProtocol.StopResult(active, delivered)
    case FinishedReport(id, _) => HelperProtocol.Finished(id)
    case StartedReport(id) => HelperProtocol.Other(id)
    case ProgressReport(id, _) => HelperProtocol.Other(id)
    case OutputReport(id, _, _) => HelperProtocol.Other(id)
    case ErrorReport(about, _) => HelperProtocol.Other(if about.Some? then about.value else 0)
    case OtherReport => HelperProtocol.Bye
  }

  /** The session is a client of the protocol: same fields, same messages written. */
  predicate Follows(s: State, p: HelperProtocol.State) {
    && Client(s) == p.client && s.sent == p.inbox
    && (s.activeId.Some? ==> s.request.Some? && s.activeId.value == s.requestId)
    && (s.request.Some? ==> s.request.value.permitted)
  }

  /** Where it can be written, an accepted request is the protocol's step of running one. */
  lemma RequestFollows(s: State, p: HelperProtocol.State, r: CommandRequest, pkexec: bool)
    requires Follows(s, p) && Accepts(s, r) && r.permitted && (pkexec || s.ready || s.starting)
    ensures HelperProtocol.Enabled(p, HelperProtocol.ClientRun(r.waits, true))
    ensures Follows(Requested(s, r, true, pkexec), HelperProtocol.Next(p, HelperProtocol.ClientRun(r.waits, true)))
  {
    hide HelperProtocol.HandleOne, HelperProtocol.ReaderNext, HelperProtocol.WorkerNext;
  }

  /** A stop of a held request is the protocol's stop. */
  lemma StopFollows(s: State, p: HelperProtocol.State)
    requires Follows(s, p) && s.request.Some?
    ensures HelperProtocol.Enabled(p, HelperProtocol.ClientStop)
    ensures Follows(Stopped(s, true), HelperProtocol.Next(p, HelperProtocol.ClientStop))
  {
    hide HelperProtocol.HandleOne, HelperProtocol.ReaderNext, HelperProtocol.WorkerNext, HelperProtocol.Begin;
  }

  /** Handling a message is the protocol's step of handling it; the helper is ready once, before any request. */
  lemma MessageFollows(s: State, p: HelperProtocol.State, m: Report)
    requires Follows(s, p) && p.outbox != [] && p.outbox[0] == MessageOf(m) && (m.ReadyReport? ==> s.activeId.None?)
    ensures var step := HelperProtocol.ClientHandle(s.request.Some? && s.request.value.waits, true);
            HelperProtocol.Enabled(p, step) && Follows(Handled(s, m, true), HelperProtocol.Next(p, step))
  {
    hide HelperProtocol.ReaderNext, HelperProtocol.WorkerNext, Joined, Clamped;
  }
}
