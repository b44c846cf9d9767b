/** What a completed request is told: the code and the lines that the helper reported for that request, and success only
    when the helper reported it. */
module HelperCompletion {
  import opened Wrappers
  import opened HelperSession

  // ---- what was reported about a request --------------------------------------------------------

  /** The request that a message is about. */
  function About(c: Call): Option<nat> {
    if !c.Receive? then None
    else
      match c.m
      case StartedReport(id) => Some(id)
      case ProgressReport(id, _) => Some(id)
      case OutputReport(id, _, _) => Some(id)
      case ErrorReport(about, _) => about
      case FinishedReport(id, _) => Some(id)
      case _ => None
  }

  /** The text a message adds to what a request has printed; engine events are not printed. */
  function Line(c: Call): string {
    if !c.Receive? then ""
    else
      match c.m
      case OutputReport(_, line, engine) => if engine then "" else line + "\n"
      case ErrorReport(_, text) => text + "\n"
      case _ => ""
  }

  /** All that was printed for request id, in the order it came. */
  function Text(calls: seq<Call>, id: nat): string {
    if calls == [] then ""
    else Text(calls[..|calls| - 1], id) + if About(calls[|calls| - 1]) == Some(id) then Line(calls[|calls| - 1]) else ""
  }

  /** The helper speaks of requests it was sent, not of later ones. */
  ghost predicate OfSentOnly(calls: seq<Call>) {
    forall k | 0 <= k < |calls| && About(calls[k]).Some? ::
      About(calls[k]).value <= AfterAll(calls[..k]).requestId
  }

  lemma SentStep(calls: seq<Call>)
    requires calls != [] && OfSentOnly(calls)
    ensures var front, c := calls[..|calls| - 1], calls[|calls| - 1];
            OfSentOnly(front) && (About(c).Some? ==> About(c).value <= AfterAll(front).requestId)
  {
    hide AfterAll, About;
    var front := calls[..|calls| - 1];
    assert forall k | 0 <= k < |front| :: front[..k] == calls[..k] && front[k] == calls[k];
  }

  // ---- one call ---------------------------------------------------------------------------------

  /** The output gathered is that of the active request, which is the newest. */
  predicate Gathers(s: State, text: string) {
    s.activeId.Some? ==> s.activeId.value == s.requestId && Joined(s.output) == text
  }

  lemma JoinedMore(parts: seq<string>, line: string)
    ensures Joined(parts + [line]) == Joined(parts) + line
  {
    assert (parts + [line])[..|parts|] == parts;
  }

  lemma GathersStep(s: State, c: Call)
    requires Gathers(s, Joined(s.output))
    ensures var t := After(s, c);
            && s.requestId <= t.requestId && Gathers(t, Joined(t.output))
            && (t.activeId.Some? && t.requestId != s.requestId ==> t.output == [])
            && (t.activeId.Some? && t.requestId == s.requestId ==> s.activeId == t.activeId)
  {
    hide Joined, Clamped, Stripped, Purpose;
  }

  lemma OutputStep(s: State, c: Call)
    requires Gathers(s, Joined(s.output)) && s.activeId.Some?
    ensures var t := After(s, c);
            t.activeId == s.activeId ==>
                  Joined(t.output) == Joined(s.output) + if About(c) == s.activeId then Line(c) else ""
  {
    hide Joined, Clamped, Stripped, Purpose;
    if c.Receive? && (c.m.OutputReport? || c.m.ErrorReport?) { JoinedMore(s.output, Line(c)); }
  }

  // ---- every run --------------------------------------------------------------------------------

  lemma {:induction false} NothingOfLater(calls: seq<Call>, id: nat)
    requires OfSentOnly(calls) && id > AfterAll(calls).requestId
    ensures Text(calls, id) == ""
  {
    if calls != [] {
      hide After, About;
      SentStep(calls);
      var front := calls[..|calls| - 1];
      Newest(front);
      GathersStep(AfterAll(front), calls[|calls| - 1]);
      NothingOfLater(front, id);
    }
  }

  lemma {:induction false} Newest(calls: seq<Call>)
    ensures Gathers(AfterAll(calls), Joined(AfterAll(calls).output))
  {
    if calls != [] {
      hide After, Joined;
      Newest(calls[..|calls| - 1]);
      GathersStep(AfterAll(calls[..|calls| - 1]), calls[|calls| - 1]);
    }
  }

  /** While a request is active, the output gathered is what was printed for it. */
  lemma {:induction false} GatheredIsPrinted(calls: seq<Call>)
    requires OfSentOnly(calls)
    ensures Gathers(AfterAll(calls), Text(calls, AfterAll(calls).requestId))
  {
    if calls != [] {
      hide After, Joined, About, Line;
      SentStep(calls);
      var front, c := calls[..|calls| - 1], calls[|calls| - 1];
      var s, t := AfterAll(front), AfterAll(calls);
      GatheredIsPrinted(front);
      Newest(front);
      GathersStep(s, c);
      if t.activeId.Some? {
        if t.requestId == s.requestId {
          OutputStep(s, c);
        } else {
          NothingOfLater(front, t.requestId);
          JoinedNone();
        }
      }
    }
  }

  lemma JoinedNone()
    ensures Joined([]) == ""
  {
  }

  /** Call k is the helper's report of the active request, and e says what it reported and all that it printed. */
  ghost predicate Reported(calls: seq<Call>, k: nat, e: Completion) {
    && k < |calls| && calls[k].Receive? && calls[k].m.FinishedReport?
    && AfterAll(calls[..k]).activeId == Some(calls[k].m.id)
    && e == Completion(calls[k].m.code, Text(calls[..k], calls[k].m.id), Purpose(AfterAll(calls[..k])))
  }

  /** The helper's report of the active request completes it, with the code reported and everything it printed. */
  lemma ReportCompletes(calls: seq<Call>)
    requires calls != [] && OfSentOnly(calls)
    ensures var s, c := AfterAll(calls[..|calls| - 1]), calls[|calls| - 1];
            c.Receive? && c.m.FinishedReport? && s.activeId == Some(c.m.id) ==>
            && AfterAll(calls).completed
               == s.completed + [Completion(c.m.code, Text(calls[..|calls| - 1], c.m.id), Purpose(s))]
            && AfterAll(calls).activeId == None && AfterAll(calls).request == None
  {
    hide After, Text, About, Purpose;
    SentStep(calls);
    GatheredIsPrinted(calls[..|calls| - 1]);
    FinishStep(AfterAll(calls[..|calls| - 1]), calls[|calls| - 1]);
  }

  lemma FinishStep(s: State, c: Call)
    ensures var t := After(s, c);
            c.Receive? && c.m.FinishedReport? && s.activeId == Some(c.m.id) ==>
            && t.completed == s.completed + [Completion(c.m.code, Joined(s.output), Purpose(s))]
            && t.activeId == None && t.request == None
  {
    hide Joined, Purpose, Submitted, Clamped;
  }

  lemma FailsOrReports(s: State, c: Call)
    ensures var t := After(s, c);
            || t.completed == s.completed
            || (c.Receive? && c.m.FinishedReport? && s.activeId == Some(c.m.id))
            || exists e: Completion :: e.code != 0 && t.completed == s.completed + [e]
  {
    hide Joined, Clamped, Stripped, Purpose;
    var t := After(s, c);
    if t.completed != s.completed {
      var e := t.completed[|t.completed| - 1];
      assert t.completed == s.completed + [e];
    }
  }

  /** A request is answered with success only when the helper reported that request's success. */
  lemma {:induction false} SuccessIsReported(calls: seq<Call>, j: nat)
    requires OfSentOnly(calls) && j < |AfterAll(calls).completed| && AfterAll(calls).completed[j].code == 0
    ensures exists k: nat :: Reported(calls, k, AfterAll(calls).completed[j])
  {
    var front, c := calls[..|calls| - 1], calls[|calls| - 1];
    var s, t := AfterAll(front), AfterAll(calls);
    hide After, About, Text, Purpose;
    SentStep(calls);
    FailsOrReports(s, c);
    ReportCompletes(calls);
    if j < |s.completed| {
      assert t.completed[j] == s.completed[j];
      SuccessIsReported(front, j);
      var k: nat :| Reported(front, k, t.completed[j]);
      ReportedLater(calls, k, t.completed[j]);
    } else {
      assert calls[..|front|] == front;
      assert Reported(calls, |front|, t.completed[j]);
    }
  }

  lemma ReportedLater(calls: seq<Call>, k: nat, e: Completion)
    requires calls != [] && Reported(calls[..|calls| - 1], k, e)
    ensures Reported(calls, k, e)
  {
    hide AfterAll, Text, Purpose;
    assert calls[..|calls| - 1][..k] == calls[..k];
  }
}
