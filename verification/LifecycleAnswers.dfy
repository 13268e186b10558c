/** What each request answers, in the order of its checks, and what it stores when it is done. */
module LifecycleAnswers {
  import opened Prelude
  import opened Lifecycle
  import opened LifecycleInvariant
  import opened LifecycleReview

  // ---------- Reported events ----------

  /** The source reported this decision, and it is stored. */
  ghost predicate Known(s: Store, source: Id, ext: string) {
    (source, ext) in s.index && s.index[(source, ext)] in s.decisions
  }

  /** One of the options carries this external identifier. */
  ghost predicate Offered(options: seq<DecisionOption>, option: string) {
    exists i :: 0 <= i < |options| && options[i].externalId == Some(option)
  }

  lemma {:induction false} FoundExactly(options: seq<DecisionOption>, option: string)
    ensures FindExternal(options, option).Some? <==> Offered(options, option)
    decreases |options|
  {
    if options != [] {
      FoundExactly(options[1..], option);
      if Offered(options[1..], option) {
        var i :| 0 <= i < |options[1..]| && options[1..][i].externalId == Some(option);
        assert options[i + 1].externalId == Some(option);
      }
      if Offered(options, option) && options[0].externalId != Some(option) {
        var i :| 0 <= i < |options| && options[i].externalId == Some(option);
        assert options[1..][i - 1].externalId == Some(option);
      }
    }
  }

  /** Why a report is invalid, whatever was stored before: the first check that fails. */
  ghost predicate Invalid(s: Store, source: Id, report: Report, failure: Failure) {
    match report
    case Interaction => false
    case NewDecision(_, options) =>
      && failure == DecisionOptionsInvalid
      && (|options| < 2 || exists i, j :: 0 <= i < j < |options| && options[i] == options[j])
    case Choice(ext, option, _) =>
      && failure == OptionNotFound
      && Known(s, source, ext) && !Offered(s.decisions[s.index[(source, ext)]].options, option)
    case Result(_, _, complete, wellbeing) =>
      if complete then failure == WellbeingNotReportable && wellbeing.Some? else failure == ReportIncomplete
  }

  ghost predicate Valid(s: Store, source: Id, report: Report) {
    forall failure :: !Invalid(s, source, report, failure)
  }

  lemma ValidatesExactly(s: Store, source: Id, report: Report, failure: Failure)
    ensures Validate(s, source, report) == Some(failure) <==> Invalid(s, source, report, failure)
  {
    if report.Choice? && Known(s, source, report.externalDecision) {
      FoundExactly(s.decisions[s.index[(source, report.externalDecision)]].options, report.externalOption);
    }
  }

  lemma ValidExactly(s: Store, source: Id, report: Report)
    ensures Validate(s, source, report).None? <==> Valid(s, source, report)
  {
    forall failure ensures Validate(s, source, report) == Some(failure) <==> Invalid(s, source, report, failure) {
      ValidatesExactly(s, source, report, failure);
    }
    if Validate(s, source, report).Some? { assert Invalid(s, source, report, Validate(s, source, report).value); }
  }

  /** An event is answered by the first check that fails: its own validity, then whether its identifier was
  seen, then whether its decision was. */
  ghost predicate EventAnswers(s: Store, source: Id, id: string, content: string, report: Report, reply: Reply) {
    if !Valid(s, source, report) then reply.Refused? && Invalid(s, source, report, reply.failure)
    else if (source, id) in s.seen then
      reply == if s.seen[(source, id)] == OfReport(content, report) then Duplicate else Refused(ExternalEventConflict)
    else if report.NewDecision? && (source, report.externalDecision) in s.index then
      reply == Refused(ExternalDecisionConflict)
    else reply == Done
  }

  lemma EventAnswersExactly(k: Kernel, s: Store, source: Id, id: string, content: string, report: Report)
    ensures EventAnswers(s, source, id, content, report, RecordEvent(k, s, source, id, content, report).1)
    ensures RecordEvent(k, s, source, id, content, report).1 != Done ==>
      RecordEvent(k, s, source, id, content, report).0 == s
  {
    ValidExactly(s, source, report);
    if Validate(s, source, report).Some? { ValidatesExactly(s, source, report, Validate(s, source, report).value); }
  }

  /** An interaction leaves nothing but its event. */
  lemma InteractionStored(k: Kernel, s: Store, source: Id, id: string, content: string)
    requires RecordEvent(k, s, source, id, content, Interaction).1 == Done
    ensures RecordEvent(k, s, source, id, content, Interaction).0
      == s.(next := s.next + 1, seen := s.seen[(source, id) := OfReport(content, Interaction)])
  {
  }

  /** A result is stored as a new observation of its own source, event and decision, pending exactly when
  the decision is known, and nothing else changes. */
  lemma ResultStored(k: Kernel, s: Store, source: Id, id: string, content: string, report: Report)
    requires report.Result? && RecordEvent(k, s, source, id, content, report).1 == Done
    ensures var t := RecordEvent(k, s, source, id, content, report).0; var ext := report.externalDecision;
      && t.results.Keys == s.results.Keys + {s.next + 1}
      && (forall o <- s.results :: o != s.next + 1 ==> t.results[o] == s.results[o])
      && t.results[s.next + 1].source == source && t.results[s.next + 1].event == s.next
      && t.results[s.next + 1].externalDecision == Some(ext) && t.results[s.next + 1].wellbeing == None
      && t.results[s.next + 1].kind == (if report.technical then Technical else UserBehavior)
      && t.results[s.next + 1].decision == (if Known(s, source, ext) then Some(s.index[(source, ext)]) else None)
      && t.results[s.next + 1].status == (if Known(s, source, ext) then Pending else Unmatched)
      && t.next == s.next + 2 && t.choices == s.choices && t.decisions == s.decisions && t.index == s.index
      && t.resolutions == s.resolutions && t.evidence == s.evidence && t.outcomes == s.outcomes
  {
  }

  /** A choice is stored under its own source, event and decision; it resolves the decision exactly when it
  is confirmed at once. */
  lemma ChoiceStored(k: Kernel, s: Store, source: Id, id: string, content: string, ext: string, option: string,
                     promotable: bool)
    requires RecordEvent(k, s, source, id, content, Choice(ext, option, promotable)).1 == Done
    ensures var t := RecordEvent(k, s, source, id, content, Choice(ext, option, promotable)).0;
      && t.choices.Keys == s.choices.Keys + {s.next + 1}
      && (forall c <- s.choices :: c != s.next + 1 ==> t.choices[c] == s.choices[c])
      && t.choices[s.next + 1].source == source && t.choices[s.next + 1].event == s.next
      && t.choices[s.next + 1].externalDecision == ext
      && t.choices[s.next + 1].decision == (if Known(s, source, ext) then Some(s.index[(source, ext)]) else None)
      && t.next == s.next + 2 && t.index == s.index && t.results == s.results && t.outcomes == s.outcomes
      && (t.choices[s.next + 1].status != Confirmed ==>
            t.decisions == s.decisions && t.resolutions == s.resolutions && t.evidence == s.evidence)
  {
    ChoiceIngested(k, s, ChoiceFor(s, source, ext, option, promotable));
  }

  lemma ChoiceIngested(k: Kernel, s: Store, c: ChoiceReport)
    requires c.status == Confirmed ==> c.chosen.Some? && c.decision.Some? && c.decision.value in s.decisions
    ensures var t := IngestChoice(k, s, c);
      && t.choices == s.choices[s.next + 1 := c] && t.next == s.next + 2
      && t.index == s.index && t.results == s.results && t.outcomes == s.outcomes
      && (c.status != Confirmed ==>
            t.decisions == s.decisions && t.resolutions == s.resolutions && t.evidence == s.evidence)
  {
  }

  // ---------- The owner's review ----------

  /** What confirming answers for a choice. */
  ghost predicate ChoiceAnswers(s: Store, c: ChoiceReport, reply: Reply) {
    if c.status != Pending || c.decision.None? then reply == Refused(NotConfirmable)
    else if c.decision.value !in s.decisions then reply == Refused(DecisionNotFound)
    else if s.decisions[c.decision.value].resolved then reply == Refused(AlreadyResolved)
    else if c.chosen.None? then reply == Refused(ObservationStateChanged)
    else reply == Done
  }

  /** What confirming answers for a report of satisfaction or a result. */
  ghost predicate ReportAnswers(s: Store, o: OutcomeReport, payload: Option<Wellbeing>, reply: Reply) {
    if o.kind != OwnerReported || o.decision.None? || o.status != Pending then reply == Refused(NotConfirmable)
    else if payload.None? then reply == Refused(PayloadRequired)
    else OutcomeAnswers(s, o.decision.value, reply)
  }

  ghost predicate OutcomeAnswers(s: Store, decision: Id, reply: Reply) {
    if decision !in s.decisions then reply == Refused(DecisionNotFound)
    else if !s.decisions[decision].resolved then reply == Refused(NotResolved)
    else if exists i :: 0 <= i < |s.outcomes| && s.outcomes[i].decision == decision then
      reply == Refused(OutcomeAlreadyRecorded)
    else reply == Done
  }

  lemma ConfirmAnswersExactly(k: Kernel, s: Store, id: Id, payload: Option<Wellbeing>, crash: bool)
    ensures var (t, reply) := Handle(k, s, ReqConfirm(id, payload, crash));
      && (id in s.results ==> ReportAnswers(s, s.results[id], payload, reply))
      && (id !in s.results && id in s.choices ==> ChoiceAnswers(s, s.choices[id], reply))
      && (id !in s.results && id !in s.choices ==> reply == Refused(ObservationNotFound))
      && (reply != Done ==> t == s)
  {
  }

  /** A confirmed choice resolves its decision by its option, with the whole Evidence, and nothing else. */
  lemma ConfirmedChoiceStored(k: Kernel, s: Store, id: Id, payload: Option<Wellbeing>, crash: bool)
    requires id !in s.results && Handle(k, s, ReqConfirm(id, payload, crash)).1 == Done
    ensures var t := Handle(k, s, ReqConfirm(id, payload, crash)).0; var c := s.choices[id];
      && id in s.choices && c.decision.Some? && c.chosen.Some? && c.decision.value in s.decisions
      && var r := Resolution(c.decision.value, c.chosen.value, c.event); var d := s.decisions[r.decision];
         && t == s.(choices := s.choices[id := c.(status := Confirmed)],
                    decisions := s.decisions[r.decision := d.(resolved := true)],
                    resolutions := s.resolutions + [r],
                    evidence := s.evidence + Learned(k, d.options, r))
  {
  }

  /** A rejected report changes its status and nothing else; only an unknown one is refused. */
  lemma RejectExactly(k: Kernel, s: Store, id: Id)
    ensures var (t, reply) := Handle(k, s, ReqReject(id));
      && (id in s.results ==> t == s.(results := s.results[id := s.results[id].(status := Rejected)]))
      && (id !in s.results && id in s.choices ==>
            t == s.(choices := s.choices[id := s.choices[id].(status := Rejected)]))
      && (reply == Done <==> id in s.results || id in s.choices)
      && (reply != Done ==> t == s && reply == Refused(ObservationNotFound))
  {
  }

  // ---------- The owner's own decisions ----------

  /** A created decision is open, and has exactly as many options as asked for, all with new identifiers. */
  lemma CreateStores(k: Kernel, s: Store, count: nat)
    requires Inv(k, s)
    ensures var (t, reply) := Handle(k, s, ReqCreate(count));
      && reply == Done && s.next !in s.decisions && t.decisions.Keys == s.decisions.Keys + {s.next}
      && !t.decisions[s.next].resolved && |t.decisions[s.next].options| == count
      && (forall i :: 0 <= i < count ==>
            t.decisions[s.next].options[i] == DecisionOption(s.next + 1 + i, None))
      && t == s.(next := s.next + 1 + count, decisions := s.decisions[s.next := t.decisions[s.next]])
  {
  }

  ghost predicate HasOption(options: seq<DecisionOption>, option: Id) {
    exists i :: 0 <= i < |options| && options[i].id == option
  }

  ghost predicate ResolveAnswers(s: Store, decision: Id, option: Id, reply: Reply) {
    if decision !in s.decisions then reply == Refused(DecisionNotFound)
    else if s.decisions[decision].resolved then reply == Refused(AlreadyResolved)
    else if !HasOption(s.decisions[decision].options, option) then reply == Refused(OptionNotFound)
    else if |s.decisions[decision].options| < 2 then reply == Refused(DecisionOptionsInvalid)
    else reply == Done
  }

  /** Resolving answers by the first check that fails; when it is done the decision is resolved by that very
  option, and the Evidence is what was written of what the kernel derives. */
  lemma ResolveExactly(k: Kernel, s: Store, decision: Id, option: Id, written: nat)
    ensures var (t, reply) := Handle(k, s, ReqResolve(decision, option, written));
      && ResolveAnswers(s, decision, option, reply)
      && (reply != Done ==> t == s)
      && (reply == Done ==>
            var d := s.decisions[decision];
            && t.next == s.next + 1 && t.decisions == s.decisions[decision := d.(resolved := true)]
            && t.resolutions == s.resolutions + [Resolution(decision, option, s.next)]
            && |t.evidence| == |s.evidence| + Min(written, k(d.options, option)) && s.evidence <= t.evidence
            && (forall i :: |s.evidence| <= i < |t.evidence| ==>
                  t.evidence[i] == Evidence(s.next, decision, i - |s.evidence|))
            && t.choices == s.choices && t.results == s.results && t.outcomes == s.outcomes && t.index == s.index
            && t.seen == s.seen)
  {
  }

  /** Recording an outcome answers by the first check that fails, and adds exactly the owner's values. */
  lemma OutcomeExactly(k: Kernel, s: Store, decision: Id, w: Wellbeing)
    ensures var (t, reply) := Handle(k, s, ReqOutcome(decision, w));
      && OutcomeAnswers(s, decision, reply)
      && t == if reply == Done then s.(next := s.next + 1, outcomes := s.outcomes + [Outcome(decision, w, s.next)])
              else s
  {
  }

  /** Deleting removes the outcomes of that decision and keeps all others; it is refused exactly when there
  is none. */
  lemma DeleteExactly(k: Kernel, s: Store, decision: Id, o: Outcome)
    requires Inv(k, s)
    ensures var (t, reply) := Handle(k, s, ReqDeleteOutcome(decision));
      && (reply == Done <==> exists i :: 0 <= i < |s.outcomes| && s.outcomes[i].decision == decision)
      && (reply != Done ==> t == s && reply == Refused(OutcomeNotFound))
      && (o in t.outcomes <==> o in s.outcomes && o.decision != decision)
      && t == s.(outcomes := t.outcomes)
  {
    WithoutOutcomeOk(s.decisions, s.outcomes, decision);
  }

  // ---------- Identifiers of legacy reports ----------

  lemma DigitsDiffer(a: nat, b: nat)
    requires a < 10 && b < 10 && DIGITS[a] == DIGITS[b]
    ensures a == b
  {
    assert forall i :: 0 <= i < 10 ==> DIGITS[i] as int == 48 + i;
  }

  lemma SpelledParts(id: Id)
    ensures var s := Spelled(id);
      && s != "" && s[|s| - 1] == DIGITS[id % 10]
      && s[..|s| - 1] == if id < 10 then "" else Spelled(id / 10)
  {
  }

  lemma {:induction false} SpelledDiffer(a: Id, b: Id)
    requires Spelled(a) == Spelled(b)
    ensures a == b
  {
    SpelledParts(a);
    SpelledParts(b);
    DigitsDiffer(a % 10, b % 10);
    SpelledParts(a / 10);
    SpelledParts(b / 10);
    if a >= 10 && b >= 10 { SpelledDiffer(a / 10, b / 10); }
  }

  /** Legacy reports of different decisions have different identifiers, so one never stands in the way of
  another; all of them begin alike. */
  lemma LegacyKeysDiffer(a: Id, b: Id)
    ensures LegacyKey(a) == LegacyKey(b) ==> a == b
    ensures "legacy_outcome:" < LegacyKey(a)
  {
    SpelledParts(a);
    assert LegacyKey(a)[|"legacy_outcome:"|..] == Spelled(a) && LegacyKey(b)[|"legacy_outcome:"|..] == Spelled(b);
    if LegacyKey(a) == LegacyKey(b) { SpelledDiffer(a, b); }
  }
}
