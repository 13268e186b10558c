/** Theorems about owner review: which reports can be confirmed, how often, and what agents can
never cause. */
module LifecycleReview {
  import opened Prelude
  import opened Lifecycle
  import opened LifecycleInvariant

  // ---------- Stored records, in one place ----------

  /** Every store a run can reach: one resolution per resolved decision, by one of its own options;
  outcomes on resolved decisions only, one each; a confirmed choice has its whole Evidence. */
  lemma ReachableStoresSound(k: Kernel, requests: seq<Request>)
    ensures var s := Run(k, EMPTY, requests);
      && (forall d <- s.decisions ::
            s.decisions[d].resolved <==> exists i :: 0 <= i < |s.resolutions| && s.resolutions[i].decision == d)
      && (forall i, j :: 0 <= i < j < |s.resolutions| ==> s.resolutions[i].decision != s.resolutions[j].decision)
      && (forall r <- s.resolutions :: r.decision in s.decisions && Belongs(s.decisions[r.decision].options, r.option))
      && (forall o <- s.outcomes :: o.decision in s.decisions && s.decisions[o.decision].resolved)
      && (forall i, j :: 0 <= i < j < |s.outcomes| ==> s.outcomes[i].decision != s.outcomes[j].decision)
      && (forall i, j :: 0 <= i < j < |s.evidence| ==> s.evidence[i] != s.evidence[j])
      && (forall id <- s.choices | s.choices[id].status == Confirmed ::
            var c := s.choices[id];
            && c.decision.Some? && c.chosen.Some?
            && Applied(k, s, Resolution(c.decision.value, c.chosen.value, c.event)))
  {
    EmptyStoreOk(k);
    RunKeeps(k, EMPTY, requests);
    var s := Run(k, EMPTY, requests);
    forall d <- s.decisions
      ensures s.decisions[d].resolved <==> exists i :: 0 <= i < |s.resolutions| && s.resolutions[i].decision == d
    {
      if s.decisions[d].resolved { assert Resolves(s.resolutions, d); }
    }
  }

  // ---------- Status only moves forward ----------

  /** Where one request may move a report, or (not `direct`) a whole run. */
  predicate Moves(direct: bool, a: Status, b: Status) {
    || a == b
    || b == Rejected
    || (a == Unmatched && (b == Pending || !direct))
    || (a == Pending && b == Confirmed)
  }

  ghost predicate ChoiceMoves(a: ChoiceReport, b: ChoiceReport, direct: bool) {
    && Moves(direct, a.status, b.status)
    && b.chosen == a.chosen && b.event == a.event
    && (a.decision.Some? ==> b.decision == a.decision)
  }

  ghost predicate ResultMoves(a: OutcomeReport, b: OutcomeReport, direct: bool) {
    && Moves(direct, a.status, b.status)
    && b.kind == a.kind && b.wellbeing == a.wellbeing
    && (a.decision.Some? ==> b.decision == a.decision)
  }

  ghost predicate ReportsMove(s: Store, t: Store, direct: bool) {
    && (forall id <- s.choices :: id in t.choices && ChoiceMoves(s.choices[id], t.choices[id], direct))
    && (forall id <- s.results :: id in t.results && ResultMoves(s.results[id], t.results[id], direct))
  }

  lemma AttachingMovesReports(s: Store, source: Id, ext: string, options: seq<string>)
    ensures ReportsMove(s, IngestDecision(s, source, ext, options), true)
  {
  }

  lemma IngestMovesReports(k: Kernel, s: Store, source: Id, report: Report)
    requires FreshIds(s) && Validate(s, source, report).None?
    ensures ReportsMove(s, Ingest(k, s, source, report), true)
  {
    if report.NewDecision? {
      AttachingMovesReports(s, source, report.externalDecision, report.externalOptions);
    }
  }

  lemma RecordEventMovesReports(k: Kernel, s: Store, source: Id, id: string, content: string, report: Report)
    requires FreshIds(s)
    ensures ReportsMove(s, RecordEvent(k, s, source, id, content, report).0, true)
  {
    if RecordEvent(k, s, source, id, content, report).1 == Done { IngestMovesReports(k, s, source, report); }
  }

  lemma WellbeingMovesReports(s: Store, source: Id, decision: Id, w: Wellbeing, notes: string)
    requires FreshIds(s)
    ensures ReportsMove(s, ReportWellbeing(s, source, decision, w, notes).0, true)
  {
  }

  lemma ConfirmChoiceMovesReports(k: Kernel, s: Store, id: Id)
    ensures ReportsMove(s, ConfirmChoice(k, s, id).0, true)
  {
  }

  lemma StatusMovesReports(s: Store, t: Store, id: Id, status: Status)
    requires id in s.results && Moves(true, s.results[id].status, status)
    requires t.choices == s.choices && t.results == s.results[id := s.results[id].(status := status)]
    ensures ReportsMove(s, t, true)
  {
  }

  lemma SameReportsMove(s: Store, t: Store)
    requires t.choices == s.choices && t.results == s.results
    ensures ReportsMove(s, t, true)
  {
  }

  lemma ConfirmMovesReports(k: Kernel, s: Store, id: Id, payload: Option<Wellbeing>, crash: bool)
    ensures ReportsMove(s, Confirm(k, s, id, payload, crash).0, true)
  {
    if id in s.results {
      var t := Confirm(k, s, id, payload, crash).0;
      ConfirmReportIs(k, s, id, payload, crash);
      if t.results == s.results {
        SameReportsMove(s, t);
      } else {
        StatusMovesReports(s, t, id, Confirmed);
      }
    } else {
      ConfirmChoiceMovesReports(k, s, id);
    }
  }

  lemma RejectMovesReports(s: Store, id: Id)
    ensures ReportsMove(s, Reject(s, id).0, true)
  {
  }

  lemma OwnMovesNoReports(k: Kernel, s: Store, r: Request)
    requires r.ReqCreate? || r.ReqResolve? || r.ReqOutcome? || r.ReqDeleteOutcome?
    ensures Handle(k, s, r).0.choices == s.choices && Handle(k, s, r).0.results == s.results
  {
  }

  /** One request moves a report along unmatched, pending, confirmed, or to rejected, and never
  changes the option it chose or the decision it belongs to. */
  lemma StepMovesReports(k: Kernel, s: Store, r: Request)
    requires FreshIds(s)
    ensures ReportsMove(s, Handle(k, s, r).0, true)
  {
    match r
    case ReqRecord(source, id, content, report) => RecordEventMovesReports(k, s, source, id, content, report);
    case ReqWellbeing(source, decision, w, notes) => WellbeingMovesReports(s, source, decision, w, notes);
    case ReqConfirm(id, payload, crash) => ConfirmMovesReports(k, s, id, payload, crash);
    case ReqReject(id) => RejectMovesReports(s, id);
    case _ => OwnMovesNoReports(k, s, r);
  }

  lemma {:induction false} RunMovesReports(k: Kernel, s: Store, requests: seq<Request>)
    requires Inv(k, s)
    ensures ReportsMove(s, Run(k, s, requests), false)
    decreases |requests|
  {
    if requests != [] {
      var t := Handle(k, s, requests[0]).0;
      StepKeeps(k, s, requests[0]);
      StepMovesReports(k, s, requests[0]);
      RunMovesReports(k, t, requests[1..]);
      ReportsMoveOn(s, t, Run(k, s, requests));
    }
  }

  lemma ReportsMoveOn(s: Store, t: Store, u: Store)
    requires ReportsMove(s, t, true) && ReportsMove(t, u, false)
    ensures ReportsMove(s, u, false)
  {
    forall id <- s.choices ensures id in u.choices && ChoiceMoves(s.choices[id], u.choices[id], false) {
      assert ChoiceMoves(s.choices[id], t.choices[id], true) && ChoiceMoves(t.choices[id], u.choices[id], false);
    }
    forall id <- s.results ensures id in u.results && ResultMoves(s.results[id], u.results[id], false) {
      assert ResultMoves(s.results[id], t.results[id], true) && ResultMoves(t.results[id], u.results[id], false);
    }
  }

  // ---------- Confirmation ----------

  /** Exactly when a confirmation succeeds. */
  lemma ConfirmSucceedsExactly(k: Kernel, s: Store, id: Id, payload: Option<Wellbeing>, crash: bool)
    requires Inv(k, s)
    ensures Confirm(k, s, id, payload, crash).1 == Done <==>
      if id in s.results then
        && s.results[id].kind == OwnerReported && s.results[id].status == Pending && payload.Some?
        && !HasOutcome(s.outcomes, s.results[id].decision.value)
      else
        && id in s.choices && s.choices[id].status == Pending && s.choices[id].chosen.Some?
        && !s.decisions[s.choices[id].decision.value].resolved
    ensures Confirm(k, s, id, payload, crash).1 != Done ==> Confirm(k, s, id, payload, crash).0 == s
    ensures Confirm(k, s, id, payload, crash).1 == Refused(ObservationStateChanged) <==>
      && id !in s.results && id in s.choices && s.choices[id].status == Pending && s.choices[id].chosen.None?
      && !s.decisions[s.choices[id].decision.value].resolved
  {
    if id in s.choices { assert ChoiceOk(k, s, s.choices[id]); }
    if id in s.results { assert ResultOk(s, s.results[id]); }
  }

  predicate IsConfirmed(s: Store, id: Id) {
    if id in s.results then s.results[id].status == Confirmed else id in s.choices && s.choices[id].status == Confirmed
  }

  predicate NotPending(s: Store, id: Id) {
    if id in s.results then s.results[id].status != Pending else id in s.choices && s.choices[id].status != Pending
  }

  lemma ConfirmSettles(k: Kernel, s: Store, id: Id, payload: Option<Wellbeing>)
    requires Confirm(k, s, id, payload, false).1 == Done
    ensures IsConfirmed(Confirm(k, s, id, payload, false).0, id)
  {
  }

  lemma ConfirmedStays(k: Kernel, s: Store, id: Id, requests: seq<Request>)
    requires Inv(k, s) && IsConfirmed(s, id)
    ensures NotPending(Run(k, s, requests), id)
  {
    RunKeeps(k, s, requests);
    RunMovesReports(k, s, requests);
    MovedFromConfirmed(s, Run(k, s, requests), id);
  }

  lemma MovedFromConfirmed(s: Store, t: Store, id: Id)
    requires FreshIds(t) && ReportsMove(s, t, false) && IsConfirmed(s, id)
    ensures NotPending(t, id)
  {
    if id in s.results {
      assert ResultMoves(s.results[id], t.results[id], false);
    } else {
      assert ChoiceMoves(s.choices[id], t.choices[id], false);
    }
  }

  /** A report that is not pending is not confirmed. */
  lemma NotPendingIsRefused(k: Kernel, s: Store, id: Id, payload: Option<Wellbeing>, crash: bool)
    requires NotPending(s, id)
    ensures Confirm(k, s, id, payload, crash) == (s, Refused(NotConfirmable))
  {
  }

  lemma SettledIsRefused(k: Kernel, s: Store, id: Id, requests: seq<Request>, again: Option<Wellbeing>, crash: bool)
    requires Inv(k, s) && IsConfirmed(s, id)
    ensures var t := Run(k, s, requests); Confirm(k, t, id, again, crash) == (t, Refused(NotConfirmable))
  {
    ConfirmedStays(k, s, id, requests);
    RunKeeps(k, s, requests);
    NotPendingIsRefused(k, Run(k, s, requests), id, again, crash);
  }

  /** A report is confirmed at most once: after a confirmation, whatever happens next, another one
  is refused and changes nothing. */
  lemma ConfirmedAtMostOnce(k: Kernel, s: Store, id: Id, payload: Option<Wellbeing>, requests: seq<Request>,
                            again: Option<Wellbeing>, crash: bool)
    requires Inv(k, s) && Confirm(k, s, id, payload, false).1 == Done
    ensures var t := Run(k, Confirm(k, s, id, payload, false).0, requests);
      Confirm(k, t, id, again, crash) == (t, Refused(NotConfirmable))
  {
    ConfirmKeeps(k, s, id, payload, false);
    ConfirmSettles(k, s, id, payload);
    SettledIsRefused(k, Confirm(k, s, id, payload, false).0, id, requests, again, crash);
  }

  // ---------- Choices reported before their decision ----------

  /** A report carries an option exactly when its decision was stored before it. */
  lemma OptionIffMatched(k: Kernel, s: Store, source: Id, id: string, content: string, ext: string, option: string,
                         promotable: bool)
    requires Inv(k, s)
    requires RecordEvent(k, s, source, id, content, Choice(ext, option, promotable)).1 == Done
    ensures var t := RecordEvent(k, s, source, id, content, Choice(ext, option, promotable)).0;
      && s.next + 1 in t.choices
      && (t.choices[s.next + 1].chosen.Some? <==> Matched(s, source, ext).Some?)
      && (t.choices[s.next + 1].chosen.Some? <==> t.choices[s.next + 1].status != Unmatched)
  {
  }

  /** The option stands among these under this external identifier. */
  ghost predicate Reported(options: seq<DecisionOption>, externalId: string, option: Id) {
    exists i :: 0 <= i < |options| && options[i].id == option && options[i].externalId == Some(externalId)
  }

  lemma {:induction false} FoundOptionMatches(options: seq<DecisionOption>, externalId: string)
    requires FindExternal(options, externalId).Some?
    ensures Reported(options, externalId, FindExternal(options, externalId).value)
    decreases |options|
  {
    if options[0].externalId != Some(externalId) {
      FoundOptionMatches(options[1..], externalId);
      var option := FindExternal(options, externalId).value;
      assert Reported(options[1..], externalId, option);
      var i :| && 0 <= i < |options[1..]| && options[1..][i].id == option
               && options[1..][i].externalId == Some(externalId);
      assert options[i + 1].id == option;
    }
  }

  /** A reported choice is promoted exactly when it is the owner's promotable one on a known, open
  decision; its decision is then resolved by the very option that was reported. */
  lemma PromotedExactly(k: Kernel, s: Store, source: Id, id: string, content: string, ext: string, option: string,
                        promotable: bool)
    requires Inv(k, s) && RecordEvent(k, s, source, id, content, Choice(ext, option, promotable)).1 == Done
    ensures var t := RecordEvent(k, s, source, id, content, Choice(ext, option, promotable)).0;
      var d := Matched(s, source, ext);
      && s.next + 1 in t.choices
      && (t.choices[s.next + 1].status == Confirmed <==> promotable && d.Some? && !s.decisions[d.value].resolved)
      && (t.choices[s.next + 1].status == Confirmed ==>
            && t.decisions[d.value].resolved
            && t.resolutions == s.resolutions + [Resolution(d.value, t.choices[s.next + 1].chosen.value, s.next)])
      && (d.Some? ==>
            && t.choices[s.next + 1].chosen.Some?
            && Reported(s.decisions[d.value].options, option, t.choices[s.next + 1].chosen.value))
  {
    var d := Matched(s, source, ext);
    if d.Some? { FoundOptionMatches(s.decisions[d.value].options, option); }
  }

  predicate ChoiceAttached(a: ChoiceReport, b: ChoiceReport, source: Id, ext: string, decision: Id) {
    if a.source == source && a.externalDecision == ext && a.status == Unmatched
    then b == a.(decision := Some(decision), status := Pending) else b == a
  }

  predicate ResultAttached(a: OutcomeReport, b: OutcomeReport, source: Id, ext: string, decision: Id) {
    if a.source == source && a.externalDecision == Some(ext) && a.status == Unmatched
    then b == a.(decision := Some(decision), status := Pending) else b == a
  }

  /** A new decision attaches exactly the unmatched reports its own source made under its identifier,
  and leaves every other report as it was. */
  lemma NewDecisionAttachesExactly(k: Kernel, s: Store, source: Id, id: string, content: string, ext: string,
                                   options: seq<string>, report: Id)
    requires Inv(k, s) && RecordEvent(k, s, source, id, content, NewDecision(ext, options)).1 == Done
    ensures var t := RecordEvent(k, s, source, id, content, NewDecision(ext, options)).0;
      && Matched(t, source, ext) == Some(s.next + 1) && !t.decisions[s.next + 1].resolved
      && (report in s.choices ==>
            report in t.choices && ChoiceAttached(s.choices[report], t.choices[report], source, ext, s.next + 1))
      && (report in s.results ==>
            report in t.results && ResultAttached(s.results[report], t.results[report], source, ext, s.next + 1))
  {
    if report in s.choices { assert ChoiceOk(k, s, s.choices[report]); }
    if report in s.results { assert ResultOk(s, s.results[report]); }
  }

  /** A stored choice without an option is never confirmed, in no run. */
  lemma NoOptionNeverConfirmed(k: Kernel, s: Store, id: Id, requests: seq<Request>, payload: Option<Wellbeing>,
                               crash: bool)
    requires Inv(k, s) && id in s.choices && s.choices[id].chosen.None?
    ensures var t := Run(k, s, requests);
      && id in t.choices && t.choices[id].status != Confirmed
      && Confirm(k, t, id, payload, crash).1 != Done
  {
    RunKeeps(k, s, requests);
    RunMovesReports(k, s, requests);
    var t := Run(k, s, requests);
    assert ChoiceMoves(s.choices[id], t.choices[id], false);
    assert ChoiceOk(k, t, t.choices[id]);
    assert id !in t.results by { assert id in t.choices; }
  }

  lemma UnmatchedChoiceStored(k: Kernel, s: Store, source: Id, id: string, content: string, ext: string, option: string,
                              promotable: bool)
    requires Matched(s, source, ext).None?
    requires RecordEvent(k, s, source, id, content, Choice(ext, option, promotable)).1 == Done
    ensures var t := RecordEvent(k, s, source, id, content, Choice(ext, option, promotable)).0;
      s.next + 1 in t.choices && t.choices[s.next + 1] == ChoiceReport(source, s.next, ext, None, None, Unmatched)
  {
  }

  lemma UnmatchedChoiceAttaches(k: Kernel, s: Store, source: Id, id: string, content: string, ext: string,
                                options: seq<string>, c: Id)
    requires c in s.choices && s.choices[c].source == source && s.choices[c].externalDecision == ext
    requires s.choices[c].decision.None? && s.choices[c].status == Unmatched
    requires RecordEvent(k, s, source, id, content, NewDecision(ext, options)).1 == Done
    ensures var t := RecordEvent(k, s, source, id, content, NewDecision(ext, options)).0;
      && c in t.choices && t.choices[c] == s.choices[c].(decision := Some(s.next + 1), status := Pending)
      && Matched(t, source, ext) == Some(s.next + 1)
  {
  }

  lemma LateDecisionAttaches(k: Kernel, s: Store, source: Id, id1: string, id2: string, content1: string,
                             content2: string, ext: string, option: string, options: seq<string>, promotable: bool)
    requires Matched(s, source, ext).None?
    requires RecordEvent(k, s, source, id1, content1, Choice(ext, option, promotable)).1 == Done
    requires var s1 := RecordEvent(k, s, source, id1, content1, Choice(ext, option, promotable)).0;
      RecordEvent(k, s1, source, id2, content2, NewDecision(ext, options)).1 == Done
    ensures var s1 := RecordEvent(k, s, source, id1, content1, Choice(ext, option, promotable)).0;
      var s2 := RecordEvent(k, s1, source, id2, content2, NewDecision(ext, options)).0;
      && s.next + 1 in s2.choices && s2.choices[s.next + 1].status == Pending && s2.choices[s.next + 1].chosen.None?
      && s2.choices[s.next + 1].decision == Matched(s2, source, ext)
  {
    UnmatchedChoiceStored(k, s, source, id1, content1, ext, option, promotable);
    var s1 := RecordEvent(k, s, source, id1, content1, Choice(ext, option, promotable)).0;
    UnmatchedChoiceAttaches(k, s1, source, id2, content2, ext, options, s.next + 1);
  }

  /** So a choice reported before its decision is stranded: once its source reports the decision the
  choice is pending for it, even when the decision has the chosen option, but no run confirms it. */
  lemma LateDecisionStrandsChoice(k: Kernel, s: Store, source: Id, id1: string, id2: string, content1: string,
                                  content2: string, ext: string, option: string, options: seq<string>, promotable: bool,
                                  requests: seq<Request>, payload: Option<Wellbeing>, crash: bool)
    requires Inv(k, s) && Matched(s, source, ext).None?
    requires RecordEvent(k, s, source, id1, content1, Choice(ext, option, promotable)).1 == Done
    requires var s1 := RecordEvent(k, s, source, id1, content1, Choice(ext, option, promotable)).0;
      RecordEvent(k, s1, source, id2, content2, NewDecision(ext, options)).1 == Done
    ensures var s1 := RecordEvent(k, s, source, id1, content1, Choice(ext, option, promotable)).0;
      var s2 := RecordEvent(k, s1, source, id2, content2, NewDecision(ext, options)).0;
      var t := Run(k, s2, requests);
      && s.next + 1 in s2.choices && s2.choices[s.next + 1].status == Pending
      && s2.choices[s.next + 1].decision == Matched(s2, source, ext)
      && Confirm(k, t, s.next + 1, payload, crash).1 != Done
  {
    var s1 := RecordEvent(k, s, source, id1, content1, Choice(ext, option, promotable)).0;
    RecordEventKeeps(k, s, source, id1, content1, Choice(ext, option, promotable));
    RecordEventKeeps(k, s1, source, id2, content2, NewDecision(ext, options));
    var s2 := RecordEvent(k, s1, source, id2, content2, NewDecision(ext, options)).0;
    LateDecisionAttaches(k, s, source, id1, id2, content1, content2, ext, option, options, promotable);
    NoOptionNeverConfirmed(k, s2, s.next + 1, requests, payload, crash);
  }

  // ---------- A crash between the outcome and the status ----------

  predicate Deletes(r: Request, decision: Id) {
    r.ReqDeleteOutcome? && r.decision == decision
  }

  lemma RecordKeepsOutcomes(k: Kernel, s: Store, source: Id, id: string, content: string, report: Report)
    ensures RecordEvent(k, s, source, id, content, report).0.outcomes == s.outcomes
  {
    if Validate(s, source, report).None? { assert Ingest(k, s, source, report).outcomes == s.outcomes; }
  }

  lemma ConfirmGrowsOutcomes(k: Kernel, s: Store, id: Id, payload: Option<Wellbeing>, crash: bool)
    ensures s.outcomes <= Confirm(k, s, id, payload, crash).0.outcomes
  {
    if id in s.results { ConfirmReportIs(k, s, id, payload, crash); }
  }

  lemma OutcomesGrow(k: Kernel, s: Store, r: Request)
    requires !r.ReqDeleteOutcome?
    ensures s.outcomes <= Handle(k, s, r).0.outcomes
  {
    match r
    case ReqRecord(source, id, content, report) => RecordKeepsOutcomes(k, s, source, id, content, report);
    case ReqConfirm(id, payload, crash) => ConfirmGrowsOutcomes(k, s, id, payload, crash);
    case _ =>
  }

  lemma OutcomeStaysInStep(k: Kernel, s: Store, r: Request, decision: Id)
    requires HasOutcome(s.outcomes, decision) && !Deletes(r, decision)
    ensures HasOutcome(Handle(k, s, r).0.outcomes, decision)
  {
    var t := Handle(k, s, r).0;
    var i :| 0 <= i < |s.outcomes| && s.outcomes[i].decision == decision;
    if r.ReqDeleteOutcome? {
      OthersKept(s.outcomes, r.decision, i);
    } else {
      OutcomesGrow(k, s, r);
      assert t.outcomes[..|s.outcomes|] == s.outcomes;
      assert t.outcomes[i].decision == decision;
    }
  }

  lemma {:induction false} OthersKept(outcomes: seq<Outcome>, decision: Id, i: nat)
    requires i < |outcomes| && outcomes[i].decision != decision
    ensures HasOutcome(WithoutOutcome(outcomes, decision), outcomes[i].decision)
    decreases |outcomes|
  {
    if i == 0 {
      assert WithoutOutcome(outcomes, decision)[0] == outcomes[0];
    } else {
      OthersKept(outcomes[1..], decision, i - 1);
      var rest := WithoutOutcome(outcomes[1..], decision);
      var j :| 0 <= j < |rest| && rest[j].decision == outcomes[i].decision;
      if outcomes[0].decision != decision {
        assert ([outcomes[0]] + rest)[j + 1].decision == outcomes[i].decision;
      }
    }
  }

  lemma {:induction false} OutcomeStays(k: Kernel, s: Store, requests: seq<Request>, decision: Id)
    requires HasOutcome(s.outcomes, decision)
    requires forall i :: 0 <= i < |requests| ==> !Deletes(requests[i], decision)
    ensures HasOutcome(Run(k, s, requests).outcomes, decision)
    decreases |requests|
  {
    if requests != [] {
      OutcomeStaysInStep(k, s, requests[0], decision);
      OutcomeStays(k, Handle(k, s, requests[0]).0, requests[1..], decision);
    }
  }

  /** Confirmed with a crash: the outcome is there, the report as it was. */
  lemma CrashedConfirm(k: Kernel, s: Store, id: Id, w: Wellbeing)
    requires Inv(k, s) && id in s.results && Confirm(k, s, id, Some(w), true).1 == Done
    ensures var s1 := Confirm(k, s, id, Some(w), true).0; var decision := s.results[id].decision;
      && Inv(k, s1) && s1.results == s.results && decision.Some? && decision.value in s1.decisions
      && s.results[id].kind == OwnerReported && s.results[id].status == Pending
      && s1.outcomes == s.outcomes + [Outcome(decision.value, w, s.next)]
      && HasOutcome(s1.outcomes, decision.value)
  {
    ConfirmKeeps(k, s, id, Some(w), true);
    var s1 := Confirm(k, s, id, Some(w), true).0;
    assert s1.outcomes[|s.outcomes|] == Outcome(s.results[id].decision.value, w, s.next);
  }

  /** With an outcome of its decision stored, a report cannot be confirmed. */
  lemma OutcomeBlocks(k: Kernel, s: Store, id: Id, payload: Option<Wellbeing>, crash: bool)
    requires id in s.results && s.results[id].decision.Some? && HasOutcome(s.outcomes, s.results[id].decision.value)
    ensures Confirm(k, s, id, payload, crash).1 != Done
  {
  }

  lemma NoConfirmWhileStored(k: Kernel, s: Store, id: Id, requests: seq<Request>, again: Option<Wellbeing>, crash: bool)
    requires Inv(k, s) && id in s.results && s.results[id].decision.Some?
    requires HasOutcome(s.outcomes, s.results[id].decision.value)
    requires forall i :: 0 <= i < |requests| ==> !Deletes(requests[i], s.results[id].decision.value)
    ensures Confirm(k, Run(k, s, requests), id, again, crash).1 != Done
  {
    OutcomeStays(k, s, requests, s.results[id].decision.value);
    RunMovesReports(k, s, requests);
    var t := Run(k, s, requests);
    assert ResultMoves(s.results[id], t.results[id], false);
    OutcomeBlocks(k, t, id, again, crash);
  }

  /** A crash between the two writes leaves the owner's outcome stored and the report pending; until
  the owner deletes that outcome, no run can confirm the report. */
  lemma CrashLeavesReportOpen(k: Kernel, s: Store, id: Id, w: Wellbeing, requests: seq<Request>,
                              again: Option<Wellbeing>, crash: bool)
    requires Inv(k, s) && id in s.results && Confirm(k, s, id, Some(w), true).1 == Done
    requires forall i :: 0 <= i < |requests| ==> !Deletes(requests[i], s.results[id].decision.value)
    ensures var s1 := Confirm(k, s, id, Some(w), true).0;
      && s1.results[id].status == Pending
      && (exists o <- s1.outcomes :: o.decision == s.results[id].decision.value && o.wellbeing == w)
      && Confirm(k, Run(k, s1, requests), id, again, crash).1 != Done
  {
    CrashedConfirm(k, s, id, w);
    var s1 := Confirm(k, s, id, Some(w), true).0;
    assert s1.outcomes[|s.outcomes|] in s1.outcomes;
    NoConfirmWhileStored(k, s1, id, requests, again, crash);
  }

  lemma ConfirmableWithoutOutcome(k: Kernel, s: Store, id: Id, w: Wellbeing)
    requires Inv(k, s) && id in s.results && s.results[id].kind == OwnerReported && s.results[id].status == Pending
    requires s.results[id].decision.Some? && !HasOutcome(s.outcomes, s.results[id].decision.value)
    ensures Confirm(k, s, id, Some(w), false).1 == Done
  {
    assert ResultOk(s, s.results[id]);
  }

  lemma DeletedIsGone(k: Kernel, s: Store, decision: Id)
    requires Inv(k, s) && decision in s.decisions
    ensures var t := DeleteOutcome(s, decision).0;
      Inv(k, t) && !HasOutcome(t.outcomes, decision) && t.results == s.results
  {
    DeleteOutcomeKeeps(k, s, decision);
    WithoutOutcomeOk(s.decisions, s.outcomes, decision);
    var rest := WithoutOutcome(s.outcomes, decision);
    assert forall i :: 0 <= i < |rest| ==> rest[i] in rest;
  }

  /** Deleting the outcome makes the same report confirmable again. */
  lemma DeletingReopens(k: Kernel, s: Store, id: Id, w: Wellbeing, again: Wellbeing)
    requires Inv(k, s) && id in s.results && Confirm(k, s, id, Some(w), true).1 == Done
    ensures var s1 := Confirm(k, s, id, Some(w), true).0;
      var s2 := DeleteOutcome(s1, s.results[id].decision.value).0;
      Confirm(k, s2, id, Some(again), false).1 == Done
  {
    CrashedConfirm(k, s, id, w);
    var s1 := Confirm(k, s, id, Some(w), true).0;
    DeletedIsGone(k, s1, s.results[id].decision.value);
    ConfirmableWithoutOutcome(k, DeleteOutcome(s1, s.results[id].decision.value).0, id, again);
  }
}
