/** How final a confirmation is, and which reports can still be confirmed at all. */
module LifecycleFinality {
  import opened Prelude
  import opened Lifecycle
  import opened LifecycleInvariant
  import opened LifecycleReview

  // ---------- Only a rejection of the report itself rejects it ----------

  /** Of this report no rejection came about. */
  ghost predicate NotNewlyRejected(s: Store, t: Store, id: Id) {
    && (id in s.choices ==> id in t.choices && (t.choices[id].status == Rejected ==> s.choices[id].status == Rejected))
    && (id in s.results ==> id in t.results && (t.results[id].status == Rejected ==> s.results[id].status == Rejected))
  }

  lemma IngestRejectsNothing(k: Kernel, s: Store, source: Id, report: Report, id: Id)
    requires FreshIds(s) && Validate(s, source, report).None?
    ensures NotNewlyRejected(s, Ingest(k, s, source, report), id)
  {
  }

  lemma RecordRejectsNothing(k: Kernel, s: Store, source: Id, event: string, content: string, report: Report, id: Id)
    requires FreshIds(s)
    ensures NotNewlyRejected(s, RecordEvent(k, s, source, event, content, report).0, id)
  {
    if RecordEvent(k, s, source, event, content, report).1 == Done { IngestRejectsNothing(k, s, source, report, id); }
  }

  lemma ConfirmChoiceRejectsNothing(k: Kernel, s: Store, confirmed: Id, id: Id)
    ensures NotNewlyRejected(s, ConfirmChoice(k, s, confirmed).0, id)
  {
  }

  lemma ConfirmRejectsNothing(k: Kernel, s: Store, confirmed: Id, payload: Option<Wellbeing>, crash: bool, id: Id)
    ensures NotNewlyRejected(s, Confirm(k, s, confirmed, payload, crash).0, id)
  {
    if confirmed in s.results {
      ConfirmReportIs(k, s, confirmed, payload, crash);
    } else {
      ConfirmChoiceRejectsNothing(k, s, confirmed, id);
    }
  }

  lemma StepRejectsOnlyNamed(k: Kernel, s: Store, r: Request, id: Id)
    requires FreshIds(s) && r != ReqReject(id)
    ensures NotNewlyRejected(s, Handle(k, s, r).0, id)
  {
    match r
    case ReqRecord(source, event, content, report) => RecordRejectsNothing(k, s, source, event, content, report, id);
    case ReqWellbeing(source, decision, w, notes) =>
    case ReqConfirm(confirmed, payload, crash) => ConfirmRejectsNothing(k, s, confirmed, payload, crash, id);
    case ReqReject(other) =>
    case _ => OwnMovesNoReports(k, s, r);
  }

  // ---------- A confirmation holds until the report is rejected ----------

  lemma ConfirmedMoves(s: Store, t: Store, id: Id)
    requires FreshIds(t) && IsConfirmed(s, id) && ReportsMove(s, t, true) && NotNewlyRejected(s, t, id)
    ensures IsConfirmed(t, id)
  {
    if id in s.results {
      assert ResultMoves(s.results[id], t.results[id], true);
    } else {
      assert ChoiceMoves(s.choices[id], t.choices[id], true);
    }
  }

  lemma StepKeepsConfirmed(k: Kernel, s: Store, r: Request, id: Id)
    requires Inv(k, s) && IsConfirmed(s, id) && r != ReqReject(id)
    ensures IsConfirmed(Handle(k, s, r).0, id)
  {
    StepKeeps(k, s, r);
    StepMovesReports(k, s, r);
    StepRejectsOnlyNamed(k, s, r, id);
    ConfirmedMoves(s, Handle(k, s, r).0, id);
  }

  ghost predicate IsRejected(s: Store, id: Id) {
    if id in s.results then s.results[id].status == Rejected else id in s.choices && s.choices[id].status == Rejected
  }

  lemma RejectedIsFinal(k: Kernel, s: Store, id: Id, requests: seq<Request>)
    requires Inv(k, s) && IsRejected(s, id)
    ensures IsRejected(Run(k, s, requests), id) && !IsConfirmed(Run(k, s, requests), id)
  {
    RunKeeps(k, s, requests);
    RunMovesReports(k, s, requests);
    var t := Run(k, s, requests);
    if id in s.results {
      assert ResultMoves(s.results[id], t.results[id], false);
    } else {
      assert ChoiceMoves(s.choices[id], t.choices[id], false);
    }
  }

  lemma RejectingRejects(s: Store, id: Id)
    requires id in s.results || id in s.choices
    ensures IsRejected(Reject(s, id).0, id)
  {
  }

  ghost predicate NeverRejects(requests: seq<Request>, id: Id) {
    forall i :: 0 <= i < |requests| ==> requests[i] != ReqReject(id)
  }

  /** A confirmed report stays confirmed over a run if and only if no request of the run rejects it. */
  lemma {:induction false} ConfirmedUntilRejectedExactly(k: Kernel, s: Store, id: Id, requests: seq<Request>)
    requires Inv(k, s) && IsConfirmed(s, id)
    ensures IsConfirmed(Run(k, s, requests), id) <==> NeverRejects(requests, id)
    decreases |requests|
  {
    if requests != [] {
      var t := Handle(k, s, requests[0]).0;
      StepKeeps(k, s, requests[0]);
      if requests[0] == ReqReject(id) {
        RejectingRejects(s, id);
        RejectedIsFinal(k, t, id, requests[1..]);
      } else {
        StepKeepsConfirmed(k, s, requests[0], id);
        ConfirmedUntilRejectedExactly(k, t, id, requests[1..]);
        NeverRejectsRest(requests, id);
      }
    }
  }

  lemma NeverRejectsRest(requests: seq<Request>, id: Id)
    requires requests != [] && requests[0] != ReqReject(id)
    ensures NeverRejects(requests, id) <==> NeverRejects(requests[1..], id)
  {
    assert forall i :: 0 < i < |requests| ==> requests[i] == requests[1..][i - 1];
  }

  // ---------- What a rejection takes back ----------

  /** Everything but the reports. */
  ghost predicate SameRecords(s: Store, t: Store) {
    && t.decisions == s.decisions && t.resolutions == s.resolutions && t.evidence == s.evidence
    && t.outcomes == s.outcomes
  }

  /** Confirmed is not final: a confirmed report of either kind can be rejected, and the rejection takes
  back neither a resolution, nor its Evidence, nor the owner's outcome. */
  lemma ConfirmedCanBeRejected(k: Kernel, s: Store, id: Id)
    requires Inv(k, s) && IsConfirmed(s, id)
    ensures var t := Reject(s, id).0;
      && Reject(s, id).1 == Done && IsRejected(t, id) && SameRecords(s, t)
      && (id in s.choices ==>
            var c := s.choices[id]; Applied(k, t, Resolution(c.decision.value, c.chosen.value, c.event)))
  {
    if id in s.choices { assert ChoiceOk(k, s, s.choices[id]); }
  }

  /** In particular: values the owner gave when confirming a report of satisfaction stay the owner's
  outcome when the report is rejected afterwards. */
  lemma RejectingKeepsTheOutcome(k: Kernel, s: Store, id: Id, w: Wellbeing)
    requires Inv(k, s) && id in s.results && Confirm(k, s, id, Some(w), false).1 == Done
    ensures var t := Confirm(k, s, id, Some(w), false).0; var u := Reject(t, id).0;
      && IsConfirmed(t, id) && IsRejected(u, id) && s.results[id].decision.Some?
      && u.outcomes == s.outcomes + [Outcome(s.results[id].decision.value, w, s.next)]
  {
    ConfirmSettles(k, s, id, Some(w));
    ConfirmKeeps(k, s, id, Some(w), false);
    ConfirmedCanBeRejected(k, Confirm(k, s, id, Some(w), false).0, id);
  }

  // ---------- Which reports some run confirms ----------

  /** A pending choice of an open decision with its option, or a pending report of satisfaction. */
  predicate Confirmable(s: Store, id: Id) {
    if id in s.results then s.results[id].status == Pending && s.results[id].kind == OwnerReported
    else
      && id in s.choices && s.choices[id].status == Pending && s.choices[id].chosen.Some?
      && s.choices[id].decision.Some? && s.choices[id].decision.value in s.decisions
      && !s.decisions[s.choices[id].decision.value].resolved
  }

  predicate Confirms(k: Kernel, s: Store, requests: seq<Request>, id: Id) {
    IsConfirmed(Run(k, s, requests), id)
  }

  ghost predicate SomeRunConfirms(k: Kernel, s: Store, id: Id) {
    exists requests :: Confirms(k, s, requests, id)
  }

  lemma RunOfOne(k: Kernel, s: Store, r: Request)
    ensures Run(k, s, [r]) == Handle(k, s, r).0
  {
    assert Run(k, s, [r]) == Run(k, Handle(k, s, r).0, [r][1..]);
  }

  lemma RunOfTwo(k: Kernel, s: Store, a: Request, b: Request)
    ensures Run(k, s, [a, b]) == Handle(k, Handle(k, s, a).0, b).0
  {
    assert [a, b][1..] == [b];
    RunOfOne(k, Handle(k, s, a).0, b);
  }

  /** Delete the outcome that may be in the way, then confirm. */
  lemma DeleteThenConfirm(k: Kernel, s: Store, id: Id, decision: Id, w: Wellbeing)
    requires Inv(k, s) && id in s.results && Confirmable(s, id) && s.results[id].decision == Some(decision)
    requires decision in s.decisions
    ensures IsConfirmed(Confirm(k, DeleteOutcome(s, decision).0, id, Some(w), false).0, id)
  {
    DeletedIsGone(k, s, decision);
    var t := DeleteOutcome(s, decision).0;
    ConfirmableWithoutOutcome(k, t, id, w);
    ConfirmSettles(k, t, id, Some(w));
  }

  lemma ConfirmableResultIsConfirmed(k: Kernel, s: Store, id: Id, w: Wellbeing) returns (requests: seq<Request>)
    requires Inv(k, s) && id in s.results && Confirmable(s, id)
    ensures Confirms(k, s, requests, id)
  {
    assert ResultOk(s, s.results[id]);
    var decision := s.results[id].decision.value;
    requests := [ReqDeleteOutcome(decision), ReqConfirm(id, Some(w), false)];
    DeleteThenConfirm(k, s, id, decision, w);
    RunOfTwo(k, s, ReqDeleteOutcome(decision), ReqConfirm(id, Some(w), false));
  }

  lemma ConfirmableChoiceIsConfirmed(k: Kernel, s: Store, id: Id) returns (requests: seq<Request>)
    requires Inv(k, s) && id !in s.results && Confirmable(s, id)
    ensures Confirms(k, s, requests, id)
  {
    requests := [ReqConfirm(id, None, false)];
    ConfirmSucceedsExactly(k, s, id, None, false);
    ConfirmSettles(k, s, id, None);
    RunOfOne(k, s, requests[0]);
  }

  /** A stored report that no request can make confirmable any more. */
  ghost predicate Unconfirmable(s: Store, id: Id) {
    && (id in s.results || id in s.choices)
    && !IsConfirmed(s, id) && !Confirmable(s, id)
  }

  lemma UnconfirmableResultStays(k: Kernel, s: Store, id: Id, requests: seq<Request>)
    requires Inv(k, s) && id in s.results && Unconfirmable(s, id)
    ensures !IsConfirmed(Run(k, s, requests), id)
  {
    RunKeeps(k, s, requests);
    RunMovesReports(k, s, requests);
    var t := Run(k, s, requests);
    assert ResultOk(s, s.results[id]);
    assert ResultMoves(s.results[id], t.results[id], false) && ResultOk(t, t.results[id]);
  }

  /** A choice that is pending for a decision resolved without it. */
  ghost predicate Overtaken(s: Store, id: Id) {
    && id in s.choices && s.choices[id].status != Confirmed
    && s.choices[id].decision.Some? && s.choices[id].decision.value in s.decisions
    && s.decisions[s.choices[id].decision.value].resolved
  }

  lemma OvertakenConfirmRefused(k: Kernel, s: Store, confirmed: Id, payload: Option<Wellbeing>, crash: bool, id: Id)
    requires Inv(k, s) && Overtaken(s, id)
    ensures var t := Confirm(k, s, confirmed, payload, crash).0; id in t.choices && t.choices[id].status != Confirmed
  {
    if confirmed in s.results { ConfirmReportIs(k, s, confirmed, payload, crash); }
  }

  lemma NoConfirmNoConfirmed(k: Kernel, s: Store, r: Request, id: Id)
    requires FreshIds(s) && id in s.choices && s.choices[id].status != Confirmed && !r.ReqConfirm?
    ensures var t := Handle(k, s, r).0; id in t.choices && t.choices[id].status != Confirmed
  {
    match r
    case ReqRecord(source, event, content, report) =>
      if Validate(s, source, report).None? { IngestConfirmsNothing(k, s, source, report, id); }
    case ReqWellbeing(source, decision, w, notes) =>
    case ReqReject(other) =>
    case _ => OwnMovesNoReports(k, s, r);
  }

  lemma IngestConfirmsNothing(k: Kernel, s: Store, source: Id, report: Report, id: Id)
    requires FreshIds(s) && id in s.choices && s.choices[id].status != Confirmed && Validate(s, source, report).None?
    ensures var t := Ingest(k, s, source, report); id in t.choices && t.choices[id].status != Confirmed
  {
  }

  lemma OvertakenNotConfirmed(k: Kernel, s: Store, r: Request, id: Id)
    requires Inv(k, s) && Overtaken(s, id)
    ensures var t := Handle(k, s, r).0; id in t.choices && t.choices[id].status != Confirmed
  {
    if r.ReqConfirm? {
      OvertakenConfirmRefused(k, s, r.observation, r.payload, r.crash, id);
    } else {
      NoConfirmNoConfirmed(k, s, r, id);
    }
  }

  lemma OvertakenMoves(s: Store, t: Store, id: Id)
    requires Overtaken(s, id) && Grows(s, t) && ReportsMove(s, t, true)
    requires id in t.choices && t.choices[id].status != Confirmed
    ensures Overtaken(t, id)
  {
    assert ChoiceMoves(s.choices[id], t.choices[id], true);
  }

  lemma {:induction false} OvertakenStays(k: Kernel, s: Store, id: Id, requests: seq<Request>)
    requires Inv(k, s) && Overtaken(s, id)
    ensures Overtaken(Run(k, s, requests), id)
    decreases |requests|
  {
    if requests != [] {
      var t := Handle(k, s, requests[0]).0;
      StepKeeps(k, s, requests[0]);
      StepMovesReports(k, s, requests[0]);
      OvertakenNotConfirmed(k, s, requests[0], id);
      OvertakenMoves(s, t, id);
      OvertakenStays(k, t, id, requests[1..]);
    }
  }

  lemma UnconfirmableChoiceStays(k: Kernel, s: Store, id: Id, requests: seq<Request>)
    requires Inv(k, s) && id in s.choices && Unconfirmable(s, id)
    ensures !IsConfirmed(Run(k, s, requests), id)
  {
    assert ChoiceOk(k, s, s.choices[id]);
    RunKeeps(k, s, requests);
    if s.choices[id].status == Rejected {
      RejectedIsFinal(k, s, id, requests);
    } else if s.choices[id].chosen.None? {
      NoOptionNeverConfirmed(k, s, id, requests, None, false);
    } else {
      OvertakenStays(k, s, id, requests);
    }
  }

  /** A stored report that is not confirmed can still be confirmed, by some run, if and only if it is a
  pending choice with its option on an open decision, or a pending report of satisfaction. */
  lemma SomeRunConfirmsExactly(k: Kernel, s: Store, id: Id)
    requires Inv(k, s) && (id in s.results || id in s.choices) && !IsConfirmed(s, id)
    ensures SomeRunConfirms(k, s, id) <==> Confirmable(s, id)
  {
    if Confirmable(s, id) {
      if id in s.results {
        var requests := ConfirmableResultIsConfirmed(k, s, id, Wellbeing(0.0, false));
      } else {
        var requests := ConfirmableChoiceIsConfirmed(k, s, id);
      }
    } else {
      forall requests ensures !Confirms(k, s, requests, id) {
        if id in s.results {
          UnconfirmableResultStays(k, s, id, requests);
        } else {
          UnconfirmableChoiceStays(k, s, id, requests);
        }
      }
    }
  }

  /** So a choice just reported is confirmed, at once or in some later run, if and only if its source had
  reported the decision before and the decision was still open. */
  lemma ReportedChoiceConfirmableExactly(k: Kernel, s: Store, source: Id, event: string, content: string, ext: string,
                                         option: string, promotable: bool)
    requires Inv(k, s) && RecordEvent(k, s, source, event, content, Choice(ext, option, promotable)).1 == Done
    ensures var t := RecordEvent(k, s, source, event, content, Choice(ext, option, promotable)).0;
      var decision := Matched(s, source, ext);
      SomeRunConfirms(k, t, s.next + 1) <==> decision.Some? && !s.decisions[decision.value].resolved
  {
    var report := Choice(ext, option, promotable);
    var t := RecordEvent(k, s, source, event, content, report).0;
    RecordEventKeeps(k, s, source, event, content, report);
    ReportedChoiceStored(k, s, source, event, content, ext, option, promotable);
    if IsConfirmed(t, s.next + 1) {
      assert Confirms(k, t, [], s.next + 1);
    } else {
      SomeRunConfirmsExactly(k, t, s.next + 1);
    }
  }

  lemma ReportedChoiceStored(k: Kernel, s: Store, source: Id, event: string, content: string, ext: string,
                             option: string, promotable: bool)
    requires Inv(k, s) && RecordEvent(k, s, source, event, content, Choice(ext, option, promotable)).1 == Done
    ensures var t := RecordEvent(k, s, source, event, content, Choice(ext, option, promotable)).0;
      var free := Matched(s, source, ext).Some? && !s.decisions[Matched(s, source, ext).value].resolved;
      && s.next + 1 in t.choices && s.next + 1 !in t.results
      && (IsConfirmed(t, s.next + 1) <==> free && promotable)
      && (Confirmable(t, s.next + 1) <==> free && !promotable)
  {
  }

  // ---------- After a crash between the two writes ----------

  /** After that crash and any further run, a confirmation with the owner's values succeeds if and only if
  the report is still pending and its decision has no outcome: the one that was written, or a later
  one, is gone. */
  lemma ConfirmableAfterCrashExactly(k: Kernel, s: Store, id: Id, w: Wellbeing, requests: seq<Request>,
                                     again: Wellbeing, crash: bool)
    requires Inv(k, s) && id in s.results && Confirm(k, s, id, Some(w), true).1 == Done
    ensures var t := Run(k, Confirm(k, s, id, Some(w), true).0, requests);
      && id in t.results && s.results[id].decision.Some? && t.results[id].decision == s.results[id].decision
      && (Confirm(k, t, id, Some(again), crash).1 == Done <==>
            t.results[id].status == Pending && !HasOutcome(t.outcomes, s.results[id].decision.value))
  {
    var s1 := Confirm(k, s, id, Some(w), true).0;
    CrashedConfirm(k, s, id, w);
    RunKeeps(k, s1, requests);
    RunMovesReports(k, s1, requests);
    var t := Run(k, s1, requests);
    assert ResultMoves(s1.results[id], t.results[id], false);
    ConfirmSucceedsExactly(k, t, id, Some(again), crash);
  }
}
