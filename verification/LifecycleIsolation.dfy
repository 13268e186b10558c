/** What agents' reports can and cannot influence. */
module LifecycleIsolation {
  import opened Prelude
  import opened Lifecycle
  import opened LifecycleInvariant
  import opened LifecycleReview

  // ---------- Only the owner's values become outcomes ----------

  /** The owner gave these values for this decision, directly or when confirming a report of it. */
  ghost predicate OwnerGave(s: Store, r: Request, o: Outcome) {
    || (r.ReqOutcome? && r.decision == o.decision && r.wellbeing == o.wellbeing)
    || (r.ReqConfirm? && r.payload == Some(o.wellbeing)
        && r.observation in s.results && s.results[r.observation].decision == Some(o.decision))
  }

  lemma RecordedIsGiven(s: Store, decision: Id, w: Wellbeing, o: Outcome)
    requires o in RecordOutcome(s, decision, w).0.outcomes
    ensures o in s.outcomes || (o.decision == decision && o.wellbeing == w)
  {
  }

  lemma ConfirmedIsGiven(k: Kernel, s: Store, id: Id, payload: Option<Wellbeing>, crash: bool, o: Outcome)
    requires o in Confirm(k, s, id, payload, crash).0.outcomes
    ensures o in s.outcomes || OwnerGave(s, ReqConfirm(id, payload, crash), o)
  {
    if id in s.results && payload.Some? && s.results[id].decision.Some? && o !in s.outcomes {
      RecordedIsGiven(s, s.results[id].decision.value, payload.value, o);
    }
  }

  lemma StepOutcomeSource(k: Kernel, s: Store, r: Request, o: Outcome)
    requires o in Handle(k, s, r).0.outcomes
    ensures o in s.outcomes || OwnerGave(s, r, o)
  {
    match r
    case ReqConfirm(id, payload, crash) => ConfirmedIsGiven(k, s, id, payload, crash, o);
    case ReqOutcome(decision, w) => RecordedIsGiven(s, decision, w, o);
    case ReqDeleteOutcome(decision) => DeletingAddsNothing(s.outcomes, decision, o);
    case ReqResolve(_, _, _) =>
    case ReqCreate(_) =>
    case ReqReject(_) =>
    case _ => AgentKeepsOutcomes(k, s, r);
  }

  lemma AgentKeepsOutcomes(k: Kernel, s: Store, r: Request)
    requires r.ReqRecord? || r.ReqWellbeing?
    ensures Handle(k, s, r).0.outcomes == s.outcomes
  {
  }

  lemma {:induction false} DeletingAddsNothing(outcomes: seq<Outcome>, decision: Id, o: Outcome)
    ensures o in WithoutOutcome(outcomes, decision) ==> o in outcomes
    decreases |outcomes|
  {
    if outcomes != [] { DeletingAddsNothing(outcomes[1..], decision, o); }
  }

  /** Every outcome stored after a run holds the values that one of the owner's own requests gave, for
  the very decision it was given for. */
  lemma {:induction false} OwnerWroteEveryOutcome(k: Kernel, s: Store, requests: seq<Request>, o: Outcome)
    requires o in Run(k, s, requests).outcomes
    ensures o in s.outcomes
      || exists i :: 0 <= i < |requests| && OwnerGave(Run(k, s, requests[..i]), requests[i], o)
    decreases |requests|
  {
    if requests != [] {
      var t := Handle(k, s, requests[0]).0;
      OwnerWroteEveryOutcome(k, t, requests[1..], o);
      if o in t.outcomes {
        StepOutcomeSource(k, s, requests[0], o);
        assert Run(k, s, requests[..0]) == s;
      } else {
        var i :| 0 <= i < |requests[1..]| && OwnerGave(Run(k, t, requests[1..][..i]), requests[1..][i], o);
        assert requests[..i + 1][1..] == requests[1..][..i];
        assert OwnerGave(Run(k, s, requests[..i + 1]), requests[i + 1], o);
      }
    }
  }

  // ---------- Agents alone change no canonical record ----------

  /** A report that is not the owner's own promotable choice. */
  predicate FromAgent(r: Request) {
    r.ReqWellbeing? || (r.ReqRecord? && (r.report.Choice? ==> !r.report.promotable))
  }

  ghost predicate SameCanon(s: Store, t: Store) {
    && t.resolutions == s.resolutions && t.evidence == s.evidence && t.outcomes == s.outcomes
  }

  lemma AgentIngest(k: Kernel, s: Store, source: Id, report: Report)
    requires Validate(s, source, report).None? && (report.Choice? ==> !report.promotable)
    ensures SameCanon(s, Ingest(k, s, source, report))
  {
  }

  lemma AgentStep(k: Kernel, s: Store, r: Request)
    requires FromAgent(r)
    ensures SameCanon(s, Handle(k, s, r).0)
  {
    match r
    case ReqRecord(source, id, content, report) =>
      if Validate(s, source, report).None? { AgentIngest(k, s, source, report); }
    case ReqWellbeing(source, decision, w, notes) =>
  }

  /** Whatever agents report, in any order, nothing is resolved, learned or recorded as an outcome. */
  lemma {:induction false} AgentsAloneDecideNothing(k: Kernel, s: Store, requests: seq<Request>)
    requires forall i :: 0 <= i < |requests| ==> FromAgent(requests[i])
    ensures SameCanon(s, Run(k, s, requests))
    decreases |requests|
  {
    if requests != [] {
      var t := Handle(k, s, requests[0]).0;
      AgentStep(k, s, requests[0]);
      AgentsAloneDecideNothing(k, t, requests[1..]);
    }
  }

  // ---------- Non-interference ----------

  /** Results that differ at most in the satisfaction and regret an agent reported. */
  ghost predicate SameResult(a: OutcomeReport, b: OutcomeReport) {
    a.(wellbeing := None) == b.(wellbeing := None) && (a.wellbeing.Some? <==> b.wellbeing.Some?)
  }

  ghost predicate SameSeen(a: map<(Id, string), Fingerprint>, b: map<(Id, string), Fingerprint>) {
    && a.Keys == b.Keys
    && (forall key <- a :: a[key] == b[key] || (a[key].OfWellbeing? && b[key].OfWellbeing?))
  }

  ghost predicate SameResults(a: map<Id, OutcomeReport>, b: map<Id, OutcomeReport>) {
    && a.Keys == b.Keys
    && (forall id <- a :: SameResult(a[id], b[id]))
  }

  /** The same store but for those values. */
  ghost predicate Alike(s: Store, t: Store) {
    && s.next == t.next && s.decisions == t.decisions && s.index == t.index && s.resolutions == t.resolutions
    && s.choices == t.choices && s.outcomes == t.outcomes && s.evidence == t.evidence
    && SameResults(s.results, t.results)
    && SameSeen(s.seen, t.seen)
  }

  /** Reports that differ at most in the values of a satisfaction and regret. */
  predicate SameReport(a: Report, b: Report) {
    || a == b
    || (a.Result? && b.Result? && a.wellbeing.Some? && b.wellbeing.Some? && b == a.(wellbeing := b.wellbeing))
  }

  predicate SameRequest(a: Request, b: Request) {
    match a
    case ReqWellbeing(source, decision, _, _) => b.ReqWellbeing? && b.source == source && b.decision == decision
    case ReqRecord(source, id, content, report) =>
      b.ReqRecord? && b.source == source && b.id == id && b.content == content && SameReport(report, b.report)
    case _ => a == b
  }

  lemma SetResultAlike(a: map<Id, OutcomeReport>, b: map<Id, OutcomeReport>, id: Id, x: OutcomeReport, y: OutcomeReport)
    requires SameResults(a, b) && SameResult(x, y)
    ensures SameResults(a[id := x], b[id := y])
  {
  }

  lemma AttachAlike(a: map<Id, OutcomeReport>, b: map<Id, OutcomeReport>, source: Id, ext: string, decision: Id)
    requires SameResults(a, b)
    ensures SameResults(AttachResults(a, source, ext, decision), AttachResults(b, source, ext, decision))
  {
  }

  lemma ApplyResolutionAlike(k: Kernel, s: Store, t: Store, r: Resolution)
    requires Alike(s, t) && r.decision in s.decisions
    ensures Alike(ApplyResolution(k, s, r), ApplyResolution(k, t, r))
  {
  }

  lemma ChoiceAlike(k: Kernel, s: Store, t: Store, source: Id, ext: string, option: string, promotable: bool)
    requires Alike(s, t) && Validate(s, source, Choice(ext, option, promotable)).None?
    ensures ChoiceFor(s, source, ext, option, promotable) == ChoiceFor(t, source, ext, option, promotable)
    ensures var c := ChoiceFor(s, source, ext, option, promotable);
      Alike(IngestChoice(k, s, c), IngestChoice(k, t, c))
  {
    var c := ChoiceFor(s, source, ext, option, promotable);
    var s1 := s.(next := s.next + 2, choices := s.choices[s.next + 1 := c]);
    var t1 := t.(next := t.next + 2, choices := t.choices[t.next + 1 := c]);
    if c.status == Confirmed {
      ApplyResolutionAlike(k, s1, t1, Resolution(c.decision.value, c.chosen.value, c.event));
    }
  }

  lemma IngestAlike(k: Kernel, s: Store, t: Store, source: Id, report: Report)
    requires Alike(s, t) && Validate(s, source, report).None? && Validate(t, source, report).None?
    ensures Alike(Ingest(k, s, source, report), Ingest(k, t, source, report))
  {
    match report
    case Interaction =>
    case NewDecision(ext, options) => AttachAlike(s.results, t.results, source, ext, s.next + 1);
    case Choice(ext, option, promotable) =>
      ChoiceAlike(k, s, t, source, ext, option, promotable);
    case Result(ext, technical, _, _) =>
      var o := IngestResult(s, source, ext, technical).results[s.next + 1];
      SetResultAlike(s.results, t.results, s.next + 1, o, o);
  }

  lemma ValidateAlike(s: Store, t: Store, source: Id, a: Report, b: Report)
    requires Alike(s, t) && SameReport(a, b)
    ensures Validate(s, source, a) == Validate(t, source, b)
    ensures Validate(s, source, a).None? ==> a == b
  {
  }

  lemma SeenAlike(s: Store, t: Store, key: (Id, string), fingerprint: Fingerprint)
    requires Alike(s, t)
    ensures Alike(s.(seen := s.seen[key := fingerprint]), t.(seen := t.seen[key := fingerprint]))
  {
  }

  lemma IngestKeepsSeen(k: Kernel, s: Store, source: Id, report: Report)
    requires Validate(s, source, report).None?
    ensures Ingest(k, s, source, report).seen == s.seen
  {
  }

  lemma RecordEventAlike(k: Kernel, s: Store, t: Store, source: Id, id: string, content: string, a: Report, b: Report)
    requires Alike(s, t) && SameReport(a, b)
    ensures Alike(RecordEvent(k, s, source, id, content, a).0, RecordEvent(k, t, source, id, content, b).0)
    ensures RecordEvent(k, s, source, id, content, a).1 == RecordEvent(k, t, source, id, content, b).1
  {
    ValidateAlike(s, t, source, a, b);
    if Validate(s, source, a).None? {
      var key := (source, id);
      if key !in s.seen {
        IngestAlike(k, s, t, source, a);
        IngestKeepsSeen(k, s, source, a);
        IngestKeepsSeen(k, t, source, a);
        SeenAlike(Ingest(k, s, source, a), Ingest(k, t, source, a), key, OfReport(content, a));
      }
    }
  }

  lemma WellbeingAlike(s: Store, t: Store, source: Id, decision: Id, v: Wellbeing, w: Wellbeing, m: string, n: string)
    requires Alike(s, t)
    ensures Alike(ReportWellbeing(s, source, decision, v, m).0, ReportWellbeing(t, source, decision, w, n).0)
  {
    var o := OutcomeReport(source, s.next, OwnerReported, None, Some(decision), Some(v), Pending);
    SetResultAlike(s.results, t.results, s.next + 1, o, o.(wellbeing := Some(w)));
  }

  lemma RecordOutcomeAlike(s: Store, t: Store, decision: Id, w: Wellbeing)
    requires Alike(s, t)
    ensures Alike(RecordOutcome(s, decision, w).0, RecordOutcome(t, decision, w).0)
    ensures RecordOutcome(s, decision, w).1 == RecordOutcome(t, decision, w).1
  {
  }

  lemma ConfirmChoiceAlike(k: Kernel, s: Store, t: Store, id: Id)
    requires Alike(s, t)
    ensures Alike(ConfirmChoice(k, s, id).0, ConfirmChoice(k, t, id).0)
    ensures ConfirmChoice(k, s, id).1 == ConfirmChoice(k, t, id).1
  {
  }

  lemma RecordedThenMarkedAlike(s: Store, t: Store, id: Id, decision: Id, w: Wellbeing)
    requires Alike(s, t) && id in s.results
    ensures var (s1, t1) := (RecordOutcome(s, decision, w).0, RecordOutcome(t, decision, w).0);
      && Alike(s1, t1) && RecordOutcome(s, decision, w).1 == RecordOutcome(t, decision, w).1
      && Alike(s1.(results := s.results[id := s.results[id].(status := Confirmed)]),
               t1.(results := t.results[id := t.results[id].(status := Confirmed)]))
  {
    RecordOutcomeAlike(s, t, decision, w);
    assert SameResult(s.results[id], t.results[id]);
    SetResultAlike(s.results, t.results, id, s.results[id].(status := Confirmed), t.results[id].(status := Confirmed));
  }

  lemma ConfirmReportAlike(k: Kernel, s: Store, t: Store, id: Id, payload: Option<Wellbeing>, crash: bool)
    requires Alike(s, t) && id in s.results
    ensures Alike(Confirm(k, s, id, payload, crash).0, Confirm(k, t, id, payload, crash).0)
    ensures Confirm(k, s, id, payload, crash).1 == Confirm(k, t, id, payload, crash).1
  {
    var x, y := s.results[id], t.results[id];
    assert SameResult(x, y);
    if x.decision.Some? && payload.Some? { RecordedThenMarkedAlike(s, t, id, x.decision.value, payload.value); }
  }

  lemma ConfirmAlike(k: Kernel, s: Store, t: Store, id: Id, payload: Option<Wellbeing>, crash: bool)
    requires Alike(s, t)
    ensures Alike(Confirm(k, s, id, payload, crash).0, Confirm(k, t, id, payload, crash).0)
    ensures Confirm(k, s, id, payload, crash).1 == Confirm(k, t, id, payload, crash).1
  {
    if id in s.results {
      ConfirmReportAlike(k, s, t, id, payload, crash);
    } else {
      ConfirmChoiceAlike(k, s, t, id);
    }
  }

  lemma RejectAlike(s: Store, t: Store, id: Id)
    requires Alike(s, t)
    ensures Alike(Reject(s, id).0, Reject(t, id).0) && Reject(s, id).1 == Reject(t, id).1
  {
    if id in s.results {
      var x, y := s.results[id], t.results[id];
      SetResultAlike(s.results, t.results, id, x.(status := Rejected), y.(status := Rejected));
    }
  }

  lemma CreateAlike(s: Store, t: Store, options: nat)
    requires Alike(s, t)
    ensures Alike(CreateDecision(s, options).0, CreateDecision(t, options).0)
  {
  }

  lemma DeleteAlike(s: Store, t: Store, decision: Id)
    requires Alike(s, t)
    ensures Alike(DeleteOutcome(s, decision).0, DeleteOutcome(t, decision).0)
    ensures DeleteOutcome(s, decision).1 == DeleteOutcome(t, decision).1
  {
  }

  lemma ResolveAlike(k: Kernel, s: Store, t: Store, decision: Id, option: Id, written: nat)
    requires Alike(s, t)
    ensures Alike(Resolve(k, s, decision, option, written).0, Resolve(k, t, decision, option, written).0)
    ensures Resolve(k, s, decision, option, written).1 == Resolve(k, t, decision, option, written).1
  {
  }

  lemma StepAlike(k: Kernel, s: Store, t: Store, a: Request, b: Request)
    requires Alike(s, t) && SameRequest(a, b)
    ensures Alike(Handle(k, s, a).0, Handle(k, t, b).0)
    ensures !a.ReqWellbeing? ==> Handle(k, s, a).1 == Handle(k, t, b).1
  {
    match a
    case ReqRecord(source, id, content, report) => RecordEventAlike(k, s, t, source, id, content, report, b.report);
    case ReqWellbeing(source, decision, w, notes) =>
      WellbeingAlike(s, t, source, decision, w, b.wellbeing, notes, b.notes);
    case ReqConfirm(id, payload, crash) => ConfirmAlike(k, s, t, id, payload, crash);
    case ReqReject(id) => RejectAlike(s, t, id);
    case ReqCreate(options) => CreateAlike(s, t, options);
    case ReqResolve(decision, option, written) => ResolveAlike(k, s, t, decision, option, written);
    case ReqOutcome(decision, w) => RecordOutcomeAlike(s, t, decision, w);
    case ReqDeleteOutcome(decision) => DeleteAlike(s, t, decision);
  }

  /** Two runs that differ only in the satisfaction and regret agents report end with the same
  decisions, choices, resolutions, Evidence and owner outcomes. */
  lemma {:induction false} ReportedWellbeingHasNoInfluence(k: Kernel, s: Store, t: Store, a: seq<Request>,
                                                           b: seq<Request>)
    requires Alike(s, t) && |a| == |b|
    requires forall i :: 0 <= i < |a| ==> SameRequest(a[i], b[i])
    ensures var x, y := Run(k, s, a), Run(k, t, b);
      && Alike(x, y)
      && x.outcomes == y.outcomes && x.evidence == y.evidence && x.resolutions == y.resolutions
      && x.decisions == y.decisions && x.choices == y.choices
    decreases |a|
  {
    if a != [] {
      StepAlike(k, s, t, a[0], b[0]);
      ReportedWellbeingHasNoInfluence(k, Handle(k, s, a[0]).0, Handle(k, t, b[0]).0, a[1..], b[1..]);
    }
  }

  // ---------- Results are observed only ----------

  /** A reported result is stored without any satisfaction, pending exactly when its decision is
  known, and in no run can it be confirmed into an outcome. */
  lemma ReportedResultsStayObservations(k: Kernel, s: Store, source: Id, id: string, content: string, report: Report,
                                        requests: seq<Request>, payload: Option<Wellbeing>, crash: bool)
    requires Inv(k, s) && report.Result? && RecordEvent(k, s, source, id, content, report).1 == Done
    ensures var t := RecordEvent(k, s, source, id, content, report).0;
      && s.next + 1 in t.results && t.results[s.next + 1].wellbeing.None?
      && t.results[s.next + 1].kind == (if report.technical then Technical else UserBehavior)
      && (t.results[s.next + 1].status == Pending <==> Matched(s, source, report.externalDecision).Some?)
      && Confirm(k, Run(k, t, requests), s.next + 1, payload, crash) == (Run(k, t, requests), Refused(NotConfirmable))
  {
    var t := RecordEvent(k, s, source, id, content, report).0;
    RecordEventKeeps(k, s, source, id, content, report);
    RunMovesReports(k, t, requests);
    assert ResultMoves(t.results[s.next + 1], Run(k, t, requests).results[s.next + 1], false);
  }

  // ---------- Each event counts once ----------

  ghost predicate SeenStays(a: map<(Id, string), Fingerprint>, b: map<(Id, string), Fingerprint>) {
    forall key <- a :: key in b && b[key] == a[key]
  }

  lemma StepKeepsSeen(k: Kernel, s: Store, r: Request)
    ensures SeenStays(s.seen, Handle(k, s, r).0.seen)
  {
    if r.ReqRecord? && Validate(s, r.source, r.report).None? { IngestKeepsSeen(k, s, r.source, r.report); }
  }

  lemma {:induction false} RunKeepsSeen(k: Kernel, s: Store, requests: seq<Request>)
    ensures SeenStays(s.seen, Run(k, s, requests).seen)
    decreases |requests|
  {
    if requests != [] {
      StepKeepsSeen(k, s, requests[0]);
      RunKeepsSeen(k, Handle(k, s, requests[0]).0, requests[1..]);
    }
  }

  /** An event that was recorded counts once: at any later time the same identifier of the same source
  changes nothing. The same report is answered as a duplicate unless it has become invalid, and a
  different valid one is a conflict. */
  lemma EventsCountOnce(k: Kernel, s: Store, source: Id, id: string, content: string, report: Report,
                        requests: seq<Request>, content': string, report': Report)
    requires RecordEvent(k, s, source, id, content, report).1 == Done
    ensures var t := Run(k, RecordEvent(k, s, source, id, content, report).0, requests);
      var again := RecordEvent(k, t, source, id, content', report');
      && again.0 == t && again.1 != Done
      && (Validate(t, source, report').None? ==>
            (again.1 == Duplicate <==> content' == content && report' == report)
            && (again.1 == Refused(ExternalEventConflict) <==> content' != content || report' != report))
  {
    var s1 := RecordEvent(k, s, source, id, content, report).0;
    var key := (source, id);
    assert key in s1.seen && s1.seen[key] == OfReport(content, report);
    RunKeepsSeen(k, s1, requests);
  }
}
