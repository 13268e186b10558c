/** What is learned from a resolution, and when that is settled. */
module LifecycleEvidence {
  import opened Prelude
  import opened Lifecycle
  import opened LifecycleInvariant

  lemma IngestAddsOnlyNewlyResolved(k: Kernel, s: Store, source: Id, report: Report, e: Evidence)
    requires FreshIds(s) && Validate(s, source, report).None?
    requires e in Ingest(k, s, source, report).evidence && e !in s.evidence
    ensures e.decision in s.decisions && !s.decisions[e.decision].resolved
  {
  }

  /** A request adds Evidence only for a decision it resolves. */
  lemma StepAddsOnlyNewlyResolved(k: Kernel, s: Store, r: Request, e: Evidence)
    requires FreshIds(s) && e in Handle(k, s, r).0.evidence && e !in s.evidence
    ensures e.decision in s.decisions && !s.decisions[e.decision].resolved
  {
    match r
    case ReqRecord(source, id, content, report) =>
      if RecordEvent(k, s, source, id, content, report).1 == Done {
        IngestAddsOnlyNewlyResolved(k, s, source, report, e);
      }
    case _ =>
  }

  /** Once a decision is resolved, its Evidence is settled: no run adds or removes an item. */
  lemma {:induction false} ResolvedEvidenceIsSettled(k: Kernel, s: Store, requests: seq<Request>, e: Evidence)
    requires Inv(k, s) && e.decision in s.decisions && s.decisions[e.decision].resolved
    ensures e in Run(k, s, requests).evidence <==> e in s.evidence
    decreases |requests|
  {
    if requests != [] {
      var t := Handle(k, s, requests[0]).0;
      StepKeeps(k, s, requests[0]);
      assert s.evidence == t.evidence[..|s.evidence|];
      if e in t.evidence && e !in s.evidence { StepAddsOnlyNewlyResolved(k, s, requests[0], e); }
      ResolvedEvidenceIsSettled(k, t, requests[1..], e);
    }
  }

  lemma NewDecisionHasNoEvidence(s: Store, e: Evidence)
    requires ResolutionsOk(s.decisions, s.resolutions) && EvidenceOk(s.resolutions, s.evidence)
    requires e.decision in s.decisions && !s.decisions[e.decision].resolved
    ensures e !in s.evidence
  {
  }

  lemma CutShortStaysShort(k: Kernel, s: Store, decision: Id, option: Id, written: nat, requests: seq<Request>)
    requires Inv(k, s) && Resolve(k, s, decision, option, written).1 == Done
    requires written < k(s.decisions[decision].options, option)
    ensures var t := Resolve(k, s, decision, option, written).0;
      Evidence(s.next, decision, written) !in Run(k, t, requests).evidence
  {
    var t := Resolve(k, s, decision, option, written).0;
    var e := Evidence(s.next, decision, written);
    ResolveKeeps(k, s, decision, option, written);
    NewDecisionHasNoEvidence(s, e);
    assert e !in t.evidence;
    ResolvedEvidenceIsSettled(k, t, requests, e);
  }

  lemma WholeStaysWhole(k: Kernel, s: Store, decision: Id, option: Id, written: nat, requests: seq<Request>)
    requires Inv(k, s) && Resolve(k, s, decision, option, written).1 == Done
    requires written >= k(s.decisions[decision].options, option)
    ensures var t := Run(k, Resolve(k, s, decision, option, written).0, requests);
      Applied(k, t, Resolution(decision, option, s.next))
  {
    var t := Resolve(k, s, decision, option, written).0;
    var r := Resolution(decision, option, s.next);
    var learned := Learned(k, s.decisions[decision].options, r);
    ResolveKeeps(k, s, decision, option, written);
    assert learned[..|learned|] == learned;
    assert t.resolutions[|s.resolutions|] == r;
    AppliedStays(k, t, r, requests);
  }

  lemma AppliedStays(k: Kernel, s: Store, r: Resolution, requests: seq<Request>)
    requires Inv(k, s) && Applied(k, s, r)
    ensures Applied(k, Run(k, s, requests), r)
  {
    RunKeeps(k, s, requests);
    var t := Run(k, s, requests);
    assert s.resolutions == t.resolutions[..|s.resolutions|];
    assert s.evidence == t.evidence[..|s.evidence|];
  }

  /** The owner's own resolution is stored before its Evidence: it has the whole Evidence exactly when
  the process did not die before the last item, and what is missing then is missing for good. */
  lemma ResolveIsCompleteExactly(k: Kernel, s: Store, decision: Id, option: Id, written: nat, requests: seq<Request>)
    requires Inv(k, s) && Resolve(k, s, decision, option, written).1 == Done
    ensures var t := Run(k, Resolve(k, s, decision, option, written).0, requests);
      Applied(k, t, Resolution(decision, option, s.next)) <==> written >= k(s.decisions[decision].options, option)
  {
    if written >= k(s.decisions[decision].options, option) {
      WholeStaysWhole(k, s, decision, option, written, requests);
    } else {
      CutShortStaysShort(k, s, decision, option, written, requests);
      MissingMeansNotApplied(k, s, decision, option, written, requests);
    }
  }

  lemma MissingMeansNotApplied(k: Kernel, s: Store, decision: Id, option: Id, written: nat, requests: seq<Request>)
    requires Inv(k, s) && Resolve(k, s, decision, option, written).1 == Done
    requires written < k(s.decisions[decision].options, option)
    requires var t := Run(k, Resolve(k, s, decision, option, written).0, requests);
      Evidence(s.next, decision, written) !in t.evidence
    ensures var t := Run(k, Resolve(k, s, decision, option, written).0, requests);
      !Applied(k, t, Resolution(decision, option, s.next))
  {
    var t := Resolve(k, s, decision, option, written).0;
    ResolveKeeps(k, s, decision, option, written);
    RunKeeps(k, t, requests);
    var u := Run(k, t, requests);
    var learned := Learned(k, u.decisions[decision].options, Resolution(decision, option, s.next));
    assert learned[written] in learned;
  }
}
