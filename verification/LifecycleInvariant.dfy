/** What every request keeps, over all runs of ingestion, review, resolution and outcome steps. */
module LifecycleInvariant {
  import opened Prelude
  import opened Lifecycle

  // ---------- The invariant ----------

  /** Identifiers are handed out in order, and a report is a choice or a result, never both. */
  ghost predicate FreshIds(s: Store) {
    && (forall d <- s.decisions :: d < s.next)
    && (forall c <- s.choices :: c < s.next && c !in s.results)
    && (forall c <- s.results :: c < s.next)
  }

  ghost predicate IndexOk(s: Store) {
    forall key <- s.index :: s.index[key] in s.decisions
  }

  ghost predicate Resolves(resolutions: seq<Resolution>, decision: Id) {
    exists i :: 0 <= i < |resolutions| && resolutions[i].decision == decision
  }

  /** A decision is resolved exactly when it has a resolution, at most one, by one of its options. */
  ghost predicate ResolutionsOk(decisions: map<Id, Decision>, resolutions: seq<Resolution>) {
    && (forall i :: 0 <= i < |resolutions| ==>
          && resolutions[i].decision in decisions
          && decisions[resolutions[i].decision].resolved
          && Belongs(decisions[resolutions[i].decision].options, resolutions[i].option))
    && (forall i, j :: 0 <= i < j < |resolutions| ==> resolutions[i].decision != resolutions[j].decision)
    && (forall d <- decisions :: decisions[d].resolved ==> Resolves(resolutions, d))
  }

  /** Outcomes exist on resolved decisions only, one at most. */
  ghost predicate OutcomesOk(decisions: map<Id, Decision>, outcomes: seq<Outcome>) {
    && (forall i :: 0 <= i < |outcomes| ==>
          outcomes[i].decision in decisions && decisions[outcomes[i].decision].resolved)
    && (forall i, j :: 0 <= i < j < |outcomes| ==> outcomes[i].decision != outcomes[j].decision)
  }

  /** Evidence comes from a resolution, and no item twice. */
  ghost predicate EvidenceOk(resolutions: seq<Resolution>, evidence: seq<Evidence>) {
    && (forall i :: 0 <= i < |evidence| ==> Sourced(resolutions, evidence[i]))
    && (forall i, j :: 0 <= i < j < |evidence| ==> evidence[i] != evidence[j])
  }

  ghost predicate Sourced(resolutions: seq<Resolution>, e: Evidence) {
    exists i :: 0 <= i < |resolutions| && resolutions[i].decision == e.decision && resolutions[i].event == e.event
  }

  /** The resolution and every Evidence item derived from it are stored. */
  ghost predicate Applied(k: Kernel, s: Store, r: Resolution) {
    && r in s.resolutions
    && r.decision in s.decisions
    && (forall e <- Learned(k, s.decisions[r.decision].options, r) :: e in s.evidence)
  }

  ghost predicate ChoiceOk(k: Kernel, s: Store, c: ChoiceReport) {
    && (c.decision.Some? ==> c.decision.value in s.decisions)
    && (c.chosen.Some? ==> c.decision.Some? && Belongs(s.decisions[c.decision.value].options, c.chosen.value))
    && (c.status == Unmatched ==> c.decision.None?)
    && (c.status == Pending ==> c.decision.Some?)
    && (c.status == Confirmed ==>
          c.decision.Some? && c.chosen.Some? && Applied(k, s, Resolution(c.decision.value, c.chosen.value, c.event)))
  }

  ghost predicate ResultOk(s: Store, o: OutcomeReport) {
    && (o.decision.Some? ==> o.decision.value in s.decisions)
    && (o.status == Unmatched ==> o.decision.None?)
    && (o.status == Pending ==> o.decision.Some?)
    && (o.status == Confirmed ==> o.kind == OwnerReported)
    && (o.kind == OwnerReported <==> o.wellbeing.Some?)
    && (o.kind == OwnerReported ==> o.decision.Some? && s.decisions[o.decision.value].resolved)
  }

  ghost predicate Inv(k: Kernel, s: Store) {
    && FreshIds(s)
    && IndexOk(s)
    && ResolutionsOk(s.decisions, s.resolutions)
    && OutcomesOk(s.decisions, s.outcomes)
    && EvidenceOk(s.resolutions, s.evidence)
    && (forall id <- s.choices :: ChoiceOk(k, s, s.choices[id]))
    && (forall id <- s.results :: ResultOk(s, s.results[id]))
  }

  // ---------- Canonical records only grow ----------

  /** No decision, option, resolution or Evidence item is taken back. */
  ghost predicate Grows(s: Store, t: Store) {
    && s.next <= t.next
    && (forall d <- s.decisions ::
          && d in t.decisions
          && t.decisions[d].options == s.decisions[d].options
          && (s.decisions[d].resolved ==> t.decisions[d].resolved))
    && s.resolutions <= t.resolutions
    && s.evidence <= t.evidence
  }

  lemma GrowsKeepsChoice(k: Kernel, s: Store, t: Store, c: ChoiceReport)
    requires Grows(s, t) && ChoiceOk(k, s, c)
    ensures ChoiceOk(k, t, c)
  {
    if c.status == Confirmed {
      var r := Resolution(c.decision.value, c.chosen.value, c.event);
      forall e <- Learned(k, t.decisions[r.decision].options, r) ensures e in t.evidence {
        assert e in s.evidence;
        assert s.evidence == t.evidence[..|s.evidence|];
      }
      assert s.resolutions == t.resolutions[..|s.resolutions|];
    }
  }

  lemma GrowsKeepsReports(k: Kernel, s: Store, t: Store)
    requires Grows(s, t) && Inv(k, s)
    ensures forall id <- s.choices :: ChoiceOk(k, t, s.choices[id])
    ensures forall id <- s.results :: ResultOk(t, s.results[id])
  {
    forall id <- s.choices ensures ChoiceOk(k, t, s.choices[id]) {
      GrowsKeepsChoice(k, s, t, s.choices[id]);
    }
  }

  // ---------- Resolving ----------

  /** Adding one resolution of an open decision with part of its Evidence. */
  lemma ResolvingKeeps(k: Kernel, s: Store, t: Store, r: Resolution, count: nat)
    requires Inv(k, s)
    requires r.decision in s.decisions && !s.decisions[r.decision].resolved
    requires Belongs(s.decisions[r.decision].options, r.option)
    requires count <= |Learned(k, s.decisions[r.decision].options, r)|
    requires t.next >= s.next
    requires t.decisions == s.decisions[r.decision := s.decisions[r.decision].(resolved := true)]
    requires t.resolutions == s.resolutions + [r]
    requires t.evidence == s.evidence + Learned(k, s.decisions[r.decision].options, r)[..count]
    ensures Grows(s, t)
    ensures ResolutionsOk(t.decisions, t.resolutions)
    ensures OutcomesOk(t.decisions, s.outcomes)
    ensures EvidenceOk(t.resolutions, t.evidence)
  {
    ResolvedByOne(s.decisions, s.resolutions, r);
    ResolvingKeepsEvidence(k, s, r, s.decisions[r.decision].options, count);
  }

  lemma ResolvedByOne(decisions: map<Id, Decision>, resolutions: seq<Resolution>, r: Resolution)
    requires ResolutionsOk(decisions, resolutions)
    requires r.decision in decisions && !decisions[r.decision].resolved
    requires Belongs(decisions[r.decision].options, r.option)
    ensures ResolutionsOk(decisions[r.decision := decisions[r.decision].(resolved := true)], resolutions + [r])
  {
    var (after, all) := (decisions[r.decision := decisions[r.decision].(resolved := true)], resolutions + [r]);
    forall d <- after | after[d].resolved ensures Resolves(all, d) {
      if d == r.decision {
        assert all[|resolutions|].decision == d;
      } else {
        assert Resolves(resolutions, d);
        var i :| 0 <= i < |resolutions| && resolutions[i].decision == d;
        assert all[i].decision == d;
      }
    }
  }

  lemma ResolvingKeepsEvidence(k: Kernel, s: Store, r: Resolution, options: seq<DecisionOption>, count: nat)
    requires EvidenceOk(s.resolutions, s.evidence)
    requires forall i :: 0 <= i < |s.resolutions| ==> s.resolutions[i].decision != r.decision
    requires count <= |Learned(k, options, r)|
    ensures EvidenceOk(s.resolutions + [r], s.evidence + Learned(k, options, r)[..count])
  {
    var all := s.evidence + Learned(k, options, r)[..count];
    var rs := s.resolutions + [r];
    forall i | 0 <= i < |all| ensures Sourced(rs, all[i]) {
      if i < |s.evidence| {
        assert Sourced(s.resolutions, s.evidence[i]);
        var j :| && 0 <= j < |s.resolutions| && s.resolutions[j].decision == all[i].decision
                 && s.resolutions[j].event == all[i].event;
        assert rs[j].decision == all[i].decision;
      } else {
        assert rs[|s.resolutions|].decision == all[i].decision;
      }
    }
    forall i, j | 0 <= i < j < |all| ensures all[i] != all[j] {
      if i < |s.evidence| <= j {
        assert Sourced(s.resolutions, all[i]);
      }
    }
  }

  lemma ApplyResolutionKeeps(k: Kernel, s: Store, r: Resolution)
    requires Inv(k, s)
    requires r.decision in s.decisions && !s.decisions[r.decision].resolved
    requires Belongs(s.decisions[r.decision].options, r.option)
    ensures Inv(k, ApplyResolution(k, s, r))
    ensures Grows(s, ApplyResolution(k, s, r))
    ensures Applied(k, ApplyResolution(k, s, r), r)
  {
    var t := ApplyResolution(k, s, r);
    var learned := Learned(k, s.decisions[r.decision].options, r);
    assert learned[..|learned|] == learned;
    ResolvingKeeps(k, s, t, r, |learned|);
    GrowsKeepsReports(k, s, t);
    assert t.resolutions[|s.resolutions|] == r;
  }

  // ---------- Ingestion ----------

  lemma IngestDecisionGrows(s: Store, source: Id, externalDecision: string, externalOptions: seq<string>)
    requires FreshIds(s)
    ensures Grows(s, IngestDecision(s, source, externalDecision, externalOptions))
    ensures FreshIds(IngestDecision(s, source, externalDecision, externalOptions))
  {
  }

  lemma AttachedChoiceOk(k: Kernel, t: Store, c: ChoiceReport, source: Id, ext: string, decision: Id)
    requires ChoiceOk(k, t, c) && decision in t.decisions
    ensures ChoiceOk(k, t, AttachedChoice(c, source, ext, decision))
  {
  }

  lemma AttachedResultOk(t: Store, o: OutcomeReport, source: Id, ext: string, decision: Id)
    requires ResultOk(t, o) && decision in t.decisions
    ensures ResultOk(t, AttachedResult(o, source, ext, decision))
  {
  }

  lemma IngestDecisionReports(k: Kernel, s: Store, source: Id, externalDecision: string, externalOptions: seq<string>)
    requires Inv(k, s)
    ensures var t := IngestDecision(s, source, externalDecision, externalOptions);
      && (forall id <- t.choices :: ChoiceOk(k, t, t.choices[id]))
      && (forall id <- t.results :: ResultOk(t, t.results[id]))
  {
    var t := IngestDecision(s, source, externalDecision, externalOptions);
    IngestDecisionGrows(s, source, externalDecision, externalOptions);
    GrowsKeepsReports(k, s, t);
    forall id <- t.choices ensures ChoiceOk(k, t, t.choices[id]) {
      AttachedChoiceOk(k, t, s.choices[id], source, externalDecision, s.next + 1);
    }
    forall id <- t.results ensures ResultOk(t, t.results[id]) {
      AttachedResultOk(t, s.results[id], source, externalDecision, s.next + 1);
    }
  }

  lemma IngestDecisionKeeps(k: Kernel, s: Store, source: Id, externalDecision: string, externalOptions: seq<string>)
    requires Inv(k, s)
    ensures Inv(k, IngestDecision(s, source, externalDecision, externalOptions))
    ensures Grows(s, IngestDecision(s, source, externalDecision, externalOptions))
  {
    IngestDecisionGrows(s, source, externalDecision, externalOptions);
    IngestDecisionReports(k, s, source, externalDecision, externalOptions);
  }

  /** Store one consistent choice, new or changed. */
  lemma SetChoiceKeeps(k: Kernel, s: Store, id: Id, c: ChoiceReport, next: Id)
    requires Inv(k, s) && s.next <= next && id < next && id !in s.results && ChoiceOk(k, s, c)
    ensures Inv(k, s.(next := next, choices := s.choices[id := c]))
    ensures Grows(s, s.(next := next, choices := s.choices[id := c]))
  {
    var t := s.(next := next, choices := s.choices[id := c]);
    GrowsKeepsReports(k, s, t);
    GrowsKeepsChoice(k, s, t, c);
  }

  /** A report that may be stored: a confirmed one names an option of an open decision. */
  ghost predicate Storable(k: Kernel, s: Store, c: ChoiceReport) {
    if c.status == Confirmed
    then
      && c.decision.Some? && c.chosen.Some?
      && c.decision.value in s.decisions && !s.decisions[c.decision.value].resolved
      && Belongs(s.decisions[c.decision.value].options, c.chosen.value)
    else ChoiceOk(k, s, c)
  }

  lemma ChoiceForOk(k: Kernel, s: Store, source: Id, ext: string, option: string, promotable: bool)
    requires Inv(k, s) && Validate(s, source, Choice(ext, option, promotable)).None?
    ensures Storable(k, s, ChoiceFor(s, source, ext, option, promotable))
  {
  }

  /** Store a confirmed choice together with its resolution. */
  lemma ConfirmingKeeps(k: Kernel, s: Store, id: Id, c: ChoiceReport, next: Id)
    requires Inv(k, s) && s.next <= next && id < next && id !in s.results
    requires c.status == Confirmed && c.decision.Some? && c.chosen.Some?
    requires c.decision.value in s.decisions && !s.decisions[c.decision.value].resolved
    requires Belongs(s.decisions[c.decision.value].options, c.chosen.value)
    ensures var r := Resolution(c.decision.value, c.chosen.value, c.event);
      var t := ApplyResolution(k, s.(next := next, choices := s.choices[id := c]), r); Inv(k, t) && Grows(s, t)
  {
    var r := Resolution(c.decision.value, c.chosen.value, c.event);
    ApplyResolutionKeeps(k, s, r);
    var t1 := ApplyResolution(k, s, r);
    SetChoiceKeeps(k, t1, id, c, next);
    assert ApplyResolution(k, s.(next := next, choices := s.choices[id := c]), r)
        == t1.(next := next, choices := t1.choices[id := c]);
  }

  lemma IngestChoiceKeeps(k: Kernel, s: Store, c: ChoiceReport)
    requires Inv(k, s) && Storable(k, s, c)
    ensures Inv(k, IngestChoice(k, s, c)) && Grows(s, IngestChoice(k, s, c))
  {
    if c.status != Confirmed {
      SetChoiceKeeps(k, s, s.next + 1, c, s.next + 2);
    } else {
      ConfirmingKeeps(k, s, s.next + 1, c, s.next + 2);
    }
  }

  lemma AddResultKeeps(k: Kernel, s: Store, id: Id, o: OutcomeReport, next: Id, seen: map<(Id, string), Fingerprint>)
    requires Inv(k, s) && id !in s.choices && s.next <= next && id < next && ResultOk(s, o)
    ensures Inv(k, s.(next := next, results := s.results[id := o], seen := seen))
    ensures Grows(s, s.(next := next, results := s.results[id := o], seen := seen))
  {
    GrowsKeepsReports(k, s, s.(next := next, results := s.results[id := o], seen := seen));
  }

  lemma SeenIrrelevant(k: Kernel, s: Store, seen: map<(Id, string), Fingerprint>)
    requires Inv(k, s)
    ensures Inv(k, s.(seen := seen)) && Grows(s, s.(seen := seen))
  {
    GrowsKeepsReports(k, s, s.(seen := seen));
  }

  lemma IngestKeeps(k: Kernel, s: Store, source: Id, report: Report)
    requires Inv(k, s) && Validate(s, source, report).None?
    ensures Inv(k, Ingest(k, s, source, report)) && Grows(s, Ingest(k, s, source, report))
  {
    match report
    case Interaction =>
      GrowsKeepsReports(k, s, s.(next := s.next + 1));
    case NewDecision(ext, options) =>
      IngestDecisionKeeps(k, s, source, ext, options);
    case Choice(ext, option, promotable) =>
      ChoiceForOk(k, s, source, ext, option, promotable);
      IngestChoiceKeeps(k, s, ChoiceFor(s, source, ext, option, promotable));
    case Result(ext, technical, _, _) =>
      var o := IngestResult(s, source, ext, technical).results[s.next + 1];
      AddResultKeeps(k, s, s.next + 1, o, s.next + 2, s.seen);
  }

  lemma GrowsTransitive(s: Store, t: Store, u: Store)
    requires Grows(s, t) && Grows(t, u)
    ensures Grows(s, u)
  {
  }

  // ---------- The owner's requests ----------

  lemma ConfirmChoiceKeeps(k: Kernel, s: Store, id: Id)
    requires Inv(k, s)
    ensures Inv(k, ConfirmChoice(k, s, id).0) && Grows(s, ConfirmChoice(k, s, id).0)
  {
    if ConfirmChoice(k, s, id).1 == Done {
      var c := s.choices[id];
      assert ChoiceOk(k, s, c);
      ConfirmingKeeps(k, s, id, c.(status := Confirmed), s.next);
    } else {
      GrowsKeepsReports(k, s, s);
    }
  }

  lemma OutcomesKeep(k: Kernel, s: Store, next: Id, outcomes: seq<Outcome>)
    requires Inv(k, s) && s.next <= next && OutcomesOk(s.decisions, outcomes)
    ensures Inv(k, s.(next := next, outcomes := outcomes)) && Grows(s, s.(next := next, outcomes := outcomes))
  {
    GrowsKeepsReports(k, s, s.(next := next, outcomes := outcomes));
  }

  lemma AddedOutcomeOk(decisions: map<Id, Decision>, outcomes: seq<Outcome>, o: Outcome)
    requires OutcomesOk(decisions, outcomes) && !HasOutcome(outcomes, o.decision)
    requires o.decision in decisions && decisions[o.decision].resolved
    ensures OutcomesOk(decisions, outcomes + [o])
  {
  }

  lemma RecordOutcomeKeeps(k: Kernel, s: Store, decision: Id, w: Wellbeing)
    requires Inv(k, s)
    ensures Inv(k, RecordOutcome(s, decision, w).0) && Grows(s, RecordOutcome(s, decision, w).0)
  {
    if RecordOutcome(s, decision, w).1 == Done {
      var o := Outcome(decision, w, s.next);
      AddedOutcomeOk(s.decisions, s.outcomes, o);
      OutcomesKeep(k, s, s.next + 1, s.outcomes + [o]);
    }
  }

  lemma ConfirmReportKeeps(k: Kernel, s: Store, id: Id, w: Wellbeing)
    requires Inv(k, s) && id in s.results && s.results[id].kind == OwnerReported
    ensures var o := s.results[id]; var t := RecordOutcome(s, o.decision.value, w).0;
      && Inv(k, t) && Grows(s, t)
      && Inv(k, t.(results := t.results[id := o.(status := Confirmed)]))
      && Grows(s, t.(results := t.results[id := o.(status := Confirmed)]))
  {
    var o := s.results[id];
    RecordOutcomeKeeps(k, s, o.decision.value, w);
    var t := RecordOutcome(s, o.decision.value, w).0;
    AddResultKeeps(k, t, id, o.(status := Confirmed), t.next, t.seen);
    GrowsTransitive(s, t, t.(results := t.results[id := o.(status := Confirmed)]));
  }

  lemma UnchangedKeeps(k: Kernel, s: Store)
    requires Inv(k, s)
    ensures Grows(s, s)
  {
  }

  /** Confirming a report is refused, or records the owner's outcome and, without a crash, marks it. */
  lemma ConfirmReportIs(k: Kernel, s: Store, id: Id, payload: Option<Wellbeing>, crash: bool)
    requires id in s.results
    ensures var o := s.results[id]; var u := Confirm(k, s, id, payload, crash).0;
      || u == s
      || (o.kind == OwnerReported && o.decision.Some? && o.status == Pending && payload.Some?
          && var t := RecordOutcome(s, o.decision.value, payload.value).0;
             t.results == s.results && t.choices == s.choices
             && (u == t || u == t.(results := t.results[id := o.(status := Confirmed)])))
  {
  }

  lemma ConfirmKeeps(k: Kernel, s: Store, id: Id, payload: Option<Wellbeing>, crash: bool)
    requires Inv(k, s)
    ensures Inv(k, Confirm(k, s, id, payload, crash).0) && Grows(s, Confirm(k, s, id, payload, crash).0)
  {
    if id !in s.results {
      ConfirmChoiceKeeps(k, s, id);
    } else {
      ConfirmReportIs(k, s, id, payload, crash);
      UnchangedKeeps(k, s);
      if payload.Some? && s.results[id].kind == OwnerReported {
        ConfirmReportKeeps(k, s, id, payload.value);
      }
    }
  }

  lemma RejectKeeps(k: Kernel, s: Store, id: Id)
    requires Inv(k, s)
    ensures Inv(k, Reject(s, id).0) && Grows(s, Reject(s, id).0)
  {
    if id in s.results {
      AddResultKeeps(k, s, id, s.results[id].(status := Rejected), s.next, s.seen);
    } else if id in s.choices {
      assert ChoiceOk(k, s, s.choices[id]);
      SetChoiceKeeps(k, s, id, s.choices[id].(status := Rejected), s.next);
    }
  }

  lemma CreateKeeps(k: Kernel, s: Store, options: nat)
    requires Inv(k, s)
    ensures Inv(k, CreateDecision(s, options).0) && Grows(s, CreateDecision(s, options).0)
  {
    GrowsKeepsReports(k, s, CreateDecision(s, options).0);
  }

  lemma ResolveKeeps(k: Kernel, s: Store, decision: Id, option: Id, written: nat)
    requires Inv(k, s)
    ensures Inv(k, Resolve(k, s, decision, option, written).0) && Grows(s, Resolve(k, s, decision, option, written).0)
  {
    var t := Resolve(k, s, decision, option, written).0;
    if Resolve(k, s, decision, option, written).1 == Done {
      var r := Resolution(decision, option, s.next);
      ResolvingKeeps(k, s, t, r, Min(written, |Learned(k, s.decisions[decision].options, r)|));
    }
    GrowsKeepsReports(k, s, t);
  }

  lemma {:induction false} WithoutOutcomeOk(decisions: map<Id, Decision>, outcomes: seq<Outcome>, decision: Id)
    requires OutcomesOk(decisions, outcomes)
    ensures OutcomesOk(decisions, WithoutOutcome(outcomes, decision))
    ensures forall o :: o in WithoutOutcome(outcomes, decision) <==> o in outcomes && o.decision != decision
    decreases |outcomes|
  {
    if outcomes != [] {
      WithoutOutcomeOk(decisions, outcomes[1..], decision);
      var rest := WithoutOutcome(outcomes[1..], decision);
      forall o | o in outcomes[1..] ensures o.decision != outcomes[0].decision {
        var i :| 0 <= i < |outcomes[1..]| && outcomes[1..][i] == o;
        assert outcomes[i + 1] == o;
      }
      forall i | 0 <= i < |rest| ensures rest[i].decision != outcomes[0].decision {
        assert rest[i] in rest;
      }
      assert outcomes == [outcomes[0]] + outcomes[1..];
    }
  }

  lemma DeleteOutcomeKeeps(k: Kernel, s: Store, decision: Id)
    requires Inv(k, s)
    ensures Inv(k, DeleteOutcome(s, decision).0) && Grows(s, DeleteOutcome(s, decision).0)
  {
    WithoutOutcomeOk(s.decisions, s.outcomes, decision);
    OutcomesKeep(k, s, s.next, WithoutOutcome(s.outcomes, decision));
  }

  // ---------- Steps and runs ----------

  lemma RecordEventKeeps(k: Kernel, s: Store, source: Id, id: string, content: string, report: Report)
    requires Inv(k, s)
    ensures Inv(k, RecordEvent(k, s, source, id, content, report).0)
    ensures Grows(s, RecordEvent(k, s, source, id, content, report).0)
  {
    if RecordEvent(k, s, source, id, content, report).1 == Done {
      IngestKeeps(k, s, source, report);
      var t := Ingest(k, s, source, report);
      SeenIrrelevant(k, t, s.seen[(source, id) := OfReport(content, report)]);
      GrowsTransitive(s, t, RecordEvent(k, s, source, id, content, report).0);
    }
  }

  lemma StoredWellbeingOk(s: Store, source: Id, decision: Id, w: Wellbeing)
    requires decision in s.decisions && s.decisions[decision].resolved
    ensures ResultOk(s, OutcomeReport(source, s.next, OwnerReported, None, Some(decision), Some(w), Pending))
  {
  }

  lemma ReportWellbeingKeeps(k: Kernel, s: Store, source: Id, decision: Id, w: Wellbeing, notes: string)
    requires Inv(k, s)
    ensures Inv(k, ReportWellbeing(s, source, decision, w, notes).0)
    ensures Grows(s, ReportWellbeing(s, source, decision, w, notes).0)
  {
    var u := ReportWellbeing(s, source, decision, w, notes).0;
    if ReportWellbeing(s, source, decision, w, notes).1 == Done {
      var o := OutcomeReport(source, s.next, OwnerReported, None, Some(decision), Some(w), Pending);
      StoredWellbeingOk(s, source, decision, w);
      AddResultKeeps(k, s, s.next + 1, o, s.next + 2, u.seen);
    } else {
      UnchangedKeeps(k, s);
    }
  }

  /** One request keeps the invariant and takes no canonical record back. */
  lemma StepKeeps(k: Kernel, s: Store, r: Request)
    requires Inv(k, s)
    ensures Inv(k, Handle(k, s, r).0) && Grows(s, Handle(k, s, r).0)
  {
    match r
    case ReqRecord(source, id, content, report) => RecordEventKeeps(k, s, source, id, content, report);
    case ReqWellbeing(source, decision, w, notes) => ReportWellbeingKeeps(k, s, source, decision, w, notes);
    case ReqConfirm(id, payload, crash) => ConfirmKeeps(k, s, id, payload, crash);
    case ReqReject(id) => RejectKeeps(k, s, id);
    case ReqCreate(options) => CreateKeeps(k, s, options);
    case ReqResolve(decision, option, written) => ResolveKeeps(k, s, decision, option, written);
    case ReqOutcome(decision, w) => RecordOutcomeKeeps(k, s, decision, w);
    case ReqDeleteOutcome(decision) => DeleteOutcomeKeeps(k, s, decision);
  }

  /** Every run keeps the invariant, and resolutions, options and Evidence are only ever added. */
  lemma {:induction false} RunKeeps(k: Kernel, s: Store, requests: seq<Request>)
    requires Inv(k, s)
    ensures Inv(k, Run(k, s, requests)) && Grows(s, Run(k, s, requests))
    decreases |requests|
  {
    if requests != [] {
      var t := Handle(k, s, requests[0]).0;
      StepKeeps(k, s, requests[0]);
      RunKeeps(k, t, requests[1..]);
      GrowsTransitive(s, t, Run(k, s, requests));
    }
  }

  lemma EmptyStoreOk(k: Kernel)
    ensures Inv(k, EMPTY)
  {
  }
}
