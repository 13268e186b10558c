/** Runs from the empty store into the cases where the program falls short. */
module LifecycleExamples {
  import opened Prelude
  import opened Lifecycle
  import opened LifecycleInvariant
  import opened LifecycleReview
  import opened LifecycleEvidence
  import opened LifecycleFinality

  lemma TwoRequests(k: Kernel, a: Request, b: Request)
    ensures Run(k, EMPTY, [a, b]) == Handle(k, Handle(k, EMPTY, a).0, b).0
    ensures Inv(k, Handle(k, EMPTY, a).0) && Inv(k, Run(k, EMPTY, [a, b]))
  {
    EmptyStoreOk(k);
    StepKeeps(k, EMPTY, a);
    var s := Handle(k, EMPTY, a).0;
    StepKeeps(k, s, b);
    assert [a, b][1..] == [b] && [b][1..] == [];
    assert Run(k, s, [b]) == Run(k, Handle(k, s, b).0, []);
  }

  const CHOICE: Request := ReqRecord(0, "choice", "", Choice("d", "x", true))
  const DECISION: Request := ReqRecord(0, "decision", "", NewDecision("d", ["x", "y"]))

  lemma ValidDecision(s: Store)
    ensures Validate(s, 0, NewDecision("d", ["x", "y"])).None?
  {
    assert ["x", "y"][0] != ["x", "y"][1];
  }

  /** The owner's choice arrives before its decision: no run ever confirms it. */
  lemma ChoiceBeforeDecision(k: Kernel, requests: seq<Request>, payload: Option<Wellbeing>, crash: bool)
    ensures var s := Run(k, EMPTY, [CHOICE, DECISION]);
      && Handle(k, EMPTY, CHOICE).1 == Done && Handle(k, Handle(k, EMPTY, CHOICE).0, DECISION).1 == Done
      && 1 in s.choices && s.choices[1].status == Pending
      && Confirm(k, Run(k, s, requests), 1, payload, crash).1 != Done
  {
    EmptyStoreOk(k);
    TwoRequests(k, CHOICE, DECISION);
    var s1 := Handle(k, EMPTY, CHOICE).0;
    ValidDecision(s1);
    assert "choice" != "decision" by { assert |"choice"| != |"decision"|; }
    assert s1.seen.Keys == {(0, "choice")} && s1.index == map[];
    LateDecisionStrandsChoice(k, EMPTY, 0, "choice", "decision", "", "", "d", "x", ["x", "y"], true,
                              requests, payload, crash);
  }

  /** The decision is known, open, and offers "x"; the choice event is new. */
  ghost predicate Offers(k: Kernel, s: Store, decision: Id) {
    && Inv(k, s) && Matched(s, 0, "d") == Some(decision) && !s.decisions[decision].resolved
    && FindExternal(s.decisions[decision].options, "x").Some? && (0, "choice") !in s.seen && s.resolutions == []
  }

  lemma DecisionOffers(k: Kernel)
    ensures Offers(k, Handle(k, EMPTY, DECISION).0, 1) && Handle(k, EMPTY, DECISION).0.next == 4
  {
    ValidDecision(EMPTY);
    EmptyStoreOk(k);
    StepKeeps(k, EMPTY, DECISION);
    var s := Handle(k, EMPTY, DECISION).0;
    assert s.decisions[1].options[0] == DecisionOption(2, Some("x"));
    assert "choice" != "decision" by { assert |"choice"| != |"decision"|; }
    assert s.seen.Keys == {(0, "decision")};
  }

  lemma OfferedIsPromoted(k: Kernel, s: Store, decision: Id)
    requires Offers(k, s, decision)
    ensures var t := Handle(k, s, CHOICE).0;
      s.next + 1 in t.choices && t.choices[s.next + 1].status == Confirmed && |t.resolutions| == 1
  {
    assert Handle(k, s, CHOICE).1 == Done;
    PromotedExactly(k, s, 0, "choice", "", "d", "x", true);
  }

  /** The other way round it is promoted at once, and can then be rejected, which takes nothing back. */
  lemma ChoiceAfterDecision(k: Kernel)
    ensures var s := Run(k, EMPTY, [DECISION, CHOICE]);
      && 5 in s.choices && s.choices[5].status == Confirmed && |s.resolutions| == 1
      && Reject(s, 5).0.choices[5].status == Rejected && Reject(s, 5).0.resolutions == s.resolutions
      && Reject(s, 5).0.evidence == s.evidence
  {
    TwoRequests(k, DECISION, CHOICE);
    DecisionOffers(k);
    OfferedIsPromoted(k, Handle(k, EMPTY, DECISION).0, 1);
    ConfirmedCanBeRejected(k, Run(k, EMPTY, [DECISION, CHOICE]), 5);
  }

  const OWN: Request := ReqCreate(2)

  /** A new decision of the owner's with two options. */
  const OPEN: Store := EMPTY.(next := 3, decisions := map[0 := Decision(OwnOptions(1, 2), false)])

  lemma OwnIsOpen(k: Kernel)
    ensures Handle(k, EMPTY, OWN).0 == OPEN && Inv(k, OPEN) && Belongs(OwnOptions(1, 2), 1)
  {
    EmptyStoreOk(k);
    StepKeeps(k, EMPTY, OWN);
    assert OwnOptions(1, 2)[0].id == 1;
  }

  /** The process dies before the first of the kernel's items: it is missing in every run. */
  lemma EvidenceLost(k: Kernel, requests: seq<Request>)
    requires k(OwnOptions(1, 2), 1) > 0
    ensures var s := Run(k, EMPTY, [OWN, ReqResolve(0, 1, 0)]);
      && 0 in s.decisions && s.decisions[0].resolved
      && Evidence(3, 0, 0) !in Run(k, s, requests).evidence
  {
    TwoRequests(k, OWN, ReqResolve(0, 1, 0));
    OwnIsOpen(k);
    CutShortStaysShort(k, OPEN, 0, 1, 0, requests);
  }

  /** A resolved decision on which nothing was reported yet. */
  ghost predicate Awaits(k: Kernel, s: Store) {
    Inv(k, s) && s.next == 4 && 0 in s.decisions && s.decisions[0].resolved && s.seen == map[] && s.outcomes == []
  }

  lemma ResolvedAwaits(k: Kernel)
    ensures Awaits(k, Run(k, EMPTY, [OWN, ReqResolve(0, 1, 0)]))
  {
    TwoRequests(k, OWN, ReqResolve(0, 1, 0));
    OwnIsOpen(k);
    assert OPEN.decisions[0] == Decision(OwnOptions(1, 2), false);
    assert Resolve(k, OPEN, 0, 1, 0).1 == Done;
  }

  /** An agent's report of satisfaction waits for the owner. */
  ghost predicate Waits(k: Kernel, s: Store, id: Id) {
    && Inv(k, s) && id in s.results && s.results[id].kind == OwnerReported && s.results[id].status == Pending
    && s.results[id].decision == Some(0) && s.outcomes == []
  }

  lemma ReportedWaits(k: Kernel, s: Store, reported: Wellbeing)
    requires Awaits(k, s)
    ensures Waits(k, Handle(k, s, ReqWellbeing(0, 0, reported, "")).0, 5)
  {
    ReportWellbeingKeeps(k, s, 0, 0, reported, "");
  }

  lemma WaitingIsConfirmed(k: Kernel, s: Store, id: Id, own: Wellbeing)
    requires Waits(k, s, id)
    ensures Confirm(k, s, id, Some(own), true).1 == Done
  {
    ConfirmSucceedsExactly(k, s, id, Some(own), true);
  }

  lemma WaitingThenCrash(k: Kernel, s: Store, id: Id, own: Wellbeing, requests: seq<Request>,
                         again: Option<Wellbeing>, crash: bool)
    requires Waits(k, s, id) && forall i :: 0 <= i < |requests| ==> !Deletes(requests[i], 0)
    ensures var t := Handle(k, s, ReqConfirm(id, Some(own), true)).0;
      && id in t.results && t.results[id].status == Pending && HasOutcome(t.outcomes, 0)
      && Confirm(k, Run(k, t, requests), id, again, crash).1 != Done
  {
    WaitingIsConfirmed(k, s, id, own);
    CrashedConfirm(k, s, id, own);
    CrashLeavesReportOpen(k, s, id, own, requests, again, crash);
  }

  /** From the empty store to that state: a resolved decision, an agent's report of satisfaction, and
  the daemon dies while the owner confirms it. */
  lemma CrashWhileConfirming(k: Kernel, reported: Wellbeing, own: Wellbeing, requests: seq<Request>,
                             again: Option<Wellbeing>, crash: bool)
    requires forall i :: 0 <= i < |requests| ==> !Deletes(requests[i], 0)
    ensures var s0 := Run(k, EMPTY, [OWN, ReqResolve(0, 1, 0)]);
      var s1 := Handle(k, s0, ReqWellbeing(0, 0, reported, "")).0;
      var s2 := Handle(k, s1, ReqConfirm(5, Some(own), true)).0;
      && 5 in s2.results && s2.results[5].status == Pending && HasOutcome(s2.outcomes, 0)
      && Confirm(k, Run(k, s2, requests), 5, again, crash).1 != Done
  {
    ResolvedAwaits(k);
    var s0 := Run(k, EMPTY, [OWN, ReqResolve(0, 1, 0)]);
    ReportedWaits(k, s0, reported);
    WaitingThenCrash(k, Handle(k, s0, ReqWellbeing(0, 0, reported, "")).0, 5, own, requests, again, crash);
  }

  lemma WaitingThenRejected(k: Kernel, s: Store, id: Id, own: Wellbeing)
    requires Waits(k, s, id)
    ensures var t := Handle(k, s, ReqConfirm(id, Some(own), false)).0; var u := Handle(k, t, ReqReject(id)).0;
      IsConfirmed(t, id) && IsRejected(u, id) && u.outcomes == [Outcome(0, own, s.next)]
  {
    ConfirmableWithoutOutcome(k, s, id, own);
    RejectingKeepsTheOutcome(k, s, id, own);
    assert s.outcomes + [Outcome(0, own, s.next)] == [Outcome(0, own, s.next)];
  }

  /** From the empty store: a confirmed report of satisfaction that is rejected, and the owner's outcome
  that stays. */
  lemma SatisfactionRejectedAfterwards(k: Kernel, reported: Wellbeing, own: Wellbeing)
    ensures var s0 := Run(k, EMPTY, [OWN, ReqResolve(0, 1, 0)]);
      var s1 := Handle(k, s0, ReqWellbeing(0, 0, reported, "")).0;
      var s2 := Handle(k, s1, ReqConfirm(5, Some(own), false)).0; var s3 := Handle(k, s2, ReqReject(5)).0;
      IsConfirmed(s2, 5) && IsRejected(s3, 5) && s3.outcomes == [Outcome(0, own, s1.next)]
  {
    ResolvedAwaits(k);
    var s0 := Run(k, EMPTY, [OWN, ReqResolve(0, 1, 0)]);
    ReportedWaits(k, s0, reported);
    WaitingThenRejected(k, Handle(k, s0, ReqWellbeing(0, 0, reported, "")).0, 5, own);
  }
}
