/** The services themselves: the stored tables are fields, and each request updates them in the
order the program does. Every method leaves exactly the store its request function describes, and
every request keeps the store valid and takes no canonical record back. */
module LifecycleService {
  import opened Prelude
  import L = Lifecycle
  import I = LifecycleInvariant
  import R = LifecycleReview

  class DecisionService {
    const kernel: L.Kernel
    var next: L.Id
    var decisions: map<L.Id, L.Decision>
    var index: map<(L.Id, string), L.Id>
    var resolutions: seq<L.Resolution>
    var choices: map<L.Id, L.ChoiceReport>
    var results: map<L.Id, L.OutcomeReport>
    var outcomes: seq<L.Outcome>
    var evidence: seq<L.Evidence>
    var seen: map<(L.Id, string), L.Fingerprint>

    constructor (kernel: L.Kernel)
      ensures View() == L.EMPTY && this.kernel == kernel && Valid()
    {
      this.kernel := kernel;
      next, decisions, index, resolutions := 0, map[], map[], [];
      choices, results, outcomes, evidence, seen := map[], map[], [], [], map[];
    }

    ghost function View(): L.Store
      reads this
    {
      L.Store(next, decisions, index, resolutions, choices, results, outcomes, evidence, seen)
    }

    /** The invariant of every reachable store. */
    ghost predicate Valid()
      reads this
    {
      I.Inv(kernel, View())
    }

    /** What each request promises besides its own effect. */
    twostate predicate Keeps()
      reads this
    {
      Valid() && I.Grows(old(View()), View())
    }

    method NewId() returns (id: L.Id)
      modifies this`next
      ensures id == old(next) && next == old(next) + 1
    {
      id, next := next, next + 1;
    }

    /** The first option with this external identifier. */
    method FindOption(options: seq<L.DecisionOption>, externalId: string) returns (chosen: Option<L.Id>)
      ensures chosen == L.FindExternal(options, externalId)
    {
      for i := 0 to |options|
        invariant L.FindExternal(options, externalId) == L.FindExternal(options[i..], externalId)
      {
        assert options[i..][1..] == options[i + 1..];
        if options[i].externalId == Some(externalId) {
          return Some(options[i].id);
        }
      }
      return None;
    }

    method FindDecision(source: L.Id, externalDecision: string) returns (decision: Option<L.Id>)
      ensures decision == L.Matched(View(), source, externalDecision)
    {
      if (source, externalDecision) in index && index[(source, externalDecision)] in decisions {
        return Some(index[(source, externalDecision)]);
      }
      return None;
    }

    method ApplyResolution(r: L.Resolution)
      requires r.decision in decisions
      modifies this`decisions, this`resolutions, this`evidence
      ensures View() == L.ApplyResolution(kernel, old(View()), r)
    {
      var d := decisions[r.decision];
      resolutions := resolutions + [r];
      decisions := decisions[r.decision := d.(resolved := true)];
      evidence := evidence + L.Learned(kernel, d.options, r);
    }

    /** Store a new decision, then attach the reports its source sent earlier. */
    method IngestDecision(source: L.Id, externalDecision: string, externalOptions: seq<string>)
      modifies this
      ensures View() == L.IngestDecision(old(View()), source, externalDecision, externalOptions)
    {
      var event := NewId();
      var decision := NewId();
      var options: seq<L.DecisionOption> := [];
      for i := 0 to |externalOptions|
        invariant next == old(next) + 2 + i
        invariant options == L.ReportedOptions(old(next) + 2, externalOptions)[..i]
        modifies this`next
      {
        var id := NewId();
        options := options + [L.DecisionOption(id, Some(externalOptions[i]))];
      }
      assert options == L.ReportedOptions(old(next) + 2, externalOptions);
      decisions := decisions[decision := L.Decision(options, false)];
      index := index[(source, externalDecision) := decision];
      choices := L.AttachChoices(choices, source, externalDecision, decision);
      results := L.AttachResults(results, source, externalDecision, decision);
    }

    /** The report to store: confirmed at once only for the owner's own choice on an open decision. */
    method ResolutionObservation(source: L.Id, ext: string, option: string, promotable: bool)
      returns (c: L.ChoiceReport)
      ensures c == L.ChoiceFor(View(), source, ext, option, promotable)
    {
      var stored := FindDecision(source, ext);
      if stored.None? {
        return L.ChoiceReport(source, next, ext, None, None, L.Unmatched);
      }
      var d := decisions[stored.value];
      var chosen := FindOption(d.options, option);
      var status := if promotable && !d.resolved then L.Confirmed else L.Pending;
      return L.ChoiceReport(source, next, ext, stored, chosen, status);
    }

    method IngestChoice(c: L.ChoiceReport)
      requires c.status == L.Confirmed ==> c.chosen.Some? && c.decision.Some? && c.decision.value in decisions
      requires c.event == next
      modifies this
      ensures View() == L.IngestChoice(kernel, old(View()), c)
    {
      var event := NewId();
      var id := NewId();
      choices := choices[id := c];
      if c.status == L.Confirmed {
        ApplyResolution(L.Resolution(c.decision.value, c.chosen.value, c.event));
      }
    }

    method IngestResult(source: L.Id, externalDecision: string, technical: bool)
      modifies this
      ensures View() == L.IngestResult(old(View()), source, externalDecision, technical)
    {
      var decision := FindDecision(source, externalDecision);
      var event := NewId();
      var id := NewId();
      results := results[id := L.OutcomeReport(source, event, if technical then L.Technical else L.UserBehavior,
        Some(externalDecision), decision, None, if decision.Some? then L.Pending else L.Unmatched)];
    }

    method Validate(source: L.Id, report: L.Report) returns (failure: Option<L.Failure>)
      ensures failure == L.Validate(View(), source, report)
    {
      match report
      case Interaction => return None;
      case NewDecision(_, options) =>
        return if |options| < 2 || !L.DistinctOptions(options) then Some(L.DecisionOptionsInvalid) else None;
      case Choice(ext, option, _) =>
        var decision := FindDecision(source, ext);
        if decision.None? { return None; }
        var chosen := FindOption(decisions[decision.value].options, option);
        return if chosen.None? then Some(L.OptionNotFound) else None;
      case Result(_, _, complete, wellbeing) =>
        if !complete { return Some(L.ReportIncomplete); }
        return if wellbeing.Some? then Some(L.WellbeingNotReportable) else None;
    }

    method Ingest(source: L.Id, report: L.Report)
      requires L.Validate(View(), source, report).None?
      modifies this
      ensures View() == L.Ingest(kernel, old(View()), source, report)
    {
      match report
      case Interaction => var event := NewId();
      case NewDecision(ext, options) => IngestDecision(source, ext, options);
      case Choice(ext, option, promotable) =>
        var c := ResolutionObservation(source, ext, option, promotable);
        IngestChoice(c);
      case Result(ext, technical, _, _) => IngestResult(source, ext, technical);
    }

    /** Why an event is not stored: it is invalid, it was seen before, or its decision was. */
    method Refusal(source: L.Id, id: string, content: string, report: L.Report) returns (refusal: Option<L.Reply>)
      ensures refusal.None? ==> L.Validate(View(), source, report).None? && (source, id) !in seen
      ensures refusal.Some? ==> L.RecordEvent(kernel, View(), source, id, content, report) == (View(), refusal.value)
      ensures refusal.None? ==>
        var stored := L.Ingest(kernel, View(), source, report);
        L.RecordEvent(kernel, View(), source, id, content, report)
          == (stored.(seen := seen[(source, id) := L.OfReport(content, report)]), L.Done)
      ensures refusal.Some? ==> refusal.value != L.Done
    {
      var failure := Validate(source, report);
      if failure.Some? { return Some(L.Refused(failure.value)); }
      var key := (source, id);
      if key in seen {
        var same := seen[key] == L.OfReport(content, report);
        return Some(if same then L.Duplicate else L.Refused(L.ExternalEventConflict));
      }
      if report.NewDecision? && (source, report.externalDecision) in index {
        return Some(L.Refused(L.ExternalDecisionConflict));
      }
      return None;
    }

    /** One agent event: validate, deduplicate, then store it with everything it projects to. */
    method RecordEvent(source: L.Id, id: string, content: string, report: L.Report) returns (reply: L.Reply)
      requires Valid()
      modifies this
      ensures (View(), reply) == L.RecordEvent(kernel, old(View()), source, id, content, report)
      ensures Keeps()
      ensures (source, id) in old(seen) ==> reply != L.Done && View() == old(View())
      ensures reply == L.Done ==> (source, id) in seen
    {
      I.RecordEventKeeps(kernel, View(), source, id, content, report);
      var refusal := Refusal(source, id, content, report);
      if refusal.Some? {
        I.UnchangedKeeps(kernel, View());
        return refusal.value;
      }
      IngestKeepsSeen(kernel, View(), source, report);
      Ingest(source, report);
      seen := seen[(source, id) := L.OfReport(content, report)];
      return L.Done;
    }

    method ReportWellbeing(source: L.Id, decision: L.Id, w: L.Wellbeing, notes: string) returns (reply: L.Reply)
      requires Valid()
      modifies this
      ensures (View(), reply) == L.ReportWellbeing(old(View()), source, decision, w, notes)
      ensures Keeps() && outcomes == old(outcomes)
    {
      I.ReportWellbeingKeeps(kernel, View(), source, decision, w, notes);
      if decision !in decisions { return L.Refused(L.DecisionNotFound); }
      if !decisions[decision].resolved { return L.Refused(L.NotResolved); }
      var key := (source, L.LegacyKey(decision));
      if key in seen {
        var same := seen[key] == L.OfWellbeing(decision, w, notes);
        return if same then L.Duplicate else L.Refused(L.ExternalEventConflict);
      }
      StoreWellbeing(source, decision, w, notes);
      return L.Done;
    }

    method StoreWellbeing(source: L.Id, decision: L.Id, w: L.Wellbeing, notes: string)
      modifies this`next, this`results, this`seen
      ensures View() == old(View()).(
        next := old(next) + 2,
        results := old(results)[old(next) + 1 :=
          L.OutcomeReport(source, old(next), L.OwnerReported, None, Some(decision), Some(w), L.Pending)],
        seen := old(seen)[(source, L.LegacyKey(decision)) := L.OfWellbeing(decision, w, notes)])
    {
      var event := NewId();
      var id := NewId();
      var reported := L.OutcomeReport(source, event, L.OwnerReported, None, Some(decision), Some(w), L.Pending);
      results := results[id := reported];
      seen := seen[(source, L.LegacyKey(decision)) := L.OfWellbeing(decision, w, notes)];
    }

    method ConfirmResolution(id: L.Id) returns (reply: L.Reply)
      modifies this
      ensures (View(), reply) == L.ConfirmChoice(kernel, old(View()), id)
    {
      if id !in choices { return L.Refused(L.ObservationNotFound); }
      var c := choices[id];
      if c.status != L.Pending || c.decision.None? { return L.Refused(L.NotConfirmable); }
      if c.decision.value !in decisions { return L.Refused(L.DecisionNotFound); }
      if decisions[c.decision.value].resolved { return L.Refused(L.AlreadyResolved); }
      if c.chosen.None? { return L.Refused(L.ObservationStateChanged); }
      choices := choices[id := c.(status := L.Confirmed)];
      ApplyResolution(L.Resolution(c.decision.value, c.chosen.value, c.event));
      return L.Done;
    }

    method FindOutcome(decision: L.Id) returns (found: bool)
      ensures found == L.HasOutcome(outcomes, decision)
    {
      for i := 0 to |outcomes|
        invariant forall j :: 0 <= j < i ==> outcomes[j].decision != decision
      {
        if outcomes[i].decision == decision { return true; }
      }
      return false;
    }

    method RecordOutcome(decision: L.Id, w: L.Wellbeing) returns (reply: L.Reply)
      requires Valid()
      modifies this`next, this`outcomes
      ensures (View(), reply) == L.RecordOutcome(old(View()), decision, w)
      ensures Keeps()
      ensures L.HasOutcome(old(outcomes), decision) ==> reply != L.Done && View() == old(View())
      ensures reply == L.Done ==> L.HasOutcome(outcomes, decision)
    {
      I.RecordOutcomeKeeps(kernel, View(), decision, w);
      if decision !in decisions { return L.Refused(L.DecisionNotFound); }
      if !decisions[decision].resolved { return L.Refused(L.NotResolved); }
      var found := FindOutcome(decision);
      if found { return L.Refused(L.OutcomeAlreadyRecorded); }
      var event := NewId();
      outcomes := outcomes + [L.Outcome(decision, w, event)];
      assert outcomes[|outcomes| - 1].decision == decision;
      return L.Done;
    }

    /** Confirm a report: the owner's outcome is written first and the report marked second; `crash`
    stops between. */
    method ConfirmReport(id: L.Id, payload: Option<L.Wellbeing>, crash: bool) returns (reply: L.Reply)
      requires Valid() && id in results
      modifies this
      ensures (View(), reply) == L.Confirm(kernel, old(View()), id, payload, crash)
    {
      var o := results[id];
      if o.kind != L.OwnerReported || o.decision.None? || o.status != L.Pending { return L.Refused(L.NotConfirmable); }
      if payload.None? { return L.Refused(L.PayloadRequired); }
      reply := RecordOutcome(o.decision.value, payload.value);
      if reply == L.Done && !crash {
        results := results[id := o.(status := L.Confirmed)];
      }
    }

    /** A confirmed report is refused, and a successful confirmation without a crash leaves it confirmed. */
    method ConfirmObservation(id: L.Id, payload: Option<L.Wellbeing>, crash: bool) returns (reply: L.Reply)
      requires Valid()
      modifies this
      ensures (View(), reply) == L.Confirm(kernel, old(View()), id, payload, crash)
      ensures Keeps()
      ensures old(R.IsConfirmed(View(), id)) ==> reply == L.Refused(L.NotConfirmable) && View() == old(View())
      ensures reply == L.Done && !crash ==> R.IsConfirmed(View(), id)
    {
      I.ConfirmKeeps(kernel, View(), id, payload, crash);
      if R.IsConfirmed(View(), id) { R.NotPendingIsRefused(kernel, View(), id, payload, crash); }
      if !crash && L.Confirm(kernel, View(), id, payload, false).1 == L.Done {
        R.ConfirmSettles(kernel, View(), id, payload);
      }
      if id in results {
        reply := ConfirmReport(id, payload, crash);
      } else {
        reply := ConfirmResolution(id);
      }
    }

    method RejectObservation(id: L.Id) returns (reply: L.Reply)
      requires Valid()
      modifies this`results, this`choices
      ensures (View(), reply) == L.Reject(old(View()), id)
      ensures Keeps() && !R.IsConfirmed(View(), id)
    {
      I.RejectKeeps(kernel, View(), id);
      if id in results {
        results := results[id := results[id].(status := L.Rejected)];
        return L.Done;
      }
      if id in choices {
        choices := choices[id := choices[id].(status := L.Rejected)];
        return L.Done;
      }
      return L.Refused(L.ObservationNotFound);
    }

    method Create(count: nat) returns (decision: L.Id)
      requires Valid()
      modifies this`next, this`decisions
      ensures View() == L.CreateDecision(old(View()), count).0 && decision == old(next)
      ensures Keeps() && decision !in old(decisions) && decision in decisions
    {
      I.CreateKeeps(kernel, View(), count);
      decision := NewId();
      var options: seq<L.DecisionOption> := [];
      for i := 0 to count
        invariant next == old(next) + 1 + i
        invariant options == L.OwnOptions(old(next) + 1, count)[..i]
        modifies this`next
      {
        var id := NewId();
        options := options + [L.DecisionOption(id, None)];
      }
      assert options == L.OwnOptions(old(next) + 1, count);
      decisions := decisions[decision := L.Decision(options, false)];
    }

    /** The owner's own resolution: its Evidence is added item by item, and `written` items are
    stored when the process dies. */
    method Resolve(decision: L.Id, option: L.Id, written: nat) returns (reply: L.Reply)
      requires Valid()
      modifies this
      ensures (View(), reply) == L.Resolve(kernel, old(View()), decision, option, written)
      ensures Keeps()
      ensures reply == L.Done ==> decision in decisions && decisions[decision].resolved
    {
      I.ResolveKeeps(kernel, View(), decision, option, written);
      if decision !in decisions { return L.Refused(L.DecisionNotFound); }
      var d := decisions[decision];
      if d.resolved { return L.Refused(L.AlreadyResolved); }
      if !L.Belongs(d.options, option) { return L.Refused(L.OptionNotFound); }
      if |d.options| < 2 { return L.Refused(L.DecisionOptionsInvalid); }
      var event := NewId();
      StoreResolution(L.Resolution(decision, option, event), written);
      return L.Done;
    }

    /** The decision and its resolution first, then the Evidence, item by item. */
    method StoreResolution(r: L.Resolution, written: nat)
      requires r.decision in decisions
      modifies this`decisions, this`resolutions, this`evidence
      ensures var d := old(decisions)[r.decision]; var learned := L.Learned(kernel, d.options, r);
        && decisions == old(decisions)[r.decision := d.(resolved := true)]
        && resolutions == old(resolutions) + [r]
        && evidence == old(evidence) + learned[..Min(written, |learned|)]
    {
      var d := decisions[r.decision];
      var learned := L.Learned(kernel, d.options, r);
      decisions := decisions[r.decision := d.(resolved := true)];
      resolutions := resolutions + [r];
      var i := 0;
      while i < |learned| && i < written
        invariant i <= Min(written, |learned|)
        invariant evidence == old(evidence) + learned[..i]
        modifies this`evidence
      {
        evidence := evidence + [learned[i]];
        i := i + 1;
      }
    }

    method DeleteOutcome(decision: L.Id) returns (reply: L.Reply)
      requires Valid()
      modifies this`outcomes
      ensures (View(), reply) == L.DeleteOutcome(old(View()), decision)
      ensures Keeps() && !L.HasOutcome(outcomes, decision)
    {
      I.DeleteOutcomeKeeps(kernel, View(), decision);
      NoOutcomeLeft(kernel, View(), decision);
      var found := FindOutcome(decision);
      if decision !in decisions || !found { return L.Refused(L.OutcomeNotFound); }
      outcomes := L.WithoutOutcome(outcomes, decision);
      return L.Done;
    }

    /** One request of the interface. */
    method Handle(r: L.Request) returns (reply: L.Reply)
      requires Valid()
      modifies this
      ensures (View(), reply) == L.Handle(kernel, old(View()), r) && Keeps()
    {
      match r
      case ReqRecord(source, id, content, report) => reply := RecordEvent(source, id, content, report);
      case ReqWellbeing(source, decision, w, notes) => reply := ReportWellbeing(source, decision, w, notes);
      case ReqConfirm(id, payload, crash) => reply := ConfirmObservation(id, payload, crash);
      case ReqReject(id) => reply := RejectObservation(id);
      case ReqCreate(options) => var decision := Create(options); reply := L.Done;
      case ReqResolve(decision, option, written) => reply := Resolve(decision, option, written);
      case ReqOutcome(decision, w) => reply := RecordOutcome(decision, w);
      case ReqDeleteOutcome(decision) => reply := DeleteOutcome(decision);
    }

    /** Requests one after the other: the run of the request functions. */
    method Serve(requests: seq<L.Request>)
      requires Valid()
      modifies this
      ensures View() == L.Run(kernel, old(View()), requests) && Keeps()
    {
      assert requests[0..] == requests;
      I.UnchangedKeeps(kernel, View());
      for i := 0 to |requests|
        invariant Valid() && I.Grows(old(View()), View())
        invariant L.Run(kernel, View(), requests[i..]) == L.Run(kernel, old(View()), requests)
      {
        assert requests[i..][0] == requests[i] && requests[i..][1..] == requests[i + 1..];
        ghost var before := View();
        var reply := Handle(requests[i]);
        I.GrowsTransitive(old(View()), before, View());
      }
      assert requests[|requests|..] == [];
    }
  }

  lemma IngestKeepsSeen(k: L.Kernel, s: L.Store, source: L.Id, report: L.Report)
    requires L.Validate(s, source, report).None?
    ensures L.Ingest(k, s, source, report).seen == s.seen
  {
  }

  lemma NoOutcomeLeft(k: L.Kernel, s: L.Store, decision: L.Id)
    requires I.Inv(k, s)
    ensures decision in s.decisions || !L.HasOutcome(s.outcomes, decision)
    ensures !L.HasOutcome(L.WithoutOutcome(s.outcomes, decision), decision)
  {
    I.WithoutOutcomeOk(s.decisions, s.outcomes, decision);
    var rest := L.WithoutOutcome(s.outcomes, decision);
    assert forall i :: 0 <= i < |rest| ==> rest[i] in rest;
  }
}
