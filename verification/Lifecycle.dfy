/** Decisions, reported observations and owner outcomes (decision_io.py, decision_io_api.py,
decisions.py, with the storage rules of the SQLite repositories they call).

Every function is one request against the stored records. */
module Lifecycle {
  import opened Prelude

  type Id = nat

  datatype Status = Unmatched | Pending | Confirmed | Rejected

  datatype DecisionOption = DecisionOption(id: Id, externalId: Option<string>)

  datatype Decision = Decision(options: seq<DecisionOption>, resolved: bool)

  datatype Resolution = Resolution(decision: Id, option: Id, event: Id)

  /** A reported choice (ResolutionObservation). */
  datatype ChoiceReport = ChoiceReport(
    source: Id, event: Id, externalDecision: string, decision: Option<Id>, chosen: Option<Id>, status: Status)

  datatype OutcomeKind = Technical | UserBehavior | OwnerReported

  datatype Wellbeing = Wellbeing(satisfaction: real, regret: bool)

  /** A reported result (OutcomeObservation). */
  datatype OutcomeReport = OutcomeReport(
    source: Id, event: Id, kind: OutcomeKind, externalDecision: Option<string>, decision: Option<Id>,
    wellbeing: Option<Wellbeing>, status: Status)

  /** The owner's own outcome of a resolved decision. */
  datatype Outcome = Outcome(decision: Id, wellbeing: Wellbeing, event: Id)

  datatype Evidence = Evidence(event: Id, decision: Id, index: nat)

  datatype Report =
    | Interaction
    | NewDecision(externalDecision: string, externalOptions: seq<string>)
    | Choice(externalDecision: string, externalOption: string, promotable: bool)
    | Result(externalDecision: string, technical: bool, complete: bool, wellbeing: Option<Wellbeing>)

  const DIGITS: string := "0123456789"

  /** How an identifier is written out. */
  function Spelled(id: Id): string {
    if id < 10 then [DIGITS[id]] else Spelled(id / 10) + [DIGITS[id % 10]]
  }

  /** The external event identifier of a legacy outcome report, one of the identifiers an agent of the
  same source may use for its own events. */
  function LegacyKey(decision: Id): string {
    "legacy_outcome:" + Spelled(decision)
  }

  /** A content fingerprint stands for exactly what was reported. */
  datatype Fingerprint =
    | OfReport(content: string, report: Report)
    | OfWellbeing(decision: Id, wellbeing: Wellbeing, notes: string)

  datatype Store = Store(
    next: Id,
    decisions: map<Id, Decision>,
    index: map<(Id, string), Id>,              // unique (source, external decision id)
    resolutions: seq<Resolution>,
    choices: map<Id, ChoiceReport>,
    results: map<Id, OutcomeReport>,
    outcomes: seq<Outcome>,
    evidence: seq<Evidence>,
    seen: map<(Id, string), Fingerprint>)      // unique (source, external event id)

  const EMPTY: Store := Store(0, map[], map[], [], map[], map[], [], [], map[])

  datatype Failure =
    | DecisionOptionsInvalid | OptionNotFound | WellbeingNotReportable | ReportIncomplete
    | ExternalEventConflict | ExternalDecisionConflict
    | ObservationNotFound | NotConfirmable | PayloadRequired | ObservationStateChanged
    | DecisionNotFound | AlreadyResolved | NotResolved | OutcomeAlreadyRecorded | OutcomeNotFound

  datatype Reply = Done | Duplicate | Refused(failure: Failure)

  /** How many Evidence items the kernel derives from choosing an option. */
  type Kernel = (seq<DecisionOption>, Id) -> nat

  // ---------- Helpers ----------

  predicate Belongs(options: seq<DecisionOption>, option: Id) {
    exists i :: 0 <= i < |options| && options[i].id == option
  }

  function FindExternal(options: seq<DecisionOption>, externalId: string): (r: Option<Id>)
    ensures r.Some? ==> Belongs(options, r.value)
  {
    if options == [] then None
    else if options[0].externalId == Some(externalId) then
      assert options[0].id == options[0].id;
      Some(options[0].id)
    else
      var r := FindExternal(options[1..], externalId);
      assert r.Some? ==> Belongs(options, r.value) by {
        if r.Some? {
          var i :| 0 <= i < |options[1..]| && options[1..][i].id == r.value;
          assert options[i + 1].id == r.value;
        }
      }
      r
  }

  predicate HasOutcome(outcomes: seq<Outcome>, decision: Id) {
    exists i :: 0 <= i < |outcomes| && outcomes[i].decision == decision
  }

  function WithoutOutcome(outcomes: seq<Outcome>, decision: Id): seq<Outcome> {
    if outcomes == [] then []
    else if outcomes[0].decision == decision then WithoutOutcome(outcomes[1..], decision)
    else [outcomes[0]] + WithoutOutcome(outcomes[1..], decision)
  }

  function Learned(k: Kernel, options: seq<DecisionOption>, r: Resolution): seq<Evidence> {
    seq(k(options, r.option), i requires 0 <= i < k(options, r.option) => Evidence(r.event, r.decision, i))
  }

  /** Resolve the decision and add its Evidence in one transaction. */
  function ApplyResolution(k: Kernel, s: Store, r: Resolution): Store
    requires r.decision in s.decisions
  {
    var d := s.decisions[r.decision];
    s.(decisions := s.decisions[r.decision := d.(resolved := true)],
       resolutions := s.resolutions + [r],
       evidence := s.evidence + Learned(k, d.options, r))
  }

  // ---------- Ingestion ----------

  function AttachedChoice(c: ChoiceReport, source: Id, externalDecision: string, decision: Id): ChoiceReport {
    if c.source == source && c.externalDecision == externalDecision && c.decision.None? && c.status == Unmatched
    then c.(decision := Some(decision), status := Pending) else c
  }

  function AttachedResult(c: OutcomeReport, source: Id, externalDecision: string, decision: Id): OutcomeReport {
    if c.source == source && c.externalDecision == Some(externalDecision) && c.decision.None? && c.status == Unmatched
    then c.(decision := Some(decision), status := Pending) else c
  }

  function AttachChoices(choices: map<Id, ChoiceReport>, source: Id, ext: string, decision: Id): map<Id, ChoiceReport> {
    map id | id in choices :: AttachedChoice(choices[id], source, ext, decision)
  }

  function AttachResults(results: map<Id, OutcomeReport>, source: Id, ext: string, decision: Id): map<Id, OutcomeReport>
  {
    map id | id in results :: AttachedResult(results[id], source, ext, decision)
  }

  function ReportedOptions(first: Id, externalOptions: seq<string>): seq<DecisionOption> {
    seq(|externalOptions|, i requires 0 <= i < |externalOptions| => DecisionOption(first + i, Some(externalOptions[i])))
  }

  /** Store a new decision and attach its own source's earlier reports to it. */
  function IngestDecision(s: Store, source: Id, externalDecision: string, externalOptions: seq<string>): Store {
    var decision := s.next + 1;
    var options := ReportedOptions(s.next + 2, externalOptions);
    s.(next := s.next + 2 + |externalOptions|,
       decisions := s.decisions[decision := Decision(options, false)],
       index := s.index[(source, externalDecision) := decision],
       choices := AttachChoices(s.choices, source, externalDecision, decision),
       results := AttachResults(s.results, source, externalDecision, decision))
  }

  /** The stored decision a report refers to, if its own source reported one. */
  function Matched(s: Store, source: Id, externalDecision: string): Option<Id> {
    if (source, externalDecision) in s.index && s.index[(source, externalDecision)] in s.decisions
    then Some(s.index[(source, externalDecision)]) else None
  }

  function ChoiceFor(s: Store, source: Id, externalDecision: string, externalOption: string, promotable: bool)
      : ChoiceReport
  {
    match Matched(s, source, externalDecision)
    case None => ChoiceReport(source, s.next, externalDecision, None, None, Unmatched)
    case Some(d) =>
      var chosen := FindExternal(s.decisions[d].options, externalOption);
      ChoiceReport(source, s.next, externalDecision, Some(d), chosen,
        if promotable && !s.decisions[d].resolved then Confirmed else Pending)
  }

  function IngestChoice(k: Kernel, s: Store, c: ChoiceReport): Store
    requires c.status == Confirmed ==> c.chosen.Some? && c.decision.Some? && c.decision.value in s.decisions
  {
    var s1 := s.(next := s.next + 2, choices := s.choices[s.next + 1 := c]);
    if c.status == Confirmed then ApplyResolution(k, s1, Resolution(c.decision.value, c.chosen.value, c.event)) else s1
  }

  function IngestResult(s: Store, source: Id, externalDecision: string, technical: bool): Store {
    var decision := Matched(s, source, externalDecision);
    s.(next := s.next + 2,
       results := s.results[s.next + 1 := OutcomeReport(source, s.next, if technical then Technical else UserBehavior,
         Some(externalDecision), decision, None, if decision.Some? then Pending else Unmatched)])
  }

  predicate DistinctOptions(externalOptions: seq<string>) {
    forall i, j :: 0 <= i < j < |externalOptions| ==> externalOptions[i] != externalOptions[j]
  }

  /** Checks made before the ingestion transaction begins. */
  function Validate(s: Store, source: Id, report: Report): Option<Failure> {
    match report
    case Interaction => None
    case NewDecision(_, externalOptions) =>
      if |externalOptions| < 2 || !DistinctOptions(externalOptions) then Some(DecisionOptionsInvalid) else None
    case Choice(ext, option, _) =>
      if Matched(s, source, ext).Some? && FindExternal(s.decisions[Matched(s, source, ext).value].options, option).None?
      then Some(OptionNotFound) else None
    case Result(_, _, complete, wellbeing) =>
      if !complete then Some(ReportIncomplete) else if wellbeing.Some? then Some(WellbeingNotReportable) else None
  }

  function Ingest(k: Kernel, s: Store, source: Id, report: Report): Store
    requires Validate(s, source, report).None?
  {
    match report
    case Interaction => s.(next := s.next + 1)
    case NewDecision(ext, options) => IngestDecision(s, source, ext, options)
    case Choice(ext, option, promotable) => IngestChoice(k, s, ChoiceFor(s, source, ext, option, promotable))
    case Result(ext, technical, _, _) => IngestResult(s, source, ext, technical)
  }

  function RecordEvent(k: Kernel, s: Store, source: Id, id: string, content: string, report: Report): (Store, Reply) {
    var key := (source, id);
    var fingerprint := OfReport(content, report);
    if Validate(s, source, report).Some? then (s, Refused(Validate(s, source, report).value))
    else if key in s.seen then (s, if s.seen[key] == fingerprint then Duplicate else Refused(ExternalEventConflict))
    else if report.NewDecision? && (source, report.externalDecision) in s.index then
      (s, Refused(ExternalDecisionConflict))
    else (Ingest(k, s, source, report).(seen := s.seen[key := fingerprint]), Done)
  }

  /** The legacy outcome report of an agent: stored, never the owner's outcome. */
  function ReportWellbeing(s: Store, source: Id, decision: Id, w: Wellbeing, notes: string): (Store, Reply) {
    var key := (source, LegacyKey(decision));
    if decision !in s.decisions then (s, Refused(DecisionNotFound))
    else if !s.decisions[decision].resolved then (s, Refused(NotResolved))
    else if key in s.seen then
      (s, if s.seen[key] == OfWellbeing(decision, w, notes) then Duplicate else Refused(ExternalEventConflict))
    else
      var reported := OutcomeReport(source, s.next, OwnerReported, None, Some(decision), Some(w), Pending);
      (s.(next := s.next + 2,
          results := s.results[s.next + 1 := reported],
          seen := s.seen[key := OfWellbeing(decision, w, notes)]), Done)
  }

  // ---------- Owner review ----------

  function ConfirmChoice(k: Kernel, s: Store, id: Id): (Store, Reply) {
    if id !in s.choices then (s, Refused(ObservationNotFound))
    else
      var c := s.choices[id];
      if c.status != Pending || c.decision.None? then (s, Refused(NotConfirmable))
      else if c.decision.value !in s.decisions then (s, Refused(DecisionNotFound))
      else if s.decisions[c.decision.value].resolved then (s, Refused(AlreadyResolved))
      else if c.chosen.None? then (s, Refused(ObservationStateChanged))
      else (ApplyResolution(k, s.(choices := s.choices[id := c.(status := Confirmed)]),
                            Resolution(c.decision.value, c.chosen.value, c.event)), Done)
  }

  function RecordOutcome(s: Store, decision: Id, w: Wellbeing): (Store, Reply) {
    if decision !in s.decisions then (s, Refused(DecisionNotFound))
    else if !s.decisions[decision].resolved then (s, Refused(NotResolved))
    else if HasOutcome(s.outcomes, decision) then (s, Refused(OutcomeAlreadyRecorded))
    else (s.(next := s.next + 1, outcomes := s.outcomes + [Outcome(decision, w, s.next)]), Done)
  }

  /** Confirm a report: a choice becomes canonical; a satisfaction report needs the owner's own
  values. With `crash` the process dies after the outcome write and before the status write. */
  function Confirm(k: Kernel, s: Store, id: Id, payload: Option<Wellbeing>, crash: bool): (Store, Reply) {
    if id !in s.results then ConfirmChoice(k, s, id)
    else
      var o := s.results[id];
      if o.kind != OwnerReported || o.decision.None? || o.status != Pending then (s, Refused(NotConfirmable))
      else if payload.None? then (s, Refused(PayloadRequired))
      else
        var recorded := RecordOutcome(s, o.decision.value, payload.value);
        if recorded.1 != Done || crash then recorded
        else (recorded.0.(results := s.results[id := o.(status := Confirmed)]), Done)
  }

  function Reject(s: Store, id: Id): (Store, Reply) {
    if id in s.results then (s.(results := s.results[id := s.results[id].(status := Rejected)]), Done)
    else if id in s.choices then (s.(choices := s.choices[id := s.choices[id].(status := Rejected)]), Done)
    else (s, Refused(ObservationNotFound))
  }

  // ---------- The owner's own decisions ----------

  function OwnOptions(first: Id, count: nat): seq<DecisionOption> {
    seq(count, i requires 0 <= i < count => DecisionOption(first + i, None))
  }

  function CreateDecision(s: Store, options: nat): (Store, Reply) {
    (s.(next := s.next + 1 + options,
        decisions := s.decisions[s.next := Decision(OwnOptions(s.next + 1, options), false)]), Done)
  }

  /** Resolve a decision; a crash may leave only the first `written` Evidence items. */
  function Resolve(k: Kernel, s: Store, decision: Id, option: Id, written: nat): (Store, Reply) {
    if decision !in s.decisions then (s, Refused(DecisionNotFound))
    else
      var d := s.decisions[decision];
      if d.resolved then (s, Refused(AlreadyResolved))
      else if !Belongs(d.options, option) then (s, Refused(OptionNotFound))
      else if |d.options| < 2 then (s, Refused(DecisionOptionsInvalid))
      else
        var r := Resolution(decision, option, s.next);
        var learned := Learned(k, d.options, r);
        (s.(next := s.next + 1,
            decisions := s.decisions[decision := d.(resolved := true)],
            resolutions := s.resolutions + [r],
            evidence := s.evidence + learned[..Min(written, |learned|)]), Done)
  }

  function DeleteOutcome(s: Store, decision: Id): (Store, Reply) {
    if decision !in s.decisions || !HasOutcome(s.outcomes, decision) then (s, Refused(OutcomeNotFound))
    else (s.(outcomes := WithoutOutcome(s.outcomes, decision)), Done)
  }

  // ---------- Runs ----------

  datatype Request =
    | ReqRecord(source: Id, id: string, content: string, report: Report)
    | ReqWellbeing(source: Id, decision: Id, wellbeing: Wellbeing, notes: string)
    | ReqConfirm(observation: Id, payload: Option<Wellbeing>, crash: bool)
    | ReqReject(observation: Id)
    | ReqCreate(options: nat)
    | ReqResolve(decision: Id, option: Id, written: nat)
    | ReqOutcome(decision: Id, wellbeing: Wellbeing)
    | ReqDeleteOutcome(decision: Id)

  function Handle(k: Kernel, s: Store, r: Request): (Store, Reply) {
    match r
    case ReqRecord(source, id, content, report) => RecordEvent(k, s, source, id, content, report)
    case ReqWellbeing(source, decision, w, notes) => ReportWellbeing(s, source, decision, w, notes)
    case ReqConfirm(id, payload, crash) => Confirm(k, s, id, payload, crash)
    case ReqReject(id) => Reject(s, id)
    case ReqCreate(options) => CreateDecision(s, options)
    case ReqResolve(decision, option, written) => Resolve(k, s, decision, option, written)
    case ReqOutcome(decision, w) => RecordOutcome(s, decision, w)
    case ReqDeleteOutcome(decision) => DeleteOutcome(s, decision)
  }

  function Run(k: Kernel, s: Store, requests: seq<Request>): Store
    decreases |requests|
  {
    if requests == [] then s else Run(k, Handle(k, s, requests[0]).0, requests[1..])
  }
}
