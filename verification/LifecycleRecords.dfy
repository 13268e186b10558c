/** What each report stores, in its own fields, and how later requests find it again. */
module LifecycleRecords {
  import opened Prelude
  import opened Lifecycle
  import opened LifecycleInvariant
  import opened LifecycleIsolation

  // ---------- Reported decisions and their options ----------

  /** A stored decision with one option for each reported one, under the identifiers from `first` on. */
  ghost predicate HoldsOptions(s: Store, decision: Id, first: Id, reported: seq<string>) {
    && decision in s.decisions && |s.decisions[decision].options| == |reported|
    && forall i :: 0 <= i < |reported| ==>
         s.decisions[decision].options[i] == DecisionOption(first + i, Some(reported[i]))
  }

  /** A reported decision is stored open, under a new identifier, with each reported option under its own
  external identifier and a new identifier of its own. */
  lemma DecisionStored(k: Kernel, s: Store, source: Id, id: string, content: string, ext: string, options: seq<string>)
    requires Inv(k, s) && RecordEvent(k, s, source, id, content, NewDecision(ext, options)).1 == Done
    ensures var t := RecordEvent(k, s, source, id, content, NewDecision(ext, options)).0;
      && s.next + 1 !in s.decisions && t.next == s.next + 2 + |options|
      && Lookup(t.index, (source, ext)) == Some(s.next + 1)
      && HoldsOptions(t, s.next + 1, s.next + 2, options) && !t.decisions[s.next + 1].resolved
      && DistinctOptions(options)
      && t.resolutions == s.resolutions && t.evidence == s.evidence && t.outcomes == s.outcomes
  {
  }

  lemma StepKeepsIndex(k: Kernel, s: Store, r: Request, key: (Id, string))
    requires key in s.index
    ensures Lookup(Handle(k, s, r).0.index, key) == Some(s.index[key])
  {
    if r.ReqRecord? && Handle(k, s, r).1 == Done { IngestKeepsIndex(k, s, r.source, r.report, key); }
  }

  lemma IngestKeepsIndex(k: Kernel, s: Store, source: Id, report: Report, key: (Id, string))
    requires Validate(s, source, report).None? && key in s.index
    requires report.NewDecision? ==> key != (source, report.externalDecision)
    ensures Lookup(Ingest(k, s, source, report).index, key) == Some(s.index[key])
  {
  }

  lemma {:induction false} RunKeepsIndex(k: Kernel, s: Store, requests: seq<Request>, key: (Id, string))
    requires key in s.index
    ensures Lookup(Run(k, s, requests).index, key) == Some(s.index[key])
    decreases |requests|
  {
    if requests != [] {
      StepKeepsIndex(k, s, requests[0], key);
      RunKeepsIndex(k, Handle(k, s, requests[0]).0, requests[1..], key);
    }
  }

  lemma {:induction false} FoundAt(options: seq<DecisionOption>, first: Id, reported: seq<string>, i: nat)
    requires |options| == |reported| && DistinctOptions(reported) && i < |reported|
    requires forall j :: 0 <= j < |reported| ==> options[j] == DecisionOption(first + j, Some(reported[j]))
    ensures FindExternal(options, reported[i]) == Some(first + i)
    decreases i
  {
    if i > 0 {
      assert reported[0] != reported[i];
      FoundAt(options[1..], first + 1, reported[1..], i - 1);
    }
  }

  lemma {:induction false} FoundOnlyReported(options: seq<DecisionOption>, first: Id, reported: seq<string>,
                                             option: string)
    requires |options| == |reported|
    requires forall j :: 0 <= j < |reported| ==> options[j] == DecisionOption(first + j, Some(reported[j]))
    requires option !in reported
    ensures FindExternal(options, option).None?
    decreases |options|
  {
    if options != [] {
      assert reported[0] in reported;
      FoundOnlyReported(options[1..], first + 1, reported[1..], option);
    }
  }

  /** The decision is known under its external identifier, and has these options. */
  ghost predicate KnowsOptions(s: Store, source: Id, ext: string, decision: Id, first: Id, options: seq<string>) {
    Lookup(s.index, (source, ext)) == Some(decision) && HoldsOptions(s, decision, first, options)
  }

  lemma RunKnowsOptions(k: Kernel, s: Store, requests: seq<Request>, source: Id, ext: string, decision: Id, first: Id,
                        options: seq<string>)
    requires Inv(k, s) && KnowsOptions(s, source, ext, decision, first, options)
    ensures KnowsOptions(Run(k, s, requests), source, ext, decision, first, options)
  {
    RunKeeps(k, s, requests);
    RunKeepsIndex(k, s, requests, (source, ext));
  }

  /** The choice was refused exactly when its option is none of these; otherwise it was stored, for this
  decision, with the option at that option's own place. */
  ghost predicate NamesOption(s: Store, after: (Store, Reply), decision: Id, first: Id, options: seq<string>,
                              option: string)
  {
    && (after.1 == Refused(OptionNotFound) <==> option !in options)
    && (after.1 == Done <==> option in options)
    && forall i :: 0 <= i < |options| && options[i] == option ==> Chose(after.0, s.next + 1, decision, first + i)
  }

  predicate Chose(s: Store, choice: Id, decision: Id, option: Id) {
    && choice in s.choices
    && s.choices[choice].decision == Some(decision) && s.choices[choice].chosen == Some(option)
  }

  /** What is found under an external option identifier. */
  ghost predicate FindsReported(stored: seq<DecisionOption>, first: Id, options: seq<string>, option: string) {
    && (FindExternal(stored, option).Some? <==> option in options)
    && forall i :: 0 <= i < |options| && options[i] == option ==> FindExternal(stored, option) == Some(first + i)
  }

  lemma FindsExactly(s: Store, source: Id, ext: string, decision: Id, first: Id, options: seq<string>, option: string)
    requires KnowsOptions(s, source, ext, decision, first, options) && DistinctOptions(options)
    ensures FindsReported(s.decisions[decision].options, first, options, option)
  {
    var stored := s.decisions[decision].options;
    if option !in options { FoundOnlyReported(stored, first, options, option); }
    forall i | 0 <= i < |options| && options[i] == option ensures FindExternal(stored, option) == Some(first + i) {
      FoundAt(stored, first, options, i);
    }
    if option in options {
      var i :| 0 <= i < |options| && options[i] == option;
      assert FindExternal(stored, option) == Some(first + i);
    }
  }

  lemma ChoiceNamesOptionExactly(k: Kernel, s: Store, source: Id, ext: string, decision: Id, first: Id,
                                 options: seq<string>, id: string, content: string, option: string, promotable: bool)
    requires KnowsOptions(s, source, ext, decision, first, options) && DistinctOptions(options)
    requires (source, id) !in s.seen
    ensures NamesOption(s, RecordEvent(k, s, source, id, content, Choice(ext, option, promotable)),
                        decision, first, options, option)
  {
    assert Matched(s, source, ext) == Some(decision);
    FindsExactly(s, source, ext, decision, first, options, option);
  }

  /** After a reported decision, at any later time: a choice of it under a new event identifier is refused
  exactly when its option was not reported, and otherwise names the option at its own place. */
  lemma LaterChoiceNamesOptionExactly(k: Kernel, s: Store, source: Id, id: string, content: string, ext: string,
                                      options: seq<string>, requests: seq<Request>, id': string, content': string,
                                      option: string, promotable: bool)
    requires Inv(k, s) && RecordEvent(k, s, source, id, content, NewDecision(ext, options)).1 == Done
    requires var t := Run(k, RecordEvent(k, s, source, id, content, NewDecision(ext, options)).0, requests);
      (source, id') !in t.seen
    ensures var t := Run(k, RecordEvent(k, s, source, id, content, NewDecision(ext, options)).0, requests);
      NamesOption(t, RecordEvent(k, t, source, id', content', Choice(ext, option, promotable)),
                  s.next + 1, s.next + 2, options, option)
  {
    var s1 := RecordEvent(k, s, source, id, content, NewDecision(ext, options)).0;
    DecisionStored(k, s, source, id, content, ext, options);
    RecordEventKeeps(k, s, source, id, content, NewDecision(ext, options));
    RunKnowsOptions(k, s1, requests, source, ext, s.next + 1, s.next + 2, options);
    ChoiceNamesOptionExactly(k, Run(k, s1, requests), source, ext, s.next + 1, s.next + 2, options,
                             id', content', option, promotable);
  }

  // ---------- Legacy reports of satisfaction ----------

  /** A legacy report is answered by the first check that fails. */
  ghost predicate WellbeingAnswers(s: Store, source: Id, decision: Id, w: Wellbeing, notes: string, reply: Reply) {
    var key := (source, LegacyKey(decision));
    if decision !in s.decisions then reply == Refused(DecisionNotFound)
    else if !s.decisions[decision].resolved then reply == Refused(NotResolved)
    else if key !in s.seen then reply == Done
    else if s.seen[key] == OfWellbeing(decision, w, notes) then reply == Duplicate
    else reply == Refused(ExternalEventConflict)
  }

  lemma WellbeingAnswersExactly(s: Store, source: Id, decision: Id, w: Wellbeing, notes: string)
    ensures WellbeingAnswers(s, source, decision, w, notes, ReportWellbeing(s, source, decision, w, notes).1)
  {
  }

  /** A recorded one is stored as a new pending observation with exactly the reported values, and changes
  nothing else but the identifiers seen. */
  lemma WellbeingStored(s: Store, source: Id, decision: Id, w: Wellbeing, notes: string)
    requires ReportWellbeing(s, source, decision, w, notes).1 == Done
    ensures var t := ReportWellbeing(s, source, decision, w, notes).0;
      && s.next + 1 in t.results
      && t.results[s.next + 1].source == source && t.results[s.next + 1].kind == OwnerReported
      && t.results[s.next + 1].decision == Some(decision) && t.results[s.next + 1].wellbeing == Some(w)
      && t.results[s.next + 1].status == Pending && t.results[s.next + 1].event == s.next
      && t.next == s.next + 2 && t.seen.Keys == s.seen.Keys + {(source, LegacyKey(decision))}
      && t.choices == s.choices && t.decisions == s.decisions && t.resolutions == s.resolutions
      && t.evidence == s.evidence && t.outcomes == s.outcomes
  {
  }

  lemma ResolvedStays(k: Kernel, s: Store, decision: Id, requests: seq<Request>)
    requires Inv(k, s) && decision in s.decisions && s.decisions[decision].resolved
    ensures var t := Run(k, s, requests); decision in t.decisions && t.decisions[decision].resolved
  {
    RunKeeps(k, s, requests);
  }

  /** At any later time the same report is a duplicate, one with other values or notes a conflict, and
  neither changes anything. */
  lemma WellbeingCountsOnce(k: Kernel, s: Store, source: Id, decision: Id, w: Wellbeing, notes: string,
                            requests: seq<Request>, w': Wellbeing, notes': string)
    requires Inv(k, s) && ReportWellbeing(s, source, decision, w, notes).1 == Done
    ensures var t := Run(k, ReportWellbeing(s, source, decision, w, notes).0, requests);
      ReportWellbeing(t, source, decision, w', notes')
        == (t, if w' == w && notes' == notes then Duplicate else Refused(ExternalEventConflict))
  {
    var s1 := ReportWellbeing(s, source, decision, w, notes).0;
    ReportWellbeingKeeps(k, s, source, decision, w, notes);
    assert s1.seen[(source, LegacyKey(decision))] == OfWellbeing(decision, w, notes);
    ResolvedStays(k, s1, decision, requests);
    RunKeepsSeen(k, s1, requests);
  }
}
