/** Deferred learning from one conversation message (conversation.py), run by the durable job worker:
each attempt may extract something else, fail, or die between two Evidence writes. */
module Learning {
  import opened Prelude
  import opened Jobs

  /** One item the extraction proposed and the review accepted. */
  type Item = string

  /** What happens after the provider answered: the accepted items are added one by one, then labels
  and the model are brought up to date; an exception or the end of the process may come anywhere. */
  datatype Course =
    | ProviderFails
    | DiesAsking
    | Completes(accepted: seq<Item>)
    | Throws(accepted: seq<Item>, written: nat)
    | DiesWriting(accepted: seq<Item>, written: nat)

  datatype State = State(job: Job, evidence: seq<Item>, calls: nat, requeues: nat)

  datatype Event = Attempt(now: int, failedAt: int, course: Course) | Requeue(now: int)

  const LEASE: nat := 300
  const RETRY_DELAY: nat := 30
  const MAX_RETRY_DELAY: nat := 900
  const JOB_TYPE: string := "conversation_evidence_extract"
  const MAX_ATTEMPTS: nat := 8

  const POLICY: Policy := Policy({JOB_TYPE}, map[JOB_TYPE := RETRY_DELAY], MAX_RETRY_DELAY, LEASE)

  function Enqueued(createdAt: int): State {
    State(Job(0, JOB_TYPE, Queued, 0, MAX_ATTEMPTS, createdAt + 1, createdAt, None), [], 0, 0)
  }

  function Accepted(c: Course): seq<Item> {
    if c.ProviderFails? || c.DiesAsking? then [] else c.accepted
  }

  /** The items on disk when the attempt is over. */
  function Stored(c: Course): seq<Item> {
    match c
    case ProviderFails => []
    case DiesAsking => []
    case Completes(accepted) => accepted
    case Throws(accepted, written) => accepted[..Min(written, |accepted|)]
    case DiesWriting(accepted, written) => accepted[..Min(written, |accepted|)]
  }

  function HandlingOf(c: Course): Handling {
    match c
    case ProviderFails => Raises
    case DiesAsking => Dies
    case Completes(_) => Returns
    case Throws(_, _) => Raises
    case DiesWriting(_, _) => Dies
  }

  /** retry_learning: nothing to do when this event already has Evidence, else one extraction. */
  function Learn(evidence: seq<Item>, c: Course): (seq<Item>, nat, Handling) {
    if evidence != [] then (evidence, 0, Returns) else (Stored(c), 1, HandlingOf(c))
  }

  function Step(s: State, e: Event): State {
    match e
    case Requeue(now) =>
      if s.job.status == Failed then s.(job := RequeueFailed(s.job, now), requeues := s.requeues + 1) else s
    case Attempt(now, failedAt, course) =>
      var job := Expire(s.job, now - LEASE);
      if !Claimable(job, now, now - LEASE, POLICY.types) then s.(job := job)
      else
        var (evidence, asked, handling) := Learn(s.evidence, course);
        s.(job := Finish(Claimed(job, now), handling, failedAt, POLICY), evidence := evidence, calls := s.calls + asked)
  }

  function Run(s: State, events: seq<Event>): State
    decreases |events|
  {
    if events == [] then s else Run(Step(s, events[0]), events[1..])
  }

  /** retry_learning and _accept as methods over the stored Evidence of this event. */
  class ConversationLearning {
    var evidence: seq<Item>
    var calls: nat

    constructor ()
      ensures evidence == [] && calls == 0
    {
      evidence, calls := [], 0;
    }

    /** Add accepted items one by one, at most `written` of them. */
    method Accept(accepted: seq<Item>, written: nat)
      modifies this`evidence
      ensures evidence == old(evidence) + accepted[..Min(written, |accepted|)]
    {
      var i := 0;
      while i < |accepted| && i < written
        invariant i <= Min(written, |accepted|)
        invariant evidence == old(evidence) + accepted[..i]
      {
        evidence := evidence + [accepted[i]];
        i := i + 1;
      }
    }

    method RetryLearning(c: Course) returns (handling: Handling)
      modifies this
      ensures (evidence, calls - old(calls), handling) == Learn(old(evidence), c)
    {
      if evidence != [] { return Returns; }
      calls := calls + 1;
      if c.ProviderFails? { return Raises; }
      if c.DiesAsking? { return Dies; }
      var written := if c.Completes? then |c.accepted| else c.written;
      Accept(c.accepted, written);
      assert c.accepted[..|c.accepted|] == c.accepted;
      assert evidence == c.accepted[..Min(written, |c.accepted|)];
      return HandlingOf(c);
    }
  }
}

module LearningProofs {
  import opened Prelude
  import opened Jobs
  import opened BackoffProofs
  import opened WorkerProofs
  import opened Learning

  /** The extraction an event stored its items from, if it stored any. */
  ghost predicate Extracted(s: State, t: State, events: seq<Event>) {
    t.evidence == s.evidence || exists i :: 0 <= i < |events| && FirstPart(t.evidence, events[i])
  }

  predicate FirstPart(evidence: seq<Item>, e: Event) {
    e.Attempt? && evidence <= Accepted(e.course)
  }

  /** How an attempt ends for the worker: it is done when there was Evidence already or the whole extraction
  was stored, failed on an exception, and interrupted when the process died. */
  predicate EndsAs(evidence: seq<Item>, course: Course, handling: Handling) {
    match handling
    case Returns => evidence != [] || course.Completes?
    case Raises => evidence == [] && (course.ProviderFails? || course.Throws?)
    case Dies => evidence == [] && (course.DiesAsking? || course.DiesWriting?)
  }

  /** A claimed attempt settles its job as it ended, asks the provider exactly if nothing was learned yet,
  and never takes an item back. */
  lemma AttemptExactly(s: State, now: int, failedAt: int, course: Course, handling: Handling)
    requires Claimable(s.job, now, now - LEASE, POLICY.types) && EndsAs(s.evidence, course, handling)
    ensures var t := Step(s, Attempt(now, failedAt, course));
      && Settled(s.job, t.job, now, failedAt, handling, POLICY)
      && t.calls == s.calls + (if s.evidence == [] then 1 else 0) && t.requeues == s.requeues
      && s.evidence <= t.evidence
  {
  }

  /** Nothing else learns, and only an owner's requeue of a failed job is counted as one. */
  lemma OthersLearnNothing(s: State, e: Event)
    requires e.Attempt? ==> !Claimable(s.job, e.now, e.now - LEASE, POLICY.types)
    ensures var t := Step(s, e);
      && t.evidence == s.evidence && t.calls == s.calls
      && t.requeues == s.requeues + (if e.Requeue? && s.job.status == Failed then 1 else 0)
      && (e.Requeue? && s.job.status == Failed ==> t.job.status == Queued && t.job.attempts == 0)
  {
  }

  /** The constants of the extraction job: eight attempts, a first delay of 30 seconds doubled up to 15
  minutes, and a lease of five. */
  lemma ExtractionPolicy(createdAt: int)
    ensures var j := Enqueued(createdAt).job;
      && j.status == Queued && j.attempts == 0 && j.maxAttempts == 8 && j.availableAt == createdAt + 1
      && POLICY.lease == 300 && POLICY.cap == 900 && Lookup(POLICY.retryDelays, j.jobType) == Some(30)
      && Claimable(j, createdAt + 1, createdAt + 1 - LEASE, POLICY.types)
  {
  }

  /** Learning happens once: after any run of claims, provider failures, exceptions, crashes between
  writes, re-claims and owner requeues, the Evidence of the message is a prefix of the accepted list
  of one single extraction. */
  lemma {:induction false} LearnsFromOneExtraction(s: State, events: seq<Event>)
    requires s.evidence == []
    ensures Extracted(s, Run(s, events), events)
    decreases |events|
  {
    if events != [] {
      var t := Step(s, events[0]);
      if t.evidence == [] {
        LearnsFromOneExtraction(t, events[1..]);
        if Run(t, events[1..]).evidence != [] {
          var i :| 0 <= i < |events[1..]| && FirstPart(Run(t, events[1..]).evidence, events[1..][i]);
          assert FirstPart(Run(s, events).evidence, events[i + 1]);
        }
      } else {
        LearnedStays(t, events[1..]);
        assert FirstPart(Run(s, events).evidence, events[0]);
      }
    }
  }

  /** Once one item is stored, no later attempt asks the provider or adds anything. */
  lemma {:induction false} LearnedStays(s: State, events: seq<Event>)
    requires s.evidence != []
    ensures Run(s, events).evidence == s.evidence && Run(s, events).calls == s.calls
    decreases |events|
  {
    if events != [] { LearnedStays(Step(s, events[0]), events[1..]); }
  }

  predicate Distinct(items: seq<Item>) {
    forall i, j :: 0 <= i < j < |items| ==> items[i] != items[j]
  }

  lemma PrefixDistinct(p: seq<Item>, q: seq<Item>)
    requires p <= q && Distinct(q)
    ensures Distinct(p)
  {
  }

  /** So if no extraction repeats an item, neither does the Evidence. */
  lemma NoDuplicateEvidence(s: State, events: seq<Event>)
    requires s.evidence == []
    requires forall i :: 0 <= i < |events| && events[i].Attempt? ==> Distinct(Accepted(events[i].course))
    ensures Distinct(Run(s, events).evidence)
  {
    LearnsFromOneExtraction(s, events);
    var items := Run(s, events).evidence;
    if items != [] {
      var i :| 0 <= i < |events| && FirstPart(items, events[i]);
      PrefixDistinct(items, Accepted(events[i].course));
    }
  }

  /** The attempt stored some accepted items and not all of them. */
  predicate CutInside(course: Course) {
    (course.Throws? || course.DiesWriting?) && 0 < course.written < |course.accepted|
  }

  predicate ProperPart(evidence: seq<Item>, items: seq<Item>) {
    evidence != [] && evidence < items
  }

  /** A time at which the row left by an attempt can be claimed again, or is given up. */
  function Later(j: Job, now: int): int {
    if j.availableAt < now + LEASE + 1 then now + LEASE + 1 else j.availableAt
  }

  /** Claim again, let the owner requeue a failed job, and claim once more. */
  function AnotherTry(items: seq<Item>, late: int): seq<Event> {
    [Attempt(late, late, Completes(items)), Requeue(late), Attempt(late, late, Completes(items))]
  }

  lemma ThreeSteps(s: State, events: seq<Event>)
    requires |events| == 3
    ensures Run(s, events) == Step(Step(Step(s, events[0]), events[1]), events[2])
  {
    assert events[1..][1..] == [events[2]] && events[1..][1..][1..] == [];
    assert Run(s, events) == Run(Step(s, events[0]), events[1..]);
    assert Run(Step(s, events[0]), events[1..]) == Run(Step(Step(s, events[0]), events[1]), events[1..][1..]);
  }

  /** An attempt that stored nothing leaves the whole list to a later one. */
  lemma NothingStoredIsLearnedLater(s: State, now: int, failedAt: int, course: Course)
    requires s.evidence == [] && Claimable(s.job, now, now - LEASE, POLICY.types)
    requires Accepted(course) != [] && Stored(course) == []
    ensures var t := Step(s, Attempt(now, failedAt, course));
      Run(t, AnotherTry(Accepted(course), Later(t.job, now))).evidence == Accepted(course)
  {
    var t := Step(s, Attempt(now, failedAt, course));
    ThreeSteps(t, AnotherTry(Accepted(course), Later(t.job, now)));
  }

  /** A message keeps a part of an extraction, in every run that follows, if and only if an exception
  or the end of the process came after its first item was stored and before its last one was; in
  all other cases some run goes on to learn the whole list. */
  lemma CutShortIsFinalExactly(s: State, now: int, failedAt: int, course: Course)
    requires s.evidence == [] && Claimable(s.job, now, now - LEASE, POLICY.types)
    requires Accepted(course) != []
    ensures var t := Step(s, Attempt(now, failedAt, course));
      && ((forall events :: ProperPart(Run(t, events).evidence, Accepted(course))) <==> CutInside(course))
      && ((exists events :: Run(t, events).evidence == Accepted(course)) <==> !CutInside(course))
  {
    var t := Step(s, Attempt(now, failedAt, course));
    assert Run(t, []) == t && t.evidence == Stored(course);
    StoredExactly(course);
    if CutInside(course) {
      forall events ensures ProperPart(Run(t, events).evidence, Accepted(course)) {
        LearnedStays(t, events);
      }
    } else {
      assert !ProperPart(Run(t, []).evidence, Accepted(course));
      if Stored(course) == [] {
        NothingStoredIsLearnedLater(s, now, failedAt, course);
      } else {
        assert Run(t, []).evidence == Accepted(course);
      }
    }
  }

  lemma StoredExactly(course: Course)
    requires Accepted(course) != []
    ensures CutInside(course) <==> ProperPart(Stored(course), Accepted(course))
    ensures !CutInside(course) ==> Stored(course) == [] || Stored(course) == Accepted(course)
  {
    if !course.Completes? && course.written >= |course.accepted| {
      assert Stored(course) == course.accepted;
    }
  }

  ghost predicate CallsOk(s: State) {
    && s.job.maxAttempts == MAX_ATTEMPTS
    && s.job.attempts <= MAX_ATTEMPTS
    && s.calls <= MAX_ATTEMPTS * s.requeues + s.job.attempts
  }

  lemma StepKeepsCalls(s: State, e: Event)
    requires CallsOk(s)
    ensures CallsOk(Step(s, e))
  {
  }

  lemma {:induction false} RunKeepsCalls(s: State, events: seq<Event>)
    requires CallsOk(s)
    ensures CallsOk(Run(s, events))
    decreases |events|
  {
    if events != [] {
      StepKeepsCalls(s, events[0]);
      RunKeepsCalls(Step(s, events[0]), events[1..]);
    }
  }

  /** From the moment a message is queued the provider is asked at most eight times, and at most eight
  times more after each time the owner requeues the failed job. */
  lemma ProviderCallsBounded(createdAt: int, events: seq<Event>)
    ensures var t := Run(Enqueued(createdAt), events); t.calls <= MAX_ATTEMPTS * (t.requeues + 1)
  {
    RunKeepsCalls(Enqueued(createdAt), events);
  }

  /** The losing case happens: the first attempt dies after one of two items. */
  lemma HalfLearned(createdAt: int, a: Item, b: Item, events: seq<Event>)
    ensures var now := createdAt + 1; var died := Attempt(now, now, DiesWriting([a, b], 1));
      Run(Enqueued(createdAt), [died] + events).evidence == [a]
  {
    var now := createdAt + 1;
    var died := Attempt(now, now, DiesWriting([a, b], 1));
    var t := Step(Enqueued(createdAt), died);
    assert ([died] + events)[1..] == events;
    assert [a, b][..1] == [a];
    LearnedStays(t, events);
  }

  // ---------- How long a message rides out a failing provider ----------

  const FORTY_FIVE_MINUTES: int := 45 * 60

  /** What the early deaths add to the waits, and the late ones take away: a lease is longer than the
  first four delays and shorter than the last three. */
  function Gained(dies: seq<bool>): nat
    requires |dies| == MAX_ATTEMPTS
  {
    Either(dies[0], 271, 0) + Either(dies[1], 241, 0) + Either(dies[2], 181, 0) + Either(dies[3], 61, 0)
  }

  function Lost(dies: seq<bool>): nat
    requires |dies| == MAX_ATTEMPTS
  {
    Either(dies[4], 179, 0) + Either(dies[5], 599, 0) + Either(dies[6], 599, 0)
  }

  /** Whatever the bound, and whichever of the eight attempts die: a queued message is sure to ride it
  out if and only if 2730 seconds, with what the deaths add and take away, reach it. */
  lemma LearningRidesOutExactly(createdAt: int, dies: seq<bool>, bound: int)
    requires |dies| == MAX_ATTEMPTS
    ensures AlwaysSpans(Enqueued(createdAt).job, dies, POLICY, bound)
      <==> 2730 + Gained(dies) - Lost(dies) >= bound
  {
    SpansExactly(Enqueued(createdAt).job, createdAt + 1, dies, POLICY, bound);
    WaitsOfEight(POLICY, dies);
  }

  /** So the promised 45 minutes hold exactly when the late deaths take away at most 30 seconds more than
  the early ones add: always when no attempt dies. */
  lemma FortyFiveMinutesExactly(createdAt: int, dies: seq<bool>)
    requires |dies| == MAX_ATTEMPTS
    ensures AlwaysSpans(Enqueued(createdAt).job, dies, POLICY, FORTY_FIVE_MINUTES) <==> Lost(dies) <= Gained(dies) + 30
    ensures true !in dies ==> AlwaysSpans(Enqueued(createdAt).job, dies, POLICY, FORTY_FIVE_MINUTES)
  {
    LearningRidesOutExactly(createdAt, dies, FORTY_FIVE_MINUTES);
  }

  const LATE_DEATHS: seq<bool> := [false, false, false, false, true, true, true, false]

  /** No more than 1353 seconds are sure: if attempts five, six and seven die, eight attempts can be over in
  exactly 1353 seconds. */
  lemma ShortestRide(createdAt: int) returns (failures: seq<Failure>)
    ensures FailingRun(Enqueued(createdAt).job, failures, POLICY) && Deaths(failures) == LATE_DEATHS
    ensures Span(failures) == 1353
  {
    failures := FastestRun(Enqueued(createdAt).job, createdAt + 1, LATE_DEATHS, POLICY);
    WaitsOfEight(POLICY, LATE_DEATHS);
  }
}
