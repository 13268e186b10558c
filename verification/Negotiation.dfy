/** Structured-output negotiation (adapters.py): which mode is tried, in which order, and what the
provider remembers. */
module Negotiation {
  import opened Prelude

  datatype Mode = JsonSchema | JsonObject | OllamaSchema | PromptedJson

  /** What one request comes to. `Invalid` is any other provider error, such as malformed JSON. */
  datatype Attempt = Answer(value: string) | HttpStatus(code: nat) | Unreachable | Invalid

  /** The endpoint's answer to the n-th request, made in a mode. */
  type Endpoint = (nat, Mode) -> Attempt

  /** `Exhausted` is the error raised after every mode failed, with the last failure as its cause. */
  datatype Outcome = Success(value: string) | Raised(failure: Attempt) | Exhausted(last: Attempt)

  datatype Call = Call(outcome: Outcome, active: Option<Mode>, requests: nat)

  const NEGOTIATION_STATUSES: set<nat> := {400, 404, 415, 422, 500, 501, 502}

  const TRANSIENT_STATUSES: set<nat> := {408, 429, 503, 504}

  /** Failures after which a weaker mode is tried. */
  predicate Negotiable(a: Attempt) {
    a.Invalid? || (a.HttpStatus? && a.code in NEGOTIATION_STATUSES)
  }

  predicate Transient(a: Attempt) {
    a.Unreachable? || (a.HttpStatus? && a.code in TRANSIENT_STATUSES)
  }

  // ---------- OpenAI-compatible endpoints ----------

  const STRATEGIES: seq<Mode> := [JsonSchema, JsonObject, PromptedJson]

  /** Stable insertion by the sort key "is not the remembered mode": false sorts before true. */
  function InsertByKey(x: Mode, s: seq<Mode>, active: Mode): (r: seq<Mode>)
    ensures |r| == |s| + 1
  {
    if s == [] || x == active || s[0] != active then [x] + s else [s[0]] + InsertByKey(x, s[1..], active)
  }

  function SortByKey(s: seq<Mode>, active: Mode): (r: seq<Mode>)
    ensures |r| == |s|
  {
    if s == [] then [] else InsertByKey(s[0], SortByKey(s[1..], active), active)
  }

  function Order(active: Option<Mode>): seq<Mode> {
    if active.None? then STRATEGIES else SortByKey(STRATEGIES, active.value)
  }

  /** Try the modes in order; `made` requests were sent before. */
  function TryModes(endpoint: Endpoint, modes: seq<Mode>, active: Option<Mode>, made: nat, last: Attempt): Call
    decreases |modes|
  {
    if modes == [] then Call(Exhausted(last), active, made)
    else
      match endpoint(made, modes[0])
      case Answer(value) => Call(Success(value), Some(modes[0]), made + 1)
      case failure =>
        if Negotiable(failure) then TryModes(endpoint, modes[1..], active, made + 1, failure)
        else Call(Raised(failure), active, made + 1)
  }

  function Generate(endpoint: Endpoint, active: Option<Mode>): Call {
    TryModes(endpoint, Order(active), active, 0, Invalid)
  }

  // ---------- Ollama ----------

  function Prompt(endpoint: Endpoint, active: Option<Mode>, made: nat): Call {
    match endpoint(made, PromptedJson)
    case Answer(value) => Call(Success(value), Some(PromptedJson), made + 1)
    case failure => Call(Raised(failure), active, made + 1)
  }

  /** Malformed output of the schema attempt is an error; only its HTTP status can be negotiated. */
  function OllamaGenerate(endpoint: Endpoint, active: Option<Mode>): Call {
    if active == Some(PromptedJson) then Prompt(endpoint, active, 0)
    else
      match endpoint(0, OllamaSchema)
      case Answer(value) => Call(Success(value), Some(OllamaSchema), 1)
      case failure =>
        if failure.HttpStatus? && Negotiable(failure) then Prompt(endpoint, active, 1)
        else Call(Raised(failure), active, 1)
  }

  function OllamaRun(active: Option<Mode>, calls: seq<Endpoint>): Option<Mode>
    decreases |calls|
  {
    if calls == [] then active else OllamaRun(OllamaGenerate(calls[0], active).active, calls[1..])
  }

  function OpenAIRun(active: Option<Mode>, calls: seq<Endpoint>): Option<Mode>
    decreases |calls|
  {
    if calls == [] then active else OpenAIRun(Generate(calls[0], active).active, calls[1..])
  }
}

module NegotiationProofs {
  import opened Prelude
  import opened Negotiation

  // ---------- The order ----------

  function Keep(s: seq<Mode>, m: Mode, same: bool): seq<Mode> {
    if s == [] then [] else (if (s[0] == m) == same then [s[0]] else []) + Keep(s[1..], m, same)
  }

  lemma {:induction false} InsertIntoPartition(x: Mode, s: seq<Mode>, m: Mode)
    ensures InsertByKey(x, Keep(s, m, true) + Keep(s, m, false), m) == Keep([x] + s, m, true) + Keep([x] + s, m, false)
  {
    assert ([x] + s)[1..] == s;
    KeptOnes(s, m, true);
    KeptOnes(s, m, false);
    InsertAfterSame(x, Keep(s, m, true), Keep(s, m, false), m);
  }

  lemma {:induction false} KeptOnes(s: seq<Mode>, m: Mode, same: bool)
    ensures forall i :: 0 <= i < |Keep(s, m, same)| ==> (Keep(s, m, same)[i] == m) == same
    decreases |s|
  {
    if s != [] { KeptOnes(s[1..], m, same); }
  }

  lemma {:induction false} InsertAfterSame(x: Mode, front: seq<Mode>, back: seq<Mode>, m: Mode)
    requires forall i :: 0 <= i < |front| ==> front[i] == m
    requires forall i :: 0 <= i < |back| ==> back[i] != m
    ensures InsertByKey(x, front + back, m) == if x == m then [x] + front + back else front + [x] + back
    decreases |front|
  {
    if x != m && front != [] {
      assert (front + back)[1..] == front[1..] + back;
      InsertAfterSame(x, front[1..], back, m);
      assert front == [front[0]] + front[1..];
    } else if front == [] {
      assert front + back == back;
      assert x != m && back != [] ==> back[0] != m;
    } else {
      assert (front + back)[0] == m;
    }
  }

  lemma {:induction false} SortPartitions(s: seq<Mode>, m: Mode)
    ensures SortByKey(s, m) == Keep(s, m, true) + Keep(s, m, false)
    decreases |s|
  {
    if s != [] {
      SortPartitions(s[1..], m);
      InsertIntoPartition(s[0], s[1..], m);
      assert s == [s[0]] + s[1..];
    }
  }

  lemma {:induction false} InsertAddsOne(x: Mode, s: seq<Mode>, m: Mode)
    ensures multiset(InsertByKey(x, s, m)) == multiset{x} + multiset(s)
    decreases |s|
  {
    if !(s == [] || x == m || s[0] != m) {
      InsertAddsOne(x, s[1..], m);
      assert s == [s[0]] + s[1..];
    }
  }

  lemma {:induction false} SortPermutes(s: seq<Mode>, m: Mode)
    ensures multiset(SortByKey(s, m)) == multiset(s)
    decreases |s|
  {
    if s != [] {
      SortPermutes(s[1..], m);
      InsertAddsOne(s[0], SortByKey(s[1..], m), m);
      assert s == [s[0]] + s[1..];
    }
  }

  /** The sort puts the remembered mode first and keeps the order of all others. */
  lemma SortIsStablePartition(s: seq<Mode>, m: Mode)
    ensures SortByKey(s, m) == Keep(s, m, true) + Keep(s, m, false)
    ensures multiset(SortByKey(s, m)) == multiset(s)
  {
    SortPartitions(s, m);
    SortPermutes(s, m);
  }

  lemma {:induction false} KeptFirst(s: seq<Mode>, m: Mode)
    requires m in s
    ensures Keep(s, m, true) != [] && Keep(s, m, true)[0] == m
    decreases |s|
  {
    if s[0] != m { KeptFirst(s[1..], m); }
  }

  /** The order is the three strategies, stably rearranged with the remembered mode first. */
  lemma OrderIsStrategies(active: Option<Mode>)
    ensures |Order(active)| == 3 && multiset(Order(active)) == multiset(STRATEGIES)
    ensures active.Some? ==>
      Order(active) == Keep(STRATEGIES, active.value, true) + Keep(STRATEGIES, active.value, false)
    ensures active.Some? && active.value in STRATEGIES ==> Order(active)[0] == active.value
  {
    if active.Some? {
      SortIsStablePartition(STRATEGIES, active.value);
      if active.value in STRATEGIES { KeptFirst(STRATEGIES, active.value); }
    }
  }

  // ---------- The result ----------

  /** The first attempt that is not a negotiable failure. */
  function Decisive(endpoint: Endpoint, modes: seq<Mode>, made: nat): (i: nat)
    ensures i <= |modes|
    ensures forall j :: 0 <= j < i ==> Negotiable(endpoint(made + j, modes[j]))
    ensures i < |modes| ==> !Negotiable(endpoint(made + i, modes[i]))
    decreases |modes|
  {
    if modes == [] || !Negotiable(endpoint(made, modes[0])) then 0 else 1 + Decisive(endpoint, modes[1..], made + 1)
  }

  /** What a call comes to when attempt i is the decisive one, or all modes failed negotiably. */
  function Conclude(endpoint: Endpoint, modes: seq<Mode>, active: Option<Mode>, made: nat, last: Attempt, i: nat): Call
    requires i <= |modes|
  {
    if i == |modes| then
      Call(Exhausted(if i == 0 then last else endpoint(made + i - 1, modes[i - 1])), active, made + i)
    else
      match endpoint(made + i, modes[i])
      case Answer(value) => Call(Success(value), Some(modes[i]), made + i + 1)
      case failure => Call(Raised(failure), active, made + i + 1)
  }

  lemma ConcludeShifts(endpoint: Endpoint, modes: seq<Mode>, active: Option<Mode>, made: nat, last: Attempt, i: nat)
    requires i < |modes|
    ensures Conclude(endpoint, modes, active, made, last, i + 1)
         == Conclude(endpoint, modes[1..], active, made + 1, endpoint(made, modes[0]), i)
  {
  }

  lemma ConcludeAtOnce(endpoint: Endpoint, modes: seq<Mode>, active: Option<Mode>, made: nat, last: Attempt)
    requires modes == [] || !Negotiable(endpoint(made, modes[0]))
    ensures TryModes(endpoint, modes, active, made, last) == Conclude(endpoint, modes, active, made, last, 0)
  {
  }

  lemma TryModesGoesOn(endpoint: Endpoint, modes: seq<Mode>, active: Option<Mode>, made: nat, last: Attempt)
    requires modes != [] && Negotiable(endpoint(made, modes[0]))
    ensures TryModes(endpoint, modes, active, made, last)
         == TryModes(endpoint, modes[1..], active, made + 1, endpoint(made, modes[0]))
  {
  }

  /** Trying the modes is concluding at the decisive attempt. */
  lemma {:induction false} TryModesMeans(endpoint: Endpoint, modes: seq<Mode>, active: Option<Mode>, made: nat,
                                         last: Attempt)
    ensures TryModes(endpoint, modes, active, made, last)
         == Conclude(endpoint, modes, active, made, last, Decisive(endpoint, modes, made))
    decreases |modes|
  {
    if modes == [] || !Negotiable(endpoint(made, modes[0])) {
      ConcludeAtOnce(endpoint, modes, active, made, last);
    } else {
      TryModesGoesOn(endpoint, modes, active, made, last);
      TryModesMeans(endpoint, modes[1..], active, made + 1, endpoint(made, modes[0]));
      ConcludeShifts(endpoint, modes, active, made, last, Decisive(endpoint, modes[1..], made + 1));
    }
  }

  /** All modes before position i fail in a way that is negotiated. */
  ghost predicate FailBefore(endpoint: Endpoint, modes: seq<Mode>, made: nat, i: nat)
    requires i <= |modes|
  {
    forall j :: 0 <= j < i ==> Negotiable(endpoint(made + j, modes[j]))
  }

  lemma {:induction false} DecisiveIs(endpoint: Endpoint, modes: seq<Mode>, made: nat, i: nat)
    requires i <= |modes| && FailBefore(endpoint, modes, made, i)
    requires i < |modes| ==> !Negotiable(endpoint(made + i, modes[i]))
    ensures Decisive(endpoint, modes, made) == i
    decreases i
  {
    if i > 0 {
      assert Negotiable(endpoint(made + 0, modes[0]));
      assert FailBefore(endpoint, modes[1..], made + 1, i - 1) by {
        forall j | 0 <= j < i - 1 ensures Negotiable(endpoint(made + 1 + j, modes[1..][j])) {
          assert Negotiable(endpoint(made + (j + 1), modes[j + 1]));
        }
      }
      DecisiveIs(endpoint, modes[1..], made + 1, i - 1);
    }
  }

  lemma TryAnswerWins(endpoint: Endpoint, modes: seq<Mode>, active: Option<Mode>, i: nat)
    requires i < |modes|
    ensures var r := TryModes(endpoint, modes, active, 0, Invalid); var a := endpoint(i, modes[i]);
      && (r.outcome.Success? && r.requests == i + 1 <==> a.Answer? && FailBefore(endpoint, modes, 0, i))
      && (a.Answer? && FailBefore(endpoint, modes, 0, i) ==> r == Call(Success(a.value), Some(modes[i]), i + 1))
  {
    TryModesMeans(endpoint, modes, active, 0, Invalid);
    if endpoint(i, modes[i]).Answer? && FailBefore(endpoint, modes, 0, i) { DecisiveIs(endpoint, modes, 0, i); }
  }

  lemma TryFailureKeepsMode(endpoint: Endpoint, modes: seq<Mode>, active: Option<Mode>, i: nat)
    requires i < |modes|
    ensures var r := TryModes(endpoint, modes, active, 0, Invalid); var a := endpoint(i, modes[i]);
      && (!r.outcome.Success? ==> r.active == active)
      && (r.outcome.Exhausted? <==> FailBefore(endpoint, modes, 0, |modes|))
      && (!a.Answer? && !Negotiable(a) && FailBefore(endpoint, modes, 0, i) ==> r == Call(Raised(a), active, i + 1))
  {
    TryModesMeans(endpoint, modes, active, 0, Invalid);
    if FailBefore(endpoint, modes, 0, |modes|) { DecisiveIs(endpoint, modes, 0, |modes|); }
    if !Negotiable(endpoint(i, modes[i])) && FailBefore(endpoint, modes, 0, i) { DecisiveIs(endpoint, modes, 0, i); }
  }

  /** The call succeeds at a mode exactly when that mode answers and every mode tried before it failed
  negotiably; then its answer is returned, it is remembered, and nothing after it is sent. */
  lemma FirstAnswerWins(endpoint: Endpoint, active: Option<Mode>, i: nat)
    requires i < |Order(active)|
    ensures var order := Order(active); var r := Generate(endpoint, active); var a := endpoint(i, order[i]);
      && (r.outcome.Success? && r.requests == i + 1 <==> a.Answer? && FailBefore(endpoint, order, 0, i))
      && (a.Answer? && FailBefore(endpoint, order, 0, i) ==> r == Call(Success(a.value), Some(order[i]), i + 1))
  {
    TryAnswerWins(endpoint, Order(active), active, i);
  }

  /** A call that fails leaves the remembered mode; it fails with all modes tried exactly when all
  failed negotiably, and any other failure ends it at once with that failure. */
  lemma FailureKeepsMode(endpoint: Endpoint, active: Option<Mode>, i: nat)
    requires i < |Order(active)|
    ensures var order := Order(active); var r := Generate(endpoint, active); var a := endpoint(i, order[i]);
      && (!r.outcome.Success? ==> r.active == active)
      && (r.outcome.Exhausted? <==> FailBefore(endpoint, order, 0, |order|))
      && (!a.Answer? && !Negotiable(a) && FailBefore(endpoint, order, 0, i) ==> r == Call(Raised(a), active, i + 1))
  {
    TryFailureKeepsMode(endpoint, Order(active), active, i);
  }

  /** A transient failure, in particular, ends the call at once: no weaker mode is tried. */
  lemma TransientStopsAtOnce(endpoint: Endpoint, active: Option<Mode>, i: nat)
    requires i < |Order(active)|
    requires Transient(endpoint(i, Order(active)[i])) && FailBefore(endpoint, Order(active), 0, i)
    ensures Generate(endpoint, active) == Call(Raised(endpoint(i, Order(active)[i])), active, i + 1)
  {
    FailureKeepsMode(endpoint, active, i);
  }

  /** The statuses after which a weaker mode is tried: the request was not understood, or the server
  broke over it. */
  predicate TriesWeaker(code: nat) {
    code == 400 || code == 404 || code == 415 || code == 422 || code == 500 || code == 501 || code == 502
  }

  /** A status for the first mode decides: after one of these the second mode is asked and its answer
  returned and remembered; after any other one, such as 401 or 503, the call ends with it. */
  lemma StatusDecides(endpoint: Endpoint, code: nat, value: string)
    requires endpoint(0, JsonSchema) == HttpStatus(code) && endpoint(1, JsonObject) == Answer(value)
    ensures Generate(endpoint, None) ==
      if TriesWeaker(code) then Call(Success(value), Some(JsonObject), 2) else Call(Raised(HttpStatus(code)), None, 1)
  {
    assert STRATEGIES[0] == JsonSchema && STRATEGIES[1..][0] == JsonObject;
  }

  /** The same for Ollama: after one of these the prompted mode is asked. */
  lemma OllamaStatusDecides(endpoint: Endpoint, code: nat, value: string)
    requires endpoint(0, OllamaSchema) == HttpStatus(code) && endpoint(1, PromptedJson) == Answer(value)
    ensures OllamaGenerate(endpoint, None) ==
      if TriesWeaker(code) then Call(Success(value), Some(PromptedJson), 2)
      else Call(Raised(HttpStatus(code)), None, 1)
  {
  }

  /** Overload and time-outs are transient: they end the call in whatever mode it is, and the remembered
  mode stays. */
  lemma TransientExactly(a: Attempt)
    ensures Transient(a) <==>
      a.Unreachable? || (a.HttpStatus? && (a.code == 408 || a.code == 429 || a.code == 503 || a.code == 504))
    ensures Transient(a) ==> !Negotiable(a) && !a.Answer?
  {
  }

  /** What an Ollama call comes to. A remembered prompted mode is asked alone; otherwise the schema mode is
  asked first, and the prompted mode after it only for a status that tries a weaker mode. */
  lemma OllamaCallExactly(endpoint: Endpoint, active: Option<Mode>)
    ensures active == Some(PromptedJson) ==>
      OllamaGenerate(endpoint, active) == Asked(endpoint, active, PromptedJson, 0)
    ensures active != Some(PromptedJson) ==>
      OllamaGenerate(endpoint, active) ==
        if endpoint(0, OllamaSchema).HttpStatus? && TriesWeaker(endpoint(0, OllamaSchema).code)
        then Asked(endpoint, active, PromptedJson, 1) else Asked(endpoint, active, OllamaSchema, 0)
  {
  }

  /** The last request of a call, number `n`: its answer is returned and its mode remembered, or its
  failure is raised. */
  function Asked(endpoint: Endpoint, active: Option<Mode>, mode: Mode, n: nat): Call {
    if endpoint(n, mode).Answer? then Call(Success(endpoint(n, mode).value), Some(mode), n + 1)
    else Call(Raised(endpoint(n, mode)), active, n + 1)
  }

  /** An endpoint that cannot be reached ends the call; one that answers in the first mode is asked once. */
  lemma FirstReplyDecides(endpoint: Endpoint)
    ensures endpoint(0, JsonSchema).Unreachable? ==> Generate(endpoint, None) == Call(Raised(Unreachable), None, 1)
    ensures endpoint(0, JsonSchema).Answer? ==>
      Generate(endpoint, None) == Call(Success(endpoint(0, JsonSchema).value), Some(JsonSchema), 1)
    ensures endpoint(0, OllamaSchema).Unreachable? ==>
      OllamaGenerate(endpoint, None) == Call(Raised(Unreachable), None, 1)
    ensures endpoint(0, OllamaSchema).Answer? ==>
      OllamaGenerate(endpoint, None) == Call(Success(endpoint(0, OllamaSchema).value), Some(OllamaSchema), 1)
  {
  }

  // ---------- A settled provider ----------

  /** An endpoint that answers in exactly these modes, whenever it is asked. */
  ghost predicate Supports(endpoint: Endpoint, works: set<Mode>) {
    && (forall n: nat, m: Mode :: m in works ==> endpoint(n, m).Answer?)
    && (forall n: nat, m: Mode :: m !in works ==> Negotiable(endpoint(n, m)))
  }

  function FirstWorking(works: set<Mode>): Option<Mode> {
    if JsonSchema in works then Some(JsonSchema)
    else if JsonObject in works then Some(JsonObject)
    else if PromptedJson in works then Some(PromptedJson)
    else None
  }

  lemma FirstCallSettles(endpoint: Endpoint, works: set<Mode>)
    requires Supports(endpoint, works) && FirstWorking(works).Some?
    ensures var r := Generate(endpoint, None); r.outcome.Success? && r.active == FirstWorking(works)
  {
    TryModesMeans(endpoint, STRATEGIES, None, 0, Invalid);
    var d := Decisive(endpoint, STRATEGIES, 0);
    assert endpoint(0, JsonSchema).Answer? || Negotiable(endpoint(0, JsonSchema));
    assert endpoint(1, JsonObject).Answer? || Negotiable(endpoint(1, JsonObject));
    assert endpoint(2, PromptedJson).Answer? || Negotiable(endpoint(2, PromptedJson));
    assert d < 3 ==> STRATEGIES[d] in works;
  }

  lemma SettledCall(endpoint: Endpoint, works: set<Mode>, mode: Mode)
    requires Supports(endpoint, works) && mode in works && mode in STRATEGIES
    ensures var r := Generate(endpoint, Some(mode)); r.outcome.Success? && r.active == Some(mode) && r.requests == 1
  {
    OrderIsStrategies(Some(mode));
    TryModesMeans(endpoint, Order(Some(mode)), Some(mode), 0, Invalid);
    assert endpoint(0, mode).Answer?;
  }

  /** Against endpoints that support the same modes, the first call finds the strongest supported
  mode, and from then on every call of any run succeeds with one request in that mode. */
  lemma {:induction false} ProviderSettles(calls: seq<Endpoint>, works: set<Mode>, active: Option<Mode>)
    requires FirstWorking(works).Some? && (active.None? || active == FirstWorking(works))
    requires forall i :: 0 <= i < |calls| ==> Supports(calls[i], works)
    ensures calls != [] ==> OpenAIRun(active, calls) == FirstWorking(works)
    ensures forall i :: 0 < i < |calls| ==>
      && OpenAIRun(active, calls[..i]) == FirstWorking(works)
      && Generate(calls[i], FirstWorking(works)).outcome.Success?
      && Generate(calls[i], FirstWorking(works)).requests == 1
    decreases |calls|
  {
    if calls != [] {
      var mode := FirstWorking(works).value;
      if active.None? { FirstCallSettles(calls[0], works); } else { SettledCall(calls[0], works, mode); }
      ProviderSettles(calls[1..], works, Some(mode));
      forall i | 0 < i < |calls|
        ensures OpenAIRun(active, calls[..i]) == Some(mode)
        ensures Generate(calls[i], Some(mode)).outcome.Success? && Generate(calls[i], Some(mode)).requests == 1
      {
        SettledCall(calls[i], works, mode);
        assert calls[..i][1..] == calls[1..][..i - 1];
        if i > 1 { assert 0 < i - 1 < |calls[1..]|; }
      }
    }
  }

  // ---------- Ollama ----------

  function Rank(active: Option<Mode>): nat {
    if active.None? then 0
    else if active == Some(OllamaSchema) then 1
    else if active == Some(PromptedJson) then 2
    else 3
  }

  /** Over any run the remembered mode only moves from none to schema to prompted, and prompted is
  absorbing, whatever the endpoints answer. */
  lemma {:induction false} OllamaModeOnlyWeakens(active: Option<Mode>, calls: seq<Endpoint>)
    requires Rank(active) <= 2
    ensures Rank(active) <= Rank(OllamaRun(active, calls)) <= 2
    ensures active == Some(PromptedJson) ==> OllamaRun(active, calls) == Some(PromptedJson)
    decreases |calls|
  {
    if calls != [] {
      OllamaModeOnlyWeakens(OllamaGenerate(calls[0], active).active, calls[1..]);
    }
  }

  /** Exactly when an Ollama call succeeds. Unlike the OpenAI-compatible call, it does not fall back
  on malformed output: a remembered schema mode with such output fails even if prompting works. */
  lemma OllamaSucceedsExactly(endpoint: Endpoint, active: Option<Mode>)
    ensures OllamaGenerate(endpoint, active).outcome.Success? <==>
      if active == Some(PromptedJson) then endpoint(0, PromptedJson).Answer?
      else
        || endpoint(0, OllamaSchema).Answer?
        || (endpoint(0, OllamaSchema).HttpStatus? && endpoint(0, OllamaSchema).code in NEGOTIATION_STATUSES
            && endpoint(1, PromptedJson).Answer?)
    ensures !OllamaGenerate(endpoint, active).outcome.Success? ==> OllamaGenerate(endpoint, active).active == active
  {
  }

  lemma MalformedSchemaOutputIsFinal(endpoint: Endpoint, active: Option<Mode>)
    requires active != Some(PromptedJson) && endpoint(0, OllamaSchema).Invalid?
    ensures OllamaGenerate(endpoint, active) == Call(Raised(Invalid), active, 1)
    ensures endpoint(0, JsonSchema).Invalid? && endpoint(1, JsonObject).Answer? ==>
      Generate(endpoint, None).outcome == Success(endpoint(1, JsonObject).value)
  {
    if endpoint(0, JsonSchema).Invalid? && endpoint(1, JsonObject).Answer? {
      assert STRATEGIES[1..][0] == JsonObject;
      assert Generate(endpoint, None) == TryModes(endpoint, STRATEGIES[1..], None, 1, Invalid);
    }
  }

  /** A model that wraps its answer when it is held to a schema, and answers well otherwise. */
  const WRAPS: Endpoint := (n, m) => if m == OllamaSchema || m == JsonSchema then Invalid else Answer("")

  /** No run of calls ever gets an answer out of it through Ollama, while the other provider's first
  call does. */
  lemma {:induction false} WrappedAnswersNeverRecover(calls: seq<Endpoint>)
    requires forall i :: 0 <= i < |calls| ==> calls[i] == WRAPS
    ensures OllamaRun(None, calls) == None && OllamaGenerate(WRAPS, None).outcome == Raised(Invalid)
    ensures WRAPS(0, PromptedJson).Answer? && Generate(WRAPS, None).outcome == Success("")
    decreases |calls|
  {
    MalformedSchemaOutputIsFinal(WRAPS, None);
    if calls != [] { WrappedAnswersNeverRecover(calls[1..]); }
  }
}

module NegotiationService {
  import opened Prelude
  import opened Negotiation

  class OpenAICompatibleProvider {
    var active: Option<Mode>

    constructor ()
      ensures active.None?
    {
      active := None;
    }

    method GenerateStructured(endpoint: Endpoint) returns (outcome: Outcome, requests: nat)
      modifies this`active
      ensures Call(outcome, active, requests) == Generate(endpoint, old(active))
    {
      var strategies := if active.None? then STRATEGIES else SortByKey(STRATEGIES, active.value);
      var last: Attempt := Invalid;
      requests := 0;
      while requests < |strategies|
        invariant requests <= |strategies| && active == old(active)
        invariant Generate(endpoint, old(active))
               == TryModes(endpoint, strategies[requests..], old(active), requests, last)
      {
        var mode := strategies[requests];
        var attempt := endpoint(requests, mode);
        assert strategies[requests..][1..] == strategies[requests + 1..];
        requests := requests + 1;
        if attempt.Answer? {
          active := Some(mode);
          return Success(attempt.value), requests;
        }
        if !Negotiable(attempt) {
          return Raised(attempt), requests;
        }
        last := attempt;
      }
      return Exhausted(last), requests;
    }
  }

  class OllamaProvider {
    var active: Option<Mode>

    constructor ()
      ensures active.None?
    {
      active := None;
    }

    method GenerateStructured(endpoint: Endpoint) returns (outcome: Outcome, requests: nat)
      modifies this`active
      ensures Call(outcome, active, requests) == OllamaGenerate(endpoint, old(active))
    {
      requests := 0;
      if active != Some(PromptedJson) {
        var attempt := endpoint(0, OllamaSchema);
        requests := 1;
        if attempt.Answer? {
          active := Some(OllamaSchema);
          return Success(attempt.value), requests;
        }
        if !attempt.HttpStatus? || attempt.code !in NEGOTIATION_STATUSES {
          return Raised(attempt), requests;
        }
      }
      var prompted := endpoint(requests, PromptedJson);
      requests := requests + 1;
      if !prompted.Answer? {
        return Raised(prompted), requests;
      }
      active := Some(PromptedJson);
      return Success(prompted.value), requests;
    }
  }
}
