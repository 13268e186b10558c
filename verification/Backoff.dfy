/** The waits between the attempts of a job that keeps failing. */
module BackoffProofs {
  import opened Prelude
  import opened Jobs

  lemma {:induction false} Pow2Monotone(a: nat, b: nat)
    requires a <= b
    ensures 1 <= Pow2(a) <= Pow2(b)
    decreases b
  {
    if a < b { Pow2Monotone(a, b - 1); } else if a > 0 { Pow2Monotone(a - 1, a - 1); }
  }

  lemma MulMonotone(x: nat, a: nat, b: nat)
    requires a <= b
    ensures x * a <= x * b
  {
  }

  /** The delay never decreases with the attempts, stays under the cap and is never below the
  smaller of the first delay and the cap. */
  lemma DelayMonotone(initial: nat, cap: nat, a: nat, b: nat)
    requires a <= b
    ensures Min(initial, cap) <= Delay(initial, cap, a) <= Delay(initial, cap, b) <= cap
  {
    var x, y := if a == 0 then 0 else a - 1, if b == 0 then 0 else b - 1;
    Pow2Monotone(0, x);
    Pow2Monotone(x, y);
    MulMonotone(initial, 1, Pow2(x));
    MulMonotone(initial, Pow2(x), Pow2(y));
  }

  /** The waits after the attempts first..first + n - 1. */
  function TotalDelay(initial: nat, cap: nat, n: nat): nat {
    if n == 0 then 0 else TotalDelay(initial, cap, n - 1) + Delay(initial, cap, n)
  }

  /** d is where doubling stops: exactly the delays of the first d attempts are below the cap. */
  predicate DoublingStops(initial: nat, cap: nat, d: nat) {
    && initial * Pow2(d) >= cap
    && (d > 0 ==> initial * Pow2(d - 1) < cap)
  }

  function Doubled(initial: nat, n: nat): nat {
    if n == 0 then initial else 2 * Doubled(initial, n - 1)
  }

  lemma {:induction false} DoubledIs(initial: nat, n: nat)
    ensures Doubled(initial, n) == initial * Pow2(n)
  {
    if n > 0 { DoubledIs(initial, n - 1); }
  }

  lemma {:induction false} DoubledMonotone(initial: nat, a: nat, b: nat)
    requires a <= b
    ensures Doubled(initial, a) <= Doubled(initial, b)
    decreases b
  {
    if a < b { DoubledMonotone(initial, a, b - 1); }
  }

  lemma Multiples(n: nat, cap: nat)
    ensures (n + 1) * cap == n * cap + cap
  {
  }

  lemma {:induction false} TotalDelaySums(initial: nat, cap: nat, d: nat, n: nat)
    requires Doubled(initial, d) >= cap && (d > 0 ==> Doubled(initial, d - 1) < cap)
    ensures TotalDelay(initial, cap, n)
         == if n <= d then Doubled(initial, n) - initial else Doubled(initial, d) - initial + (n - d) * cap
  {
    if n > 0 {
      TotalDelaySums(initial, cap, d, n - 1);
      DoubledIs(initial, n - 1);
      if n <= d {
        DoubledMonotone(initial, n - 1, d - 1);
      } else {
        DoubledMonotone(initial, d, n - 1);
        Multiples(n - 1 - d, cap);
      }
    }
  }

  /** The closed form: a doubling part, then a capped part. */
  lemma TotalDelayClosedForm(initial: nat, cap: nat, d: nat, n: nat)
    requires DoublingStops(initial, cap, d)
    ensures TotalDelay(initial, cap, n)
         == if n <= d then initial * Pow2(n) - initial else initial * Pow2(d) - initial + (n - d) * cap
  {
    DoubledIs(initial, n);
    DoubledIs(initial, d);
    if d > 0 { DoubledIs(initial, d - 1); }
    TotalDelaySums(initial, cap, d, n);
  }

  /** Eight attempts from 30 seconds under a cap of 15 minutes wait 2730 seconds in between. */
  lemma SevenWaits()
    ensures TotalDelay(30, 900, 7) == 2730
  {
    assert Pow2(5) == 2 * Pow2(4) && Pow2(4) == 2 * Pow2(3) && Pow2(3) == 8;
    assert DoublingStops(30, 900, 5);
    TotalDelayClosedForm(30, 900, 5, 7);
  }

  // ---------- The backoff of a job that keeps failing ----------

  /** An attempt that raises at `failedAt`, or dies while it runs. */
  datatype Failure = Failure(claimedAt: int, failedAt: int, dies: bool)

  function HandlingOf(f: Failure): Handling {
    if f.dies then Dies else Raises
  }

  /** Consecutive failing attempts of one job, each claimed as the table allows. */
  ghost predicate FailingRun(j: Job, failures: seq<Failure>, p: Policy)
    decreases |failures|
  {
    failures == [] ||
    (var f := failures[0];
     && Claimable(j, f.claimedAt, f.claimedAt - p.lease, p.types)
     && f.claimedAt <= f.failedAt
     && FailingRun(Finish(Claimed(j, f.claimedAt), HandlingOf(f), f.failedAt, p), failures[1..], p))
  }

  /** Which of the attempts died. */
  function Deaths(failures: seq<Failure>): (dies: seq<bool>)
    ensures |dies| == |failures| && forall i :: 0 <= i < |dies| ==> dies[i] == failures[i].dies
  {
    seq(|failures|, i requires 0 <= i < |failures| => failures[i].dies)
  }

  /** From the first claim to the last one. */
  function Span(failures: seq<Failure>): int
    requires failures != []
  {
    failures[|failures| - 1].claimedAt - failures[0].claimedAt
  }

  /** What must pass between two attempts: the delay after one that raised, the lease after one that died. */
  function Wait(initial: nat, p: Policy, attempts: nat, dies: bool): nat {
    if dies then p.lease + 1 else Delay(initial, p.cap, attempts)
  }

  /** The waits between attempts that die as listed, the first of which is number `attempts` + 1. */
  function TotalWait(initial: nat, p: Policy, attempts: nat, dies: seq<bool>): nat
    decreases |dies|
  {
    if |dies| <= 1 then 0
    else Wait(initial, p, attempts + 1, dies[0]) + TotalWait(initial, p, attempts + 1, dies[1..])
  }

  /** However a job keeps failing, by exceptions or by dying, its attempts span at least the waits between
  them, and there are at most as many as its limit allows. */
  lemma {:induction false} AttemptsSpanTheWaits(j: Job, failures: seq<Failure>, p: Policy)
    requires FailingRun(j, failures, p) && failures != [] && j.jobType in p.retryDelays
    ensures j.attempts + |failures| <= j.maxAttempts
    ensures Span(failures) >= TotalWait(p.retryDelays[j.jobType], p, j.attempts, Deaths(failures))
    decreases |failures|
  {
    var f := failures[0];
    var next := Finish(Claimed(j, f.claimedAt), HandlingOf(f), f.failedAt, p);
    if |failures| > 1 {
      AttemptsSpanTheWaits(next, failures[1..], p);
      assert Deaths(failures)[1..] == Deaths(failures[1..]);
      assert failures[1].claimedAt - f.claimedAt >= Wait(p.retryDelays[j.jobType], p, j.attempts + 1, f.dies);
    }
  }

  /** The row after an attempt that was claimed at `at` and failed at once. */
  function FailedAtOnce(j: Job, at: int, dies: bool, p: Policy): Job {
    Finish(Claimed(j, at), if dies then Dies else Raises, at, p)
  }

  lemma ClaimableAfterWait(j: Job, at: int, dies: bool, p: Policy)
    requires Claimable(j, at, at - p.lease, p.types) && j.jobType in p.retryDelays && j.attempts + 1 < j.maxAttempts
    ensures var next := FailedAtOnce(j, at, dies, p);
      var again := at + Wait(p.retryDelays[j.jobType], p, j.attempts + 1, dies);
      && Claimable(next, again, again - p.lease, p.types)
      && next.attempts == j.attempts + 1 && next.maxAttempts == j.maxAttempts && next.jobType == j.jobType
  {
  }

  /** These attempts fail as the table allows, the first one claimed at `at`, dying as listed, within the span. */
  ghost predicate Fails(j: Job, failures: seq<Failure>, p: Policy, at: int, dies: seq<bool>, span: int) {
    && FailingRun(j, failures, p) && |failures| == |dies| > 0 && Deaths(failures) == dies
    && failures[0].claimedAt == at && Span(failures) == span
  }

  lemma FailsOnce(j: Job, at: int, dies: seq<bool>, p: Policy)
    requires Claimable(j, at, at - p.lease, p.types) && |dies| == 1
    ensures Fails(j, [Failure(at, at, dies[0])], p, at, dies, 0)
  {
    var failures := [Failure(at, at, dies[0])];
    assert failures[1..] == [];
  }

  lemma FailsFirst(j: Job, at: int, dies: seq<bool>, p: Policy, next: Job, rest: seq<Failure>, again: int, span: int)
    requires Claimable(j, at, at - p.lease, p.types) && |dies| > 1 && next == FailedAtOnce(j, at, dies[0], p)
    requires Fails(next, rest, p, again, dies[1..], span)
    ensures Fails(j, [Failure(at, at, dies[0])] + rest, p, at, dies, again - at + span)
  {
    var failures := [Failure(at, at, dies[0])] + rest;
    assert failures[1..] == rest;
    forall i | 0 <= i < |dies| ensures Deaths(failures)[i] == dies[i] {
      if i > 0 { assert Deaths(rest)[i - 1] == dies[1..][i - 1]; }
    }
  }

  /** A worker that claims at the first possible moment, and attempts that fail at once, take exactly
  the waits: for every pattern of dying within the limit. */
  lemma {:induction false} FastestRun(j: Job, at: int, dies: seq<bool>, p: Policy) returns (failures: seq<Failure>)
    requires Claimable(j, at, at - p.lease, p.types) && j.jobType in p.retryDelays
    requires dies != [] && j.attempts + |dies| <= j.maxAttempts
    ensures Fails(j, failures, p, at, dies, TotalWait(p.retryDelays[j.jobType], p, j.attempts, dies))
    decreases |dies|
  {
    var initial := p.retryDelays[j.jobType];
    if |dies| == 1 {
      FailsOnce(j, at, dies, p);
      failures := [Failure(at, at, dies[0])];
    } else {
      var again := at + Wait(initial, p, j.attempts + 1, dies[0]);
      var next := FailedAtOnce(j, at, dies[0], p);
      ClaimableAfterWait(j, at, dies[0], p);
      var rest := FastestRun(next, again, dies[1..], p);
      FailsFirst(j, at, dies, p, next, rest, again, TotalWait(initial, p, j.attempts + 1, dies[1..]));
      failures := [Failure(at, at, dies[0])] + rest;
    }
  }

  /** Every failing run in which the attempts die as listed spans at least this long. */
  ghost predicate AlwaysSpans(j: Job, dies: seq<bool>, p: Policy, bound: int) {
    forall failures :: failures != [] && FailingRun(j, failures, p) && Deaths(failures) == dies ==>
      Span(failures) >= bound
  }

  /** Whatever the bound: a claimable job that fails in this pattern is sure to ride it out if and only if
  the waits of the pattern add up to it. */
  lemma SpansExactly(j: Job, at: int, dies: seq<bool>, p: Policy, bound: int)
    requires Claimable(j, at, at - p.lease, p.types) && j.jobType in p.retryDelays
    requires dies != [] && j.attempts + |dies| <= j.maxAttempts
    ensures AlwaysSpans(j, dies, p, bound) <==> TotalWait(p.retryDelays[j.jobType], p, j.attempts, dies) >= bound
  {
    var fastest := FastestRun(j, at, dies, p);
    forall failures | FailingRun(j, failures, p) && failures != [] && Deaths(failures) == dies
      ensures Span(failures) >= TotalWait(p.retryDelays[j.jobType], p, j.attempts, dies)
    {
      AttemptsSpanTheWaits(j, failures, p);
    }
  }

  /** Attempts that all raise wait for exactly the delays. */
  lemma {:induction false} RaisingWaitsAreDelays(initial: nat, p: Policy, attempts: nat, dies: seq<bool>)
    requires dies != [] && true !in dies
    ensures TotalWait(initial, p, attempts, dies)
         == TotalDelay(initial, p.cap, attempts + |dies| - 1) - TotalDelay(initial, p.cap, attempts)
    decreases |dies|
  {
    if |dies| > 1 {
      assert dies[0] in dies;
      RaisingWaitsAreDelays(initial, p, attempts + 1, dies[1..]);
    }
  }

  // ---------- Eight attempts of the extraction job ----------

  lemma FirstDelays()
    ensures Delay(30, 900, 1) == 30 && Delay(30, 900, 2) == 60 && Delay(30, 900, 3) == 120 && Delay(30, 900, 4) == 240
    ensures Delay(30, 900, 5) == 480 && Delay(30, 900, 6) == 900 && Delay(30, 900, 7) == 900
  {
    assert Pow2(3) == 8 && Pow2(4) == 2 * Pow2(3) && Pow2(5) == 2 * Pow2(4) && Pow2(6) == 2 * Pow2(5);
  }

  function Either(dies: bool, died: nat, raised: nat): nat {
    if dies then died else raised
  }

  lemma TotalWaitFrom(initial: nat, p: Policy, attempts: nat, dies: seq<bool>, i: nat)
    requires i + 1 < |dies|
    ensures TotalWait(initial, p, attempts, dies[i..])
         == Wait(initial, p, attempts + 1, dies[i]) + TotalWait(initial, p, attempts + 1, dies[i + 1..])
  {
    assert dies[i..][1..] == dies[i + 1..];
  }

  lemma WaitsOfFour(initial: nat, p: Policy, attempts: nat, dies: seq<bool>)
    requires |dies| > 4
    ensures TotalWait(initial, p, attempts, dies)
         == Wait(initial, p, attempts + 1, dies[0]) + Wait(initial, p, attempts + 2, dies[1])
          + Wait(initial, p, attempts + 3, dies[2]) + Wait(initial, p, attempts + 4, dies[3])
          + TotalWait(initial, p, attempts + 4, dies[4..])
  {
    assert dies[0..] == dies;
    TotalWaitFrom(initial, p, attempts, dies, 0);
    TotalWaitFrom(initial, p, attempts + 1, dies, 1);
    TotalWaitFrom(initial, p, attempts + 2, dies, 2);
    TotalWaitFrom(initial, p, attempts + 3, dies, 3);
  }

  lemma WaitsOfLastFour(initial: nat, p: Policy, attempts: nat, dies: seq<bool>)
    requires |dies| == 4
    ensures TotalWait(initial, p, attempts, dies)
         == Wait(initial, p, attempts + 1, dies[0]) + Wait(initial, p, attempts + 2, dies[1])
          + Wait(initial, p, attempts + 3, dies[2])
  {
    assert dies[0..] == dies;
    TotalWaitFrom(initial, p, attempts, dies, 0);
    TotalWaitFrom(initial, p, attempts + 1, dies, 1);
    TotalWaitFrom(initial, p, attempts + 2, dies, 2);
    assert TotalWait(initial, p, attempts + 3, dies[3..]) == 0;
  }

  lemma EachWait(p: Policy, dies: bool)
    requires p.cap == 900 && p.lease == 300
    ensures Wait(30, p, 1, dies) == Either(dies, 301, 30) && Wait(30, p, 2, dies) == Either(dies, 301, 60)
    ensures Wait(30, p, 3, dies) == Either(dies, 301, 120) && Wait(30, p, 4, dies) == Either(dies, 301, 240)
    ensures Wait(30, p, 5, dies) == Either(dies, 301, 480) && Wait(30, p, 6, dies) == Either(dies, 301, 900)
    ensures Wait(30, p, 7, dies) == Either(dies, 301, 900)
  {
    FirstDelays();
  }

  lemma FirstFour(p: Policy, dies: seq<bool>, rest: nat)
    requires p.cap == 900 && p.lease == 300 && |dies| == 8 && rest == TotalWait(30, p, 4, dies[4..])
    ensures TotalWait(30, p, 0, dies)
         == Either(dies[0], 301, 30) + Either(dies[1], 301, 60) + Either(dies[2], 301, 120) + Either(dies[3], 301, 240)
          + rest
  {
    WaitsOfFour(30, p, 0, dies);
    EachWait(p, dies[0]);
    EachWait(p, dies[1]);
    EachWait(p, dies[2]);
    EachWait(p, dies[3]);
  }

  lemma LastFour(p: Policy, dies: seq<bool>)
    requires p.cap == 900 && p.lease == 300 && |dies| == 4
    ensures TotalWait(30, p, 4, dies)
         == Either(dies[0], 301, 480) + Either(dies[1], 301, 900) + Either(dies[2], 301, 900)
  {
    WaitsOfLastFour(30, p, 4, dies);
    EachWait(p, dies[0]);
    EachWait(p, dies[1]);
    EachWait(p, dies[2]);
  }

  /** After one of the first four attempts the lease is the longer wait, after the others the delay. */
  lemma WaitsOfEight(p: Policy, dies: seq<bool>)
    requires p.cap == 900 && p.lease == 300 && |dies| == 8
    ensures TotalWait(30, p, 0, dies)
         == Either(dies[0], 301, 30) + Either(dies[1], 301, 60) + Either(dies[2], 301, 120) + Either(dies[3], 301, 240)
          + Either(dies[4], 301, 480) + Either(dies[5], 301, 900) + Either(dies[6], 301, 900)
  {
    var rest := TotalWait(30, p, 4, dies[4..]);
    FirstFour(p, dies, rest);
    LastFour(p, dies[4..]);
  }

  /** The extraction job: eight attempts ride out at least 2730 seconds if all of them raise, and at
  least 1353 seconds however many of them die. */
  lemma LearningRidesOut(j: Job, failures: seq<Failure>, p: Policy)
    requires FailingRun(j, failures, p) && |failures| == 8 && j.attempts == 0
    requires j.jobType in p.retryDelays && p.retryDelays[j.jobType] == 30 && p.cap == 900 && p.lease == 300
    ensures Span(failures) >= 1353
    ensures (forall f :: f in failures ==> !f.dies) ==> Span(failures) >= 2730
  {
    AttemptsSpanTheWaits(j, failures, p);
    WaitsOfEight(p, Deaths(failures));
    if forall f :: f in failures ==> !f.dies {
      RaisingWaitsAreDelays(30, p, 0, Deaths(failures));
      SevenWaits();
    }
  }
}
