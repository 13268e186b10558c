/** Durable jobs (jobs.py, with the rows of the jobs repository): claims with leases, failures with
doubling backoff, and the worker. Times are in seconds. */
module Jobs {
  import opened Prelude

  datatype Status = Queued | Running | Succeeded | Failed

  datatype Job = Job(
    id: nat, jobType: string, status: Status, attempts: nat, maxAttempts: nat, availableAt: int, createdAt: int,
    lockedAt: Option<int>)

  // ---------- Backoff ----------

  function Pow2(n: nat): nat {
    if n == 0 then 1 else 2 * Pow2(n - 1)
  }

  /** The wait after this many attempts: doubled from the second on, never above the cap. */
  function Delay(initial: nat, cap: nat, attempts: nat): nat {
    Min(initial * Pow2(if attempts == 0 then 0 else attempts - 1), cap)
  }

  // ---------- One row ----------

  predicate Stale(j: Job, staleBefore: int) {
    j.status == Running && j.lockedAt.Some? && j.lockedAt.value < staleBefore
  }

  /** An interrupted final attempt is given up. */
  function Expire(j: Job, staleBefore: int): Job {
    if Stale(j, staleBefore) && j.attempts >= j.maxAttempts then j.(status := Failed, lockedAt := None) else j
  }

  predicate Claimable(j: Job, now: int, staleBefore: int, types: set<string>) {
    && j.jobType in types
    && j.attempts < j.maxAttempts
    && ((j.status == Queued && j.availableAt <= now) || Stale(j, staleBefore))
  }

  function Claimed(j: Job, now: int): Job {
    j.(status := Running, attempts := j.attempts + 1, lockedAt := Some(now))
  }

  function MarkFailed(j: Job, retryAt: Option<int>): Job {
    var exhausted := j.attempts >= j.maxAttempts;
    j.(status := if exhausted then Failed else Queued,
       availableAt := if !exhausted && retryAt.Some? then retryAt.value else j.availableAt,
       lockedAt := None)
  }

  function MarkSucceeded(j: Job): Job {
    j.(status := Succeeded, lockedAt := None)
  }

  function RequeueFailed(j: Job, now: int): Job {
    if j.status == Failed then j.(status := Queued, attempts := 0, availableAt := now, lockedAt := None) else j
  }

  /** When a failed attempt may be tried again, if its type has a retry delay. */
  function RetryAt(j: Job, failedAt: int, initial: Option<nat>, cap: nat): Option<int> {
    if initial.None? then None else Some(failedAt + Delay(initial.value, cap, j.attempts))
  }

  // ---------- The table ----------

  /** Queued rows first, then by when they became available, then by creation. */
  predicate Precedes(a: Job, b: Job) {
    var ra, rb := if a.status == Queued then 0 else 1, if b.status == Queued then 0 else 1;
    || ra < rb
    || (ra == rb && a.availableAt < b.availableAt)
    || (ra == rb && a.availableAt == b.availableAt && a.createdAt < b.createdAt)
  }

  function ExpireAll(rows: seq<Job>, staleBefore: int): (r: seq<Job>)
    ensures |r| == |rows| && forall i :: 0 <= i < |rows| ==> r[i] == Expire(rows[i], staleBefore)
  {
    seq(|rows|, i requires 0 <= i < |rows| => Expire(rows[i], staleBefore))
  }

  predicate NonePrecedes(rows: seq<Job>, now: int, staleBefore: int, types: set<string>, best: nat)
    requires best < |rows|
  {
    forall i :: 0 <= i < |rows| && Claimable(rows[i], now, staleBefore, types) ==> !Precedes(rows[i], rows[best])
  }

  /** The position of the first claimable row that no other claimable row precedes. */
  function Best(rows: seq<Job>, now: int, staleBefore: int, types: set<string>): (r: Option<nat>)
    ensures r.Some? ==> r.value < |rows| && Claimable(rows[r.value], now, staleBefore, types)
    ensures r.Some? ==> NonePrecedes(rows, now, staleBefore, types, r.value)
    ensures r.None? ==> forall i :: 0 <= i < |rows| ==> !Claimable(rows[i], now, staleBefore, types)
  {
    if rows == [] then None
    else
      var n := |rows| - 1;
      var best := Best(rows[..n], now, staleBefore, types);
      if !Claimable(rows[n], now, staleBefore, types) then best
      else if best.Some? && !Precedes(rows[n], rows[best.value]) then best
      else Some(n)
  }

  /** How a handler ends: it returns, raises, or the process dies while it runs. */
  datatype Handling = Returns | Raises | Dies

  datatype Policy = Policy(types: set<string>, retryDelays: map<string, nat>, cap: nat, lease: nat)

  /** What the worker does to the claimed row in the end. */
  function Finish(j: Job, handling: Handling, failedAt: int, p: Policy): Job {
    match handling
    case Returns => MarkSucceeded(j)
    case Raises => MarkFailed(j, RetryAt(j, failedAt, Lookup(p.retryDelays, j.jobType), p.cap))
    case Dies => j
  }

  /** One turn of the worker; the second part is the position of the job it handled. */
  function ProcessOnce(rows: seq<Job>, now: int, failedAt: int, handling: Handling, p: Policy): (seq<Job>, Option<nat>)
  {
    if p.types == {} then (rows, None)
    else
      var expired := ExpireAll(rows, now - p.lease);
      var best := Best(expired, now, now - p.lease, p.types);
      if best.None? then (expired, None)
      else
        var claimed := Claimed(expired[best.value], now);
        (expired[best.value := Finish(claimed, handling, failedAt, p)], best)
  }

  datatype Turn = Turn(now: int, failedAt: int, handling: Handling)

  function Work(rows: seq<Job>, turns: seq<Turn>, p: Policy): seq<Job>
    decreases |turns|
  {
    if turns == [] then rows
    else Work(ProcessOnce(rows, turns[0].now, turns[0].failedAt, turns[0].handling, p).0, turns[1..], p)
  }

  /** How often the row at a position is handled. */
  function Handled(rows: seq<Job>, turns: seq<Turn>, p: Policy, i: nat): nat
    decreases |turns|
  {
    if turns == [] then 0
    else
      var (next, best) := ProcessOnce(rows, turns[0].now, turns[0].failedAt, turns[0].handling, p);
      (if best == Some(i) then 1 else 0) + Handled(next, turns[1..], p, i)
  }
}
