/** What any number of turns of the worker keeps. */
module WorkerProofs {
  import opened Prelude
  import opened Jobs

  ghost predicate WithinLimit(rows: seq<Job>) {
    forall i :: 0 <= i < |rows| ==> rows[i].attempts <= rows[i].maxAttempts
  }

  /** A turn handles at most one job: the best claimable one, with one more attempt; every other row
  changes only if its interrupted final attempt is given up. */
  lemma TurnHandlesBest(rows: seq<Job>, now: int, failedAt: int, handling: Handling, p: Policy)
    ensures var (next, best) := ProcessOnce(rows, now, failedAt, handling, p);
      && |next| == |rows|
      && (forall i :: 0 <= i < |rows| && Some(i) != best && p.types != {} ==> next[i] == Expire(rows[i], now - p.lease))
      && (best.Some? ==>
            && best.value < |rows| && next[best.value].attempts == rows[best.value].attempts + 1
            && next[best.value].attempts <= next[best.value].maxAttempts
            && (next[best.value].status == Queued ==> next[best.value].attempts < next[best.value].maxAttempts))
      && (best.None? && p.types != {} ==>
            forall i :: 0 <= i < |rows| ==> !Claimable(Expire(rows[i], now - p.lease), now, now - p.lease, p.types))
  {
  }

  /** How the handled row stands after the turn, in its own fields. */
  ghost predicate Settled(before: Job, after: Job, now: int, failedAt: int, handling: Handling, p: Policy) {
    && after.id == before.id && after.jobType == before.jobType && after.createdAt == before.createdAt
    && after.maxAttempts == before.maxAttempts && after.attempts == before.attempts + 1
    && match handling
       case Returns => after.status == Succeeded && after.lockedAt == None && after.availableAt == before.availableAt
       case Dies => after.status == Running && after.lockedAt == Some(now) && after.availableAt == before.availableAt
       case Raises =>
         && after.lockedAt == None
         && after.status == (if before.attempts + 1 == before.maxAttempts then Failed else Queued)
         && after.availableAt ==
              if after.status == Queued && before.jobType in p.retryDelays
              then failedAt + Delay(p.retryDelays[before.jobType], p.cap, before.attempts + 1)
              else before.availableAt
  }

  /** A row that may be claimed: of a known type, with attempts left, and queued for now or interrupted
  longer ago than the lease. */
  predicate Waits(j: Job, now: int, p: Policy) {
    && j.jobType in p.types && j.attempts < j.maxAttempts
    && ((j.status == Queued && j.availableAt <= now)
        || (j.status == Running && j.lockedAt.Some? && j.lockedAt.value + p.lease < now))
  }

  /** Among waiting rows: queued before interrupted, then by time of availability, then by creation. */
  predicate NotAfter(a: Job, b: Job) {
    && (a.status == Queued || b.status != Queued)
    && ((a.status == Queued) == (b.status == Queued) ==>
          a.availableAt < b.availableAt || (a.availableAt == b.availableAt && a.createdAt <= b.createdAt))
  }

  lemma WaitingIsKept(j: Job, now: int, p: Policy)
    ensures Waits(j, now, p) <==> Claimable(Expire(j, now - p.lease), now, now - p.lease, p.types)
    ensures Waits(j, now, p) ==> Expire(j, now - p.lease) == j
  {
  }

  /** A turn handles a row if and only if one waits; it handles one that no waiting row comes before, and
  settles it as its handler ended. */
  lemma TurnSettlesExactly(rows: seq<Job>, now: int, failedAt: int, handling: Handling, p: Policy)
    ensures var (next, best) := ProcessOnce(rows, now, failedAt, handling, p);
      && (best.Some? <==> exists i :: 0 <= i < |rows| && Waits(rows[i], now, p))
      && (best.Some? ==>
            && best.value < |rows| == |next| && Waits(rows[best.value], now, p)
            && Settled(rows[best.value], next[best.value], now, failedAt, handling, p)
            && forall i :: 0 <= i < |rows| && Waits(rows[i], now, p) ==> NotAfter(rows[best.value], rows[i]))
  {
    forall i | 0 <= i < |rows|
      ensures Waits(rows[i], now, p) <==> Claimable(Expire(rows[i], now - p.lease), now, now - p.lease, p.types)
    {
      WaitingIsKept(rows[i], now, p);
    }
    var best := ProcessOnce(rows, now, failedAt, handling, p).1;
    if best.Some? {
      BestComesFirst(rows, now, p, best.value);
      WaitingIsKept(rows[best.value], now, p);
    } else {
      NoneWaits(rows, now, p);
    }
  }

  lemma BestComesFirst(rows: seq<Job>, now: int, p: Policy, best: nat)
    requires best < |rows| && Best(ExpireAll(rows, now - p.lease), now, now - p.lease, p.types) == Some(best)
    ensures Waits(rows[best], now, p)
    ensures forall i :: 0 <= i < |rows| && Waits(rows[i], now, p) ==> NotAfter(rows[best], rows[i])
  {
    WaitingIsKept(rows[best], now, p);
    var expired := ExpireAll(rows, now - p.lease);
    forall i | 0 <= i < |rows| && Waits(rows[i], now, p) ensures NotAfter(rows[best], rows[i]) {
      WaitingIsKept(rows[i], now, p);
      assert !Precedes(expired[i], expired[best]);
    }
  }

  lemma NoneWaits(rows: seq<Job>, now: int, p: Policy)
    requires p.types == {} || Best(ExpireAll(rows, now - p.lease), now, now - p.lease, p.types).None?
    ensures forall i :: 0 <= i < |rows| ==> !Waits(rows[i], now, p)
  {
    forall i | 0 <= i < |rows| ensures !Waits(rows[i], now, p) {
      WaitingIsKept(rows[i], now, p);
    }
  }

  /** A row that is not handled changes if and only if it is interrupted in its final attempt, and is
  given up then. */
  lemma OthersGivenUpExactly(rows: seq<Job>, now: int, failedAt: int, handling: Handling, p: Policy, i: nat)
    requires i < |rows| && p.types != {} && ProcessOnce(rows, now, failedAt, handling, p).1 != Some(i)
    ensures var next := ProcessOnce(rows, now, failedAt, handling, p).0; var j := rows[i];
      && |next| == |rows|
      && next[i] ==
           if j.status == Running && j.lockedAt.Some? && j.lockedAt.value + p.lease < now && j.attempts >= j.maxAttempts
           then j.(status := Failed, lockedAt := None) else j
  {
  }

  /** An owner's requeue gives a failed job its attempts back, available now, and touches no other. */
  lemma RequeueExactly(j: Job, now: int)
    ensures RequeueFailed(j, now) != j ==> j.status == Failed
    ensures j.status == Failed ==>
      var r := RequeueFailed(j, now);
      r.status == Queued && r.attempts == 0 && r.availableAt == now && r.lockedAt == None && r.id == j.id
  {
  }

  lemma TurnCountsAttempts(rows: seq<Job>, t: Turn, p: Policy, i: nat)
    requires WithinLimit(rows) && i < |rows|
    ensures var (next, best) := ProcessOnce(rows, t.now, t.failedAt, t.handling, p);
      && |next| == |rows| && WithinLimit(next)
      && next[i].attempts == rows[i].attempts + (if best == Some(i) then 1 else 0)
      && next[i].maxAttempts == rows[i].maxAttempts
  {
  }

  /** In any run of turns, with failures and crashes, a job is handled at most as often as it has
  attempts left, and no row ever exceeds its limit. */
  lemma {:induction false} HandledWithinLimit(rows: seq<Job>, turns: seq<Turn>, p: Policy, i: nat)
    requires WithinLimit(rows) && i < |rows|
    ensures |Work(rows, turns, p)| == |rows| && WithinLimit(Work(rows, turns, p))
    ensures Work(rows, turns, p)[i].attempts == rows[i].attempts + Handled(rows, turns, p, i)
    ensures rows[i].attempts + Handled(rows, turns, p, i) <= rows[i].maxAttempts
    decreases |turns|
  {
    if turns != [] {
      TurnCountsAttempts(rows, turns[0], p, i);
      var next := ProcessOnce(rows, turns[0].now, turns[0].failedAt, turns[0].handling, p).0;
      HandledWithinLimit(next, turns[1..], p, i);
    }
  }

  /** A job that succeeded, or failed for good, is never handled again. */
  lemma {:induction false} SettledJobsRest(rows: seq<Job>, turns: seq<Turn>, p: Policy, i: nat)
    requires i < |rows| && (rows[i].status == Succeeded || rows[i].status == Failed)
    ensures |Work(rows, turns, p)| == |rows| && Work(rows, turns, p)[i] == rows[i] && Handled(rows, turns, p, i) == 0
    decreases |turns|
  {
    if turns != [] {
      var t := turns[0];
      SettledJobsRest(ProcessOnce(rows, t.now, t.failedAt, t.handling, p).0, turns[1..], p, i);
    }
  }
}

/** The worker over the table, with its loops. */
module Worker {
  import opened Prelude
  import opened Jobs

  class DurableJobWorker {
    const policy: Policy
    var rows: seq<Job>

    constructor (policy: Policy, rows: seq<Job>)
      ensures this.policy == policy && this.rows == rows
    {
      this.policy, this.rows := policy, rows;
    }

    method ExpireStale(staleBefore: int)
      modifies this`rows
      ensures rows == ExpireAll(old(rows), staleBefore)
    {
      for i := 0 to |rows|
        invariant |rows| == |old(rows)|
        invariant forall k :: 0 <= k < i ==> rows[k] == Expire(old(rows)[k], staleBefore)
        invariant forall k :: i <= k < |rows| ==> rows[k] == old(rows)[k]
      {
        rows := rows[i := Expire(rows[i], staleBefore)];
      }
    }

    method FindBest(now: int, staleBefore: int) returns (best: Option<nat>)
      ensures best == Best(rows, now, staleBefore, policy.types)
    {
      best := None;
      for i := 0 to |rows|
        invariant best == Best(rows[..i], now, staleBefore, policy.types)
      {
        assert rows[..i + 1][..i] == rows[..i];
        if Claimable(rows[i], now, staleBefore, policy.types) && (best.None? || Precedes(rows[i], rows[best.value])) {
          best := Some(i);
        }
      }
      assert rows[..|rows|] == rows;
    }

    method ClaimNext(now: int) returns (claimed: Option<nat>)
      modifies this`rows
      ensures claimed.Some? ==> claimed.value < |rows|
      ensures (rows, claimed) == Jobs.ProcessOnce(old(rows), now, now, Dies, policy)
    {
      if policy.types == {} { return None; }
      ExpireStale(now - policy.lease);
      claimed := FindBest(now, now - policy.lease);
      if claimed.Some? {
        rows := rows[claimed.value := Claimed(rows[claimed.value], now)];
      }
    }

    /** Claim one job, run its handler and settle the row. */
    method ProcessOnce(now: int, failedAt: int, handling: Handling) returns (processed: bool)
      modifies this`rows
      ensures rows == Jobs.ProcessOnce(old(rows), now, failedAt, handling, policy).0
      ensures processed == Jobs.ProcessOnce(old(rows), now, failedAt, handling, policy).1.Some?
    {
      var claimed := ClaimNext(now);
      if claimed.None? { return false; }
      var job := rows[claimed.value];
      if handling == Raises {
        var retryAt := RetryAt(job, failedAt, Lookup(policy.retryDelays, job.jobType), policy.cap);
        rows := rows[claimed.value := MarkFailed(job, retryAt)];
      } else if handling == Returns {
        rows := rows[claimed.value := MarkSucceeded(job)];
      }
      return true;
    }

    /** The worker's loop, until it is told to stop. */
    method Run(turns: seq<Turn>)
      modifies this`rows
      ensures rows == Work(old(rows), turns, policy)
    {
      assert turns[0..] == turns;
      for i := 0 to |turns|
        invariant Work(rows, turns[i..], policy) == Work(old(rows), turns, policy)
      {
        var processed := ProcessOnce(turns[i].now, turns[i].failedAt, turns[i].handling);
        assert turns[i..][0] == turns[i] && turns[i..][1..] == turns[i + 1..];
      }
      assert turns[|turns|..] == [];
    }
  }
}
