/** Scheduled remote backups (remote_backup.py): when a check enqueues one, and how far apart. Times
are in seconds. */
module BackupSchedule {
  import opened Prelude

  /** Stored metadata, and the times at which jobs were enqueued. */
  datatype Schedule = Schedule(enqueued: seq<int>, lastEnqueued: Option<int>, lastSuccess: Option<int>)

  datatype Event =
    | Check(now: int, crash: bool)
    | Success(now: int, createdAt: int)

  const EMPTY: Schedule := Schedule([], None, None)

  function LastActivity(s: Schedule): Option<int> {
    match (s.lastSuccess, s.lastEnqueued)
    case (None, e) => e
    case (Some(a), None) => Some(a)
    case (Some(a), Some(b)) => if a < b then Some(b) else Some(a)
  }

  predicate IsDue(s: Schedule, now: int, interval: nat) {
    LastActivity(s).None? || now - LastActivity(s).value >= interval
  }

  /** The job is stored first, the metadata second; a crash may come in between. */
  function Step(s: Schedule, e: Event, interval: nat): Schedule {
    match e
    case Check(now, crash) =>
      if !IsDue(s, now, interval) then s
      else s.(enqueued := s.enqueued + [now], lastEnqueued := if crash then s.lastEnqueued else Some(now))
    case Success(_, createdAt) => s.(lastSuccess := Some(createdAt))
  }

  function Run(s: Schedule, events: seq<Event>, interval: nat): Schedule
    decreases |events|
  {
    if events == [] then s else Run(Step(s, events[0], interval), events[1..], interval)
  }

  class RemoteBackupScheduler {
    const interval: nat
    var enqueued: seq<int>
    var lastEnqueued: Option<int>
    var lastSuccess: Option<int>

    constructor (interval: nat)
      ensures this.interval == interval && View() == EMPTY
    {
      this.interval := interval;
      enqueued, lastEnqueued, lastSuccess := [], None, None;
    }

    ghost function View(): Schedule
      reads this
    {
      Schedule(enqueued, lastEnqueued, lastSuccess)
    }

    method EnqueueIfDue(now: int, crash: bool) returns (stored: bool)
      modifies this`enqueued, this`lastEnqueued
      ensures View() == Step(old(View()), Check(now, crash), interval)
      ensures stored == IsDue(old(View()), now, interval)
    {
      var activity := lastSuccess;
      if lastEnqueued.Some? && (activity.None? || activity.value < lastEnqueued.value) {
        activity := lastEnqueued;
      }
      if activity.Some? && now - activity.value < interval { return false; }
      enqueued := enqueued + [now];
      if !crash { lastEnqueued := Some(now); }
      return true;
    }

    method RecordSuccess(now: int, createdAt: int)
      modifies this`lastSuccess
      ensures View() == Step(old(View()), Success(now, createdAt), interval)
    {
      lastSuccess := Some(createdAt);
    }

    /** The hourly loop, with the successes the worker records in between. */
    method Loop(events: seq<Event>)
      modifies this`enqueued, this`lastEnqueued, this`lastSuccess
      ensures View() == Run(old(View()), events, interval)
    {
      assert events[0..] == events;
      for i := 0 to |events|
        invariant Run(View(), events[i..], interval) == Run(old(View()), events, interval)
      {
        assert events[i..][0] == events[i] && events[i..][1..] == events[i + 1..];
        match events[i]
        case Check(now, crash) => var stored := EnqueueIfDue(now, crash);
        case Success(now, createdAt) => RecordSuccess(now, createdAt);
      }
      assert events[|events|..] == [];
    }
  }
}

module BackupScheduleProofs {
  import opened Prelude
  import opened BackupSchedule

  /** A check is due exactly when neither the last success nor the last enqueue covers the interval. */
  lemma DueExactly(s: Schedule, now: int, interval: nat)
    ensures IsDue(s, now, interval) <==>
      && (s.lastSuccess.Some? ==> now - s.lastSuccess.value >= interval)
      && (s.lastEnqueued.Some? ==> now - s.lastEnqueued.value >= interval)
  {
  }

  // ---------- Spacing ----------

  ghost predicate Spaced(times: seq<int>, interval: nat) {
    forall i :: 0 <= i < |times| - 1 ==> times[i] + interval <= times[i + 1]
  }

  /** The metadata knows the last enqueue. */
  ghost predicate Known(s: Schedule) {
    s.enqueued != [] ==> s.lastEnqueued == Some(s.enqueued[|s.enqueued| - 1])
  }

  predicate Crashes(e: Event) {
    e.Check? && e.crash
  }

  /** Without a crash between the two writes, consecutive scheduled backups are at least one interval
  apart, whatever checks and successes happen, at whatever times. */
  lemma {:induction false} EnqueuesAreSpaced(s: Schedule, events: seq<Event>, interval: nat)
    requires Spaced(s.enqueued, interval) && Known(s)
    requires forall i :: 0 <= i < |events| ==> !Crashes(events[i])
    ensures Spaced(Run(s, events, interval).enqueued, interval) && Known(Run(s, events, interval))
    decreases |events|
  {
    if events != [] {
      assert !Crashes(events[0]);
      EnqueuesAreSpaced(Step(s, events[0], interval), events[1..], interval);
    }
  }

  lemma {:induction false} EnqueuedGrows(s: Schedule, events: seq<Event>, interval: nat)
    ensures s.enqueued <= Run(s, events, interval).enqueued
    decreases |events|
  {
    if events != [] { EnqueuedGrows(Step(s, events[0], interval), events[1..], interval); }
  }

  /** None of these events enqueues a backup. */
  ghost predicate Quiet(s: Schedule, events: seq<Event>, interval: nat) {
    Run(s, events, interval).enqueued == s.enqueued
  }

  /** Then the stored time of the last enqueue stays as well. */
  lemma {:induction false} QuietKeepsTime(s: Schedule, events: seq<Event>, interval: nat)
    requires Quiet(s, events, interval)
    ensures Run(s, events, interval).lastEnqueued == s.lastEnqueued
    decreases |events|
  {
    if events != [] {
      var t := Step(s, events[0], interval);
      EnqueuedGrows(t, events[1..], interval);
      QuietKeepsTime(t, events[1..], interval);
    }
  }

  lemma {:induction false} SuccessesAreQuiet(s: Schedule, events: seq<Event>, interval: nat)
    requires forall i :: 0 <= i < |events| ==> events[i].Success?
    ensures Quiet(s, events, interval)
    decreases |events|
  {
    if events != [] { SuccessesAreQuiet(Step(s, events[0], interval), events[1..], interval); }
  }

  /** Whatever happens in between that enqueues nothing, backups recorded and checks that are not due:
  a check less than an interval after an enqueue stores the next job if and only if the process died
  before the time of the first was stored, and no success that is recorded by then covers the check. */
  lemma EnqueuesAgainExactly(s: Schedule, now: int, crash: bool, between: seq<Event>, later: int, interval: nat)
    requires IsDue(s, now, interval) && now <= later < now + interval
    requires Quiet(Step(s, Check(now, crash), interval), between, interval)
    ensures var t := Run(Step(s, Check(now, crash), interval), between, interval);
      IsDue(t, later, interval) <==> crash && (t.lastSuccess.Some? ==> later - t.lastSuccess.value >= interval)
  {
    var s1 := Step(s, Check(now, crash), interval);
    QuietKeepsTime(s1, between, interval);
    DueExactly(s, now, interval);
    DueExactly(Run(s1, between, interval), later, interval);
  }

  /** After the same crash a backup that ran in between keeps the next check from being due. */
  lemma SuccessCoversCrash(interval: nat)
    requires interval > 2
    ensures Run(EMPTY, [Check(0, true), Success(1, 0), Check(2, false)], interval).enqueued == [0]
  {
    var s1 := Step(EMPTY, Check(0, true), interval);
    var s2 := Step(s1, Success(1, 0), interval);
    var events := [Check(0, true), Success(1, 0), Check(2, false)];
    assert events[1..] == [Success(1, 0), Check(2, false)] && events[1..][1..] == [Check(2, false)];
    assert Run(s2, [Check(2, false)], interval) == Run(Step(s2, Check(2, false), interval), [], interval);
    assert Run(s1, events[1..], interval) == Run(s2, events[1..][1..], interval);
  }

  /** From the empty schedule: the process dies in the first check, and the next one, a second later,
  enqueues a second backup. */
  lemma TwoBackupsAfterCrash(interval: nat)
    requires interval > 1
    ensures Run(EMPTY, [Check(0, true), Check(1, false)], interval).enqueued == [0, 1]
  {
    var s := Step(EMPTY, Check(0, true), interval);
    assert [Check(0, true), Check(1, false)][1..] == [Check(1, false)];
    assert Run(s, [Check(1, false)], interval) == Run(Step(s, Check(1, false), interval), [], interval);
  }

  // ---------- How many in a window ----------

  predicate InWindow(time: int, start: int, length: nat) {
    start <= time <= start + length
  }

  /** How many of the times lie in the window. */
  function Count(times: seq<int>, start: int, length: nat): nat {
    if times == [] then 0
    else
      var last := |times| - 1;
      Count(times[..last], start, length) + if InWindow(times[last], start, length) then 1 else 0
  }

  lemma {:induction false} SpacedBefore(times: seq<int>, interval: nat, i: nat, j: nat)
    requires Spaced(times, interval) && i < j < |times|
    ensures times[i] + interval <= times[j]
    decreases j
  {
    assert times[j - 1] + interval <= times[j];
    if i < j - 1 { SpacedBefore(times, interval, i, j - 1); }
  }

  lemma OneMore(n: nat, interval: nat)
    requires n > 0
    ensures n * interval == (n - 1) * interval + interval
  {
  }

  /** The last of the counted times is at least so many intervals after the start. */
  lemma {:induction false} LastOfWindow(times: seq<int>, interval: nat, start: int, length: nat) returns (k: nat)
    requires Spaced(times, interval) && Count(times, start, length) > 0
    ensures k < |times| && InWindow(times[k], start, length)
    ensures start + (Count(times, start, length) - 1) * interval <= times[k]
    decreases |times|
  {
    var last := |times| - 1;
    var before := Count(times[..last], start, length);
    if before == 0 {
      k := last;
    } else {
      k := LastOfWindow(times[..last], interval, start, length);
      if InWindow(times[last], start, length) {
        SpacedBefore(times, interval, k, last);
        OneMore(before, interval);
        k := last;
      }
    }
  }

  lemma SpacedWindow(times: seq<int>, interval: nat, start: int, length: nat)
    requires Spaced(times, interval) && interval > 0
    ensures Count(times, start, length) <= length / interval + 1
  {
    var n := Count(times, start, length);
    if n > 0 {
      var k := LastOfWindow(times, interval, start, length);
      DivisionBound(n - 1, interval, length);
    }
  }

  /** From the empty schedule, without a crash between the two writes: any window of length L holds at
  most L / interval + 1 scheduled backups, in every run. */
  lemma WindowHoldsAtMost(events: seq<Event>, interval: nat, start: int, length: nat)
    requires interval > 0 && forall i :: 0 <= i < |events| ==> !Crashes(events[i])
    ensures Count(Run(EMPTY, events, interval).enqueued, start, length) <= length / interval + 1
  {
    EnqueuesAreSpaced(EMPTY, events, interval);
    SpacedWindow(Run(EMPTY, events, interval).enqueued, interval, start, length);
  }

  lemma NextMultiple(n: nat, q: nat, d: nat)
    requires n > q
    ensures n * d >= q * d + d
  {
    assert n * d == q * d + (n - q) * d;
    assert (n - q) * d == d + (n - q - 1) * d;
  }

  lemma DivisionBound(n: nat, d: nat, length: nat)
    requires d > 0 && n * d <= length
    ensures n <= length / d
  {
    assert length == length / d * d + length % d;
    if n > length / d { NextMultiple(n, length / d, d); }
  }

  // ---------- Gaps ----------

  /** Events in time order, checks at most d apart (the last one at `lastCheck`), and no backup recorded
  before it was made. */
  ghost predicate Timely(lastCheck: int, events: seq<Event>, d: nat)
    decreases |events|
  {
    events == [] ||
    (&& lastCheck <= events[0].now <= lastCheck + d
     && (events[0].Success? ==> events[0].createdAt <= events[0].now)
     && Timely(if events[0].Check? then events[0].now else lastCheck, events[1..], d))
  }

  function Later(a: int, b: int): int {
    if a < b then b else a
  }

  /** The time of the newest activity, whatever the metadata remember: a job enqueued or a backup made. */
  function Newest(s: Schedule, newest: int, e: Event, interval: nat): int {
    match e
    case Check(now, _) => if IsDue(s, now, interval) then Later(newest, now) else newest
    case Success(_, createdAt) => Later(newest, createdAt)
  }

  /** Every event comes less than `bound` after the newest activity before it. */
  ghost predicate GapsBelow(s: Schedule, newest: int, events: seq<Event>, interval: nat, bound: int)
    decreases |events|
  {
    events == [] ||
    (&& events[0].now - newest < bound
     && GapsBelow(Step(s, events[0], interval), Newest(s, newest, events[0], interval), events[1..], interval, bound))
  }

  /** The metadata never run ahead of the activity. */
  ghost predicate NotAhead(s: Schedule, newest: int) {
    LastActivity(s).Some? ==> LastActivity(s).value <= newest
  }

  lemma StepNotAhead(s: Schedule, newest: int, e: Event, interval: nat)
    requires NotAhead(s, newest)
    ensures NotAhead(Step(s, e, interval), Newest(s, newest, e, interval))
    ensures Newest(s, newest, e, interval) >= newest
    ensures e.Check? && interval > 0 ==> e.now - Newest(s, newest, e, interval) < interval
  {
  }

  /** With checks at most d apart every event comes less than interval + d after the newest activity
  before it, so the gaps between activities stay below interval + d: with crashes, and in whatever
  order backups are recorded. */
  lemma {:induction false} GapsStayBelow(
      s: Schedule, newest: int, lastCheck: int, events: seq<Event>, interval: nat, d: nat)
    requires interval > 0 && NotAhead(s, newest) && lastCheck - newest < interval && Timely(lastCheck, events, d)
    ensures GapsBelow(s, newest, events, interval, interval + d)
    decreases |events|
  {
    if events != [] {
      StepNotAhead(s, newest, events[0], interval);
      GapsStayBelow(Step(s, events[0], interval), Newest(s, newest, events[0], interval),
                    if events[0].Check? then events[0].now else lastCheck, events[1..], interval, d);
    }
  }
}
