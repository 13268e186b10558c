/** When the record shows which phase: each is entered by exactly these events. */
module SupervisorPhases {
  import opened Prelude
  import opened Supervisor

  /** The phase was not shown before this event and is shown after it. */
  predicate Enters(w: World, e: Event, phase: Phase)
    requires Enabled(w, e)
  {
    w.process.phase != phase && Step(w, e).process.phase == phase
  }

  /** "Running" is entered exactly when the managed child is found healthy while it is starting. */
  lemma RunningExactly(w: World, e: Event)
    requires Enabled(w, e)
    ensures Enters(w, e, Running) <==>
      e.Healthy? && w.process.phase == Starting && w.process.child == Some(e.pid)
    ensures Enters(w, e, Running) ==> Step(w, e).process == Process(Some(e.pid), Running)
  {
  }

  /** "Starting" is entered exactly when a new child is stored, and "stopping" exactly when a stop
  reached the child with its request. */
  lemma StartingAndStoppingExactly(w: World, e: Event)
    requires Enabled(w, e)
    ensures Enters(w, e, Starting) <==> e.Store? && w.process.phase != Starting
    ensures e.Store? ==> Step(w, e).process == Process(Some(w.command.pid), Starting)
    ensures Enters(w, e, Stopping) <==>
      e.StopCommand? && e.written && w.process.child.Some? && w.process.phase != Stopping
    ensures Enters(w, e, Stopping) ==> Step(w, e).process.child == w.process.child
  {
  }

  /** "Failed" is entered exactly by a failed setup, an unclean exit of the child, a health timeout while
  it is starting, and a stop that waited in vain. */
  lemma FailedExactly(w: World, e: Event)
    requires Enabled(w, e)
    ensures Enters(w, e, Failed) <==>
      && w.process.phase != Failed
      && (|| e.SetupFailed?
          || (e.Deliver? && w.process.child == Some(e.pid) && e.code != Some(0))
          || (e.HealthTimeout? && w.process.child == Some(e.pid) && w.process.phase == Starting)
          || (e.StopWoken? && e.timedOut && w.process.child == Some(w.command.pid)))
  {
  }

  /** "Stopped" is entered exactly by a clean exit of the child that no failure preceded, and by a stop
  that finds no child or whose child is gone. */
  lemma StoppedExactly(w: World, e: Event)
    requires Enabled(w, e)
    ensures Enters(w, e, Stopped) <==>
      && w.process.phase != Stopped
      && (|| (e.Deliver? && w.process.child == Some(e.pid) && e.code == Some(0) && w.process.phase != Failed)
          || (e.StopCommand? && w.process.child.None?)
          || (e.StopWoken? && w.process.child != Some(w.command.pid)))
  {
  }

  /** The child changes exactly when one is stored and when its own end is delivered. */
  lemma ChildChangesExactly(w: World, e: Event)
    requires Consistent(w) && Enabled(w, e)
    ensures Step(w, e).process.child != w.process.child <==>
      e.Store? || (e.Deliver? && w.process.child == Some(e.pid))
    ensures e.Deliver? && w.process.child == Some(e.pid) ==> Step(w, e).process.child == None
  {
  }

  ghost predicate RunningIsEntered(w: World) {
    w.process.phase == Running && w.process.child.Some? ==> w.process.child.value in w.entered
  }

  /** After the first n events the record showed this pid running. */
  ghost predicate RanAfter(w: World, events: seq<Event>, n: nat, pid: Pid)
    requires n <= |events|
  {
    PossibleRun(w, events[..n]) && Run(w, events[..n]).process == Process(Some(pid), Running)
  }

  ghost predicate EverRan(w: World, events: seq<Event>, pid: Pid) {
    exists n :: 0 <= n <= |events| && RanAfter(w, events, n, pid)
  }

  lemma RanAfterShifts(w: World, events: seq<Event>, n: nat, pid: Pid)
    requires events != [] && Enabled(w, events[0]) && n < |events|
    ensures RanAfter(w, events, n + 1, pid) <==> RanAfter(Step(w, events[0]), events[1..], n, pid)
  {
    assert events[..n + 1][1..] == events[1..][..n];
  }

  lemma EverRanFrom(w: World, events: seq<Event>, pid: Pid)
    requires events != [] && Enabled(w, events[0])
    ensures EverRan(w, events, pid) <==>
      w.process == Process(Some(pid), Running) || EverRan(Step(w, events[0]), events[1..], pid)
  {
    assert RanAfter(w, events, 0, pid) <==> w.process == Process(Some(pid), Running);
    if n :| 1 <= n <= |events| && RanAfter(w, events, n, pid) { RanAfterShifts(w, events, n - 1, pid); }
    if n :| 0 <= n <= |events[1..]| && RanAfter(Step(w, events[0]), events[1..], n, pid) {
      RanAfterShifts(w, events, n, pid);
    }
  }

  lemma StepEnters(w: World, e: Event, pid: Pid)
    requires RunningIsEntered(w) && Enabled(w, e)
    ensures RunningIsEntered(Step(w, e))
    ensures pid in Step(w, e).entered <==>
      pid in w.entered || (Enters(w, e, Running) && Step(w, e).process.child == Some(pid))
  {
  }

  /** The pids listed as having entered "running" are exactly those that the record showed running after
  some part of the run. */
  lemma {:induction false} EnteredExactly(w: World, events: seq<Event>, pid: Pid)
    requires RunningIsEntered(w) && PossibleRun(w, events)
    ensures pid in Run(w, events).entered <==> pid in w.entered || EverRan(w, events, pid)
    decreases |events|
  {
    if events == [] {
      assert EverRan(w, events, pid) ==> w.process == Process(Some(pid), Running);
    } else {
      StepEnters(w, events[0], pid);
      RunningExactly(w, events[0]);
      EnteredExactly(Step(w, events[0]), events[1..], pid);
      EverRanFrom(w, events, pid);
      EverRanNow(Step(w, events[0]), events[1..], pid);
    }
  }

  lemma EverRanNow(w: World, events: seq<Event>, pid: Pid)
    ensures w.process == Process(Some(pid), Running) ==> EverRan(w, events, pid)
  {
    assert RanAfter(w, events, 0, pid) <==> w.process == Process(Some(pid), Running);
  }

  /** The ordinary start: check, spawn, store, healthy, and the record shows the daemon running. */
  lemma OrdinaryStart(pid: Pid)
    ensures var events := [StartCheck, Spawn(pid), Store, Healthy(pid)];
      PossibleRun(INITIAL, events) && Run(INITIAL, events).process == Process(Some(pid), Running)
  {
    var w1 := Step(INITIAL, StartCheck);
    var w2 := Step(w1, Spawn(pid));
    var w3 := Step(w2, Store);
    var events := [StartCheck, Spawn(pid), Store, Healthy(pid)];
    assert events[1..] == [Spawn(pid), Store, Healthy(pid)] && events[1..][1..] == [Store, Healthy(pid)];
    assert events[1..][1..][1..] == [Healthy(pid)] && events[1..][1..][1..][1..] == [];
    assert PossibleRun(w3, [Healthy(pid)]) && Run(w3, [Healthy(pid)]) == Run(Step(w3, Healthy(pid)), []);
    assert PossibleRun(w2, events[1..][1..]) && Run(w2, events[1..][1..]) == Run(w3, [Healthy(pid)]);
    assert PossibleRun(w1, events[1..]) && Run(w1, events[1..]) == Run(w2, events[1..][1..]);
  }

  // ---------- What a command answers ----------

  /** The command under way ends exactly when a start is refused or stores its child, and when a stop's
  wait finds the child gone or is over; then the next start can be checked. */
  lemma CommandEndsExactly(w: World, e: Event)
    requires Enabled(w, e) && !w.command.Idle?
    ensures Step(w, e).command.Idle? <==>
      e.StartRefused? || e.Store? || (e.StopWoken? && (e.timedOut || w.process.child != Some(w.command.pid)))
    ensures Step(w, e).command.Idle? ==> Enabled(Step(w, e), StartCheck)
  {
  }

  /** With no command under way the owner can always start and stop, and the application's own start can
  fail exactly while no child is managed. */
  lemma IdleTakesCommands(w: World, written: bool)
    requires w.command.Idle?
    ensures Enabled(w, StartCheck) && Enabled(w, StopCommand(written))
    ensures Enabled(w, SetupFailed) <==> w.process.child.None?
  {
  }

  /** No command is stuck: a checked start can be refused, a spawned child stored, a waiting stop woken; and
  a health task can give up at any time, which changes nothing the owner sees. */
  lemma CommandsGoOn(w: World, timedOut: bool)
    ensures w.command.StartChecked? ==> Enabled(w, StartRefused)
    ensures w.command.Spawned? ==> Enabled(w, Store)
    ensures w.command.StopWaiting? ==> Enabled(w, StopWoken(timedOut))
    ensures forall pid <- w.watching ::
      Enabled(w, WatchAbandoned(pid)) && Step(w, WatchAbandoned(pid)) == w.(watching := w.watching - {pid})
  {
  }

  /** A start goes on to the spawn exactly when no child is managed. */
  lemma StartGoesOnExactly(w: World)
    requires Enabled(w, StartCheck)
    ensures var t := Step(w, StartCheck);
      && (t.command == StartChecked <==> w.process.child.None?)
      && (w.process.child.Some? ==> t == w)
      && t.process == w.process
  {
  }

  /** A stop begins with an answer exactly when no child is managed or the request cannot be written. */
  lemma StopBeginsExactly(p: Process, written: bool)
    ensures var stop := BeginStop(p, written).1;
      && (stop == Answered(true) <==> p.child.None?)
      && (stop == Answered(false) <==> p.child.Some? && !written)
      && (forall pid: Pid :: stop == Waiting(pid) <==> p.child == Some(pid) && written)
  {
  }

  /** The end of this pid was delivered while the wait slept. */
  predicate Ends(wake: Wake, pid: Pid) {
    exists j :: 0 <= j < |wake.terminated| && wake.terminated[j].0 == pid
  }

  /** Its end is delivered by wake-up n, and no timeout precedes that. */
  predicate EndsAt(wakes: seq<Wake>, pid: Pid, n: nat) {
    n < |wakes| && Ends(wakes[n], pid) && forall i :: 0 <= i < n ==> !wakes[i].timedOut
  }

  /** The wait is over at wake-up n, and its end was not delivered by then. */
  predicate TimesOutAt(wakes: seq<Wake>, pid: Pid, n: nat) {
    n < |wakes| && wakes[n].timedOut && forall i :: 0 <= i <= n ==> !Ends(wakes[i], pid)
  }

  ghost predicate EndsInTime(wakes: seq<Wake>, pid: Pid) {
    exists n: nat :: EndsAt(wakes, pid, n)
  }

  ghost predicate TimesOutFirst(wakes: seq<Wake>, pid: Pid) {
    exists n: nat :: TimesOutAt(wakes, pid, n)
  }

  lemma {:induction false} DeliveriesEnd(p: Process, terminated: seq<(Pid, Option<int>)>, pid: Pid)
    requires p.child == Some(pid) || p.child == None
    ensures var child := Deliveries(p, terminated).child; child == p.child || child == None
    ensures p.child == Some(pid) ==>
      (Deliveries(p, terminated).child == Some(pid) <==>
        forall j :: 0 <= j < |terminated| ==> terminated[j].0 != pid)
    decreases |terminated|
  {
    if terminated != [] {
      DeliveriesEnd(OnTerminated(p, terminated[0].0, terminated[0].1), terminated[1..], pid);
      assert forall j :: 1 <= j < |terminated| ==> terminated[j] == terminated[1..][j - 1];
    }
  }

  lemma NextWake(wakes: seq<Wake>, pid: Pid, n: nat)
    requires wakes != [] && !Ends(wakes[0], pid) && !wakes[0].timedOut
    ensures EndsAt(wakes, pid, n + 1) <==> EndsAt(wakes[1..], pid, n)
    ensures TimesOutAt(wakes, pid, n + 1) <==> TimesOutAt(wakes[1..], pid, n)
    ensures !EndsAt(wakes, pid, 0) && !TimesOutAt(wakes, pid, 0)
  {
    var rest := wakes[1..];
    assert forall i :: 1 <= i < |wakes| ==> wakes[i] == rest[i - 1];
    assert forall i :: 0 <= i < |rest| ==> rest[i] == wakes[i + 1];
  }

  lemma LaterWakes(wakes: seq<Wake>, pid: Pid)
    requires wakes != [] && !Ends(wakes[0], pid) && !wakes[0].timedOut
    ensures EndsInTime(wakes, pid) <==> EndsInTime(wakes[1..], pid)
    ensures TimesOutFirst(wakes, pid) <==> TimesOutFirst(wakes[1..], pid)
  {
    NextWake(wakes, pid, 0);
    if n: nat :| EndsAt(wakes, pid, n) { NextWake(wakes, pid, n - 1); }
    if n: nat :| EndsAt(wakes[1..], pid, n) { NextWake(wakes, pid, n); }
    if n: nat :| TimesOutAt(wakes, pid, n) { NextWake(wakes, pid, n - 1); }
    if n: nat :| TimesOutAt(wakes[1..], pid, n) { NextWake(wakes, pid, n); }
  }

  /** The wait for a child answers Ok if and only if the child's end is delivered before any timeout, and
  an error if and only if a timeout comes first; until one of them it waits. */
  lemma {:induction false} WaitAnswersExactly(p: Process, pid: Pid, wakes: seq<Wake>)
    requires p.child == Some(pid)
    ensures var stop := WaitStop(p, pid, wakes).1;
      && (stop == Answered(true) <==> EndsInTime(wakes, pid))
      && (stop == Answered(false) <==> TimesOutFirst(wakes, pid))
      && (stop == Waiting(pid) <==> !EndsInTime(wakes, pid) && !TimesOutFirst(wakes, pid))
    decreases |wakes|
  {
    if wakes != [] {
      var p' := Deliveries(p, wakes[0].terminated);
      DeliveriesEnd(p, wakes[0].terminated, pid);
      if Ends(wakes[0], pid) {
        assert p'.child != Some(pid);
        assert EndsAt(wakes, pid, 0);
      } else if wakes[0].timedOut {
        assert TimesOutAt(wakes, pid, 0);
      } else {
        LaterWakes(wakes, pid);
        WaitAnswersExactly(p', pid, wakes[1..]);
      }
    }
  }

  /** The log holds the last 250 lines of all that was ever logged, oldest first. */
  lemma LogHoldsNewest(history: seq<Line>)
    ensures |Newest(history)| == Min(|history|, 250)
    ensures Newest(history) == history[|history| - |Newest(history)|..]
  {
  }
}
