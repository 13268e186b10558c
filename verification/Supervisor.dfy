/** The desktop service supervisor (lib.rs): one mutex-guarded record of the managed daemon,
changed by owner commands, by the task that reads process events and by the health watcher.

Every function here is one section under the mutex. Messages shown to the owner are not modelled. */
module Supervisor {
  import opened Prelude

  type Pid = nat

  datatype Phase = Stopped | Starting | Running | Stopping | Failed

  datatype Process = Process(child: Option<Pid>, phase: Phase)

  function StoreChild(pid: Pid): Process {
    Process(Some(pid), Starting)
  }

  function OnTerminated(p: Process, pid: Pid, code: Option<int>): Process {
    if p.child != Some(pid) then p
    else Process(None, if p.phase == Failed then Failed else if code == Some(0) then Stopped else Failed)
  }

  function OnHealthy(p: Process, pid: Pid): Process {
    if p.child == Some(pid) && p.phase == Starting then p.(phase := Running) else p
  }

  function OnHealthTimeout(p: Process, pid: Pid): Process {
    if p.child == Some(pid) && p.phase == Starting then p.(phase := Failed) else p
  }

  /** What a stop command has reached: an answer, or waiting for one pid to go. */
  datatype Stop = Answered(ok: bool) | Waiting(pid: Pid)

  function BeginStop(p: Process, written: bool): (Process, Stop) {
    match p.child
    case None => (p.(phase := Stopped), Answered(true))
    case Some(pid) => if !written then (p, Answered(false)) else (p.(phase := Stopping), Waiting(pid))
  }

  /** One turn of the wait loop, on entry or after the condition variable woke it. */
  function CheckStop(p: Process, pid: Pid, timedOut: bool): (Process, Stop) {
    if p.child != Some(pid) then (p.(phase := Stopped), Answered(true))
    else if timedOut then (p.(phase := Failed), Answered(false))
    else (p, Waiting(pid))
  }

  // ---------- Interleavings ----------

  /** Commands run one at a time; their lock sections interleave with the spawned tasks. */
  datatype Command = Idle | StartChecked | Spawned(pid: Pid) | StopWaiting(pid: Pid)

  /** `live` are the processes the system runs, `exited` those whose termination event is still
  undelivered, `entered` the pids that became "running", oldest first. */
  datatype World = World(
    process: Process, command: Command,
    live: set<Pid>, exited: set<Pid>, used: set<Pid>,
    listening: set<Pid>, watching: set<Pid>, entered: seq<Pid>)

  const INITIAL: World := World(Process(None, Stopped), Idle, {}, {}, {}, {}, {}, [])

  datatype Event =
    | StartCheck                                // first lock section of a start
    | StartRefused                              // busy port, settings or spawn failure
    | SetupFailed                               // the failed start of the application setup
    | Spawn(pid: Pid)
    | Store                                     // second lock section of a start
    | StopCommand(written: bool)
    | StopWoken(timedOut: bool)
    | Exit(pid: Pid)                            // the operating system ends a process
    | Deliver(pid: Pid, code: Option<int>)      // event task
    | Healthy(pid: Pid) | HealthTimeout(pid: Pid) | WatchAbandoned(pid: Pid)   // health task

  /** The system never reuses the pid of an earlier managed child. */
  predicate Enabled(w: World, e: Event) {
    match e
    case StartCheck => w.command.Idle?
    case StartRefused => w.command.StartChecked?
    case SetupFailed => w.command.Idle? && w.process.child.None?
    case Spawn(pid) => w.command.StartChecked? && pid !in w.used
    case Store => w.command.Spawned?
    case StopCommand(_) => w.command.Idle?
    case StopWoken(_) => w.command.StopWaiting?
    case Exit(pid) => pid in w.live
    case Deliver(pid, _) => pid in w.exited && pid in w.listening
    case Healthy(pid) => pid in w.watching
    case HealthTimeout(pid) => pid in w.watching
    case WatchAbandoned(pid) => pid in w.watching
  }

  function AfterStop(w: World, r: (Process, Stop)): World {
    w.(process := r.0, command := if r.1.Waiting? then StopWaiting(r.1.pid) else Idle)
  }

  function Step(w: World, e: Event): World
    requires Enabled(w, e)
  {
    match e
    case StartCheck => if w.process.child.Some? then w else w.(command := StartChecked)
    case StartRefused => w.(command := Idle)
    case SetupFailed => w.(process := w.process.(phase := Failed))
    case Spawn(pid) => w.(command := Spawned(pid), live := w.live + {pid}, used := w.used + {pid})
    case Store =>
      var pid := w.command.pid;
      w.(process := StoreChild(pid), command := Idle, listening := w.listening + {pid}, watching := w.watching + {pid})
    case StopCommand(written) => AfterStop(w, BeginStop(w.process, written))
    case StopWoken(timedOut) => AfterStop(w, CheckStop(w.process, w.command.pid, timedOut))
    case Exit(pid) => w.(live := w.live - {pid}, exited := w.exited + {pid})
    case Deliver(pid, code) =>
      w.(process := OnTerminated(w.process, pid, code), exited := w.exited - {pid}, listening := w.listening - {pid})
    case Healthy(pid) =>
      var p := OnHealthy(w.process, pid);
      w.(process := p, watching := w.watching - {pid},
         entered := if p != w.process then w.entered + [pid] else w.entered)
    case HealthTimeout(pid) => w.(process := OnHealthTimeout(w.process, pid), watching := w.watching - {pid})
    case WatchAbandoned(pid) => w.(watching := w.watching - {pid})
  }

  predicate PossibleRun(w: World, events: seq<Event>)
    decreases |events|
  {
    events == [] || (Enabled(w, events[0]) && PossibleRun(Step(w, events[0]), events[1..]))
  }

  function Run(w: World, events: seq<Event>): World
    requires PossibleRun(w, events)
    decreases |events|
  {
    if events == [] then w else Run(Step(w, events[0]), events[1..])
  }

  /** The phase tells whether a child is managed; every process of the daemon that the system
  still knows is the managed child or the one being stored; at most one is managed; a pid
  enters "running" at most once. */
  ghost predicate Consistent(w: World) {
    && (w.process.phase in {Starting, Running, Stopping} ==> w.process.child.Some?)
    && (w.process.phase == Stopped ==> w.process.child.None?)
    && (w.command.StartChecked? || w.command.Spawned? ==> w.process.child.None?)
    && (w.command.StopWaiting? ==> w.process.child == None || w.process.child == Some(w.command.pid))
    && Known(w)
    && w.live !! w.exited
    && w.listening <= w.used && w.watching <= w.used
    && (forall pid: Pid :: w.process.child == Some(pid) || w.command == Spawned(pid) ==> pid in w.used)
    && (forall pid: Pid :: w.process.child == Some(pid) ==> pid in w.listening)
    && (forall pid: Pid :: w.command == Spawned(pid) ==> pid !in w.listening && pid !in w.watching && pid !in w.entered)
    && EnteredOnce(w)
  }

  /** Every process the system knows is the managed child or the one being stored. */
  ghost predicate Known(w: World) {
    forall pid: Pid :: pid in w.live + w.exited <==> w.process.child == Some(pid) || w.command == Spawned(pid)
  }

  lemma StepKeepsKnown(w: World, e: Event)
    requires Consistent(w) && Enabled(w, e)
    ensures Known(Step(w, e))
  {
    var w' := Step(w, e);
    forall pid: Pid
      ensures pid in w'.live + w'.exited <==> w'.process.child == Some(pid) || w'.command == Spawned(pid)
    {
      assert pid in w.live + w.exited <==> w.process.child == Some(pid) || w.command == Spawned(pid);
    }
  }

  ghost predicate EnteredOnce(w: World) {
    && (forall pid: Pid :: pid in w.entered ==> pid in w.used)
    && (forall i, j :: 0 <= i < j < |w.entered| ==> w.entered[i] != w.entered[j])
    && (w.process.phase == Starting ==> forall pid: Pid :: w.process.child == Some(pid) ==> pid !in w.entered)
  }

  lemma StepKeepsEntered(w: World, e: Event)
    requires Consistent(w) && Enabled(w, e)
    ensures EnteredOnce(Step(w, e))
  {
  }

  lemma StepKeepsConsistent(w: World, e: Event)
    requires Consistent(w) && Enabled(w, e)
    ensures Consistent(Step(w, e))
  {
    StepKeepsKnown(w, e);
    StepKeepsEntered(w, e);
  }

  /** Every interleaving of serialised commands with event and health tasks keeps the invariant. */
  lemma {:induction false} RunsKeepConsistent(w: World, events: seq<Event>)
    requires Consistent(w) && PossibleRun(w, events)
    ensures Consistent(Run(w, events))
    decreases |events|
  {
    if events != [] {
      StepKeepsConsistent(w, events[0]);
      RunsKeepConsistent(Step(w, events[0]), events[1..]);
    }
  }

  lemma InitialConsistent()
    ensures Consistent(INITIAL)
  {
  }

  /** From application start: never two daemon processes at once, and no daemon process without
  a managed child once no start is under way. */
  lemma AtMostOneDaemon(events: seq<Event>)
    requires PossibleRun(INITIAL, events)
    ensures var w := Run(INITIAL, events);
      && (forall p, q :: p in w.live && q in w.live ==> p == q)
      && (w.process.phase == Stopped && !w.command.Spawned? ==> w.live == {} && w.exited == {})
      && (w.process.phase in {Starting, Running, Stopping} ==> w.process.child.Some?)
      && (forall i, j :: 0 <= i < j < |w.entered| ==> w.entered[i] != w.entered[j])
  {
    InitialConsistent();
    RunsKeepConsistent(INITIAL, events);
    var w := Run(INITIAL, events);
    forall p, q | p in w.live && q in w.live ensures p == q {
      IsManagedOrStored(w, p);
      IsManagedOrStored(w, q);
    }
    forall p ensures w.process.phase == Stopped && !w.command.Spawned? ==> p !in w.live && p !in w.exited {
      IsManagedOrStored(w, p);
    }
  }

  lemma IsManagedOrStored(w: World, pid: Pid)
    requires Consistent(w)
    ensures pid in w.live || pid in w.exited ==> w.process.child == Some(pid) || w.command == Spawned(pid)
    ensures w.command.Spawned? ==> w.process.child.None?
  {
    assert pid in w.live + w.exited <==> pid in w.live || pid in w.exited;
  }

  /** A stop that answers Ok leaves no child and no daemon process. */
  lemma OkStopLeavesNothing(w: World, e: Event)
    requires Consistent(w) && Enabled(w, e)
    requires match e
      case StopCommand(written) => BeginStop(w.process, written).1 == Answered(true)
      case StopWoken(timedOut) => CheckStop(w.process, w.command.pid, timedOut).1 == Answered(true)
      case _ => false
    ensures var w' := Step(w, e);
      w'.process == Process(None, Stopped) && w'.live == {} && w'.exited == {} && w'.command.Idle?
  {
    StepKeepsConsistent(w, e);
    var w' := Step(w, e);
    forall p ensures p !in w'.live && p !in w'.exited {
      IsManagedOrStored(w', p);
    }
  }

  /** Once a pid is no longer the child it never is again, so its tasks change nothing any more. */
  lemma {:induction false} RetiredPidStaysInert(w: World, events: seq<Event>, pid: Pid)
    requires Consistent(w) && PossibleRun(w, events)
    requires pid in w.used && w.process.child != Some(pid) && w.command != Spawned(pid)
    ensures var w' := Run(w, events);
      && w'.process.child != Some(pid) && w'.command != Spawned(pid) && pid !in w'.live
      && OnTerminated(w'.process, pid, Some(0)) == OnTerminated(w'.process, pid, None) == w'.process
      && OnHealthy(w'.process, pid) == OnHealthTimeout(w'.process, pid) == w'.process
    decreases |events|
  {
    if events == [] {
      assert pid !in w.live + w.exited;
    } else {
      StepKeepsConsistent(w, events[0]);
      RetiredPidStaysInert(Step(w, events[0]), events[1..], pid);
    }
  }

  /** The managed child's end is shown as it happened: stopped exactly after a clean exit that no
  failure preceded, failed otherwise. */
  lemma ExitIsShown(w: World, pid: Pid, code: Option<int>)
    requires Consistent(w) && Enabled(w, Deliver(pid, code)) && w.process.child == Some(pid)
    ensures var p := Step(w, Deliver(pid, code)).process;
      && p.child.None?
      && (p.phase == Stopped <==> code == Some(0) && w.process.phase != Failed)
      && (p.phase == Failed <==> code != Some(0) || w.process.phase == Failed)
  {
  }

  /** A failure stays visible: whatever processes and tasks do, only a later start or stop of the
  owner replaces it. */
  lemma {:induction false} FailureStaysVisible(w: World, events: seq<Event>)
    requires PossibleRun(w, events) && w.process.phase == Failed
    requires forall e :: e in events ==> !e.Store? && !e.StopCommand? && !e.StopWoken?
    ensures Run(w, events).process.phase == Failed
    decreases |events|
  {
    if events != [] {
      assert events[0] in events;
      FailureStaysVisible(Step(w, events[0]), events[1..]);
    }
  }

  // ---------- Why commands are serialised and pids not reused ----------

  /** The same lock sections with several commands under way; with `reuse` the system may hand out the
  pid of a process that is gone. */
  datatype Loose = Loose(world: World, commands: seq<Command>, reuse: bool)

  datatype LooseEvent = By(command: nat, event: Event)

  function Slot(l: Loose, i: nat): World
    requires i < |l.commands|
  {
    l.world.(command := l.commands[i], used := if l.reuse then l.world.live else l.world.used)
  }

  predicate LooseEnabled(l: Loose, e: LooseEvent) {
    e.command < |l.commands| && Enabled(Slot(l, e.command), e.event)
  }

  function LooseStep(l: Loose, e: LooseEvent): Loose
    requires LooseEnabled(l, e)
  {
    var w := Step(Slot(l, e.command), e.event);
    l.(world := w.(command := Idle, used := l.world.used + w.used), commands := l.commands[e.command := w.command])
  }

  predicate LoosePossible(l: Loose, events: seq<LooseEvent>)
    decreases |events|
  {
    events == [] || (LooseEnabled(l, events[0]) && LoosePossible(LooseStep(l, events[0]), events[1..]))
  }

  function LooseRun(l: Loose, events: seq<LooseEvent>): Loose
    requires LoosePossible(l, events)
    decreases |events|
  {
    if events == [] then l else LooseRun(LooseStep(l, events[0]), events[1..])
  }

  function Alone(w: World): Loose {
    Loose(w.(command := Idle), [w.command], false)
  }

  /** With one command at a time and no reuse these are the steps proved above. */
  lemma AloneIsSerialised(w: World, e: Event)
    requires w.live <= w.used && Enabled(w, e)
    ensures LooseEnabled(Alone(w), By(0, e)) && LooseStep(Alone(w), By(0, e)) == Alone(Step(w, e))
  {
    assert Slot(Alone(w), 0) == w;
  }

  function Events(events: seq<LooseEvent>): (r: seq<Event>)
    ensures |r| == |events| && forall i :: 0 <= i < |r| ==> r[i] == events[i].event
  {
    seq(|events|, i requires 0 <= i < |events| => events[i].event)
  }

  lemma LiveIsUsed(w: World)
    requires Consistent(w)
    ensures w.live <= w.used
  {
    forall pid | pid in w.live ensures pid in w.used {
      IsManagedOrStored(w, pid);
    }
  }

  lemma AloneEnabledExactly(w: World, e: LooseEvent)
    requires w.live <= w.used
    ensures LooseEnabled(Alone(w), e) <==> e.command == 0 && Enabled(w, e.event)
  {
    assert Slot(Alone(w), 0) == w;
  }

  /** So its runs are exactly the proved runs, and keep their invariant. */
  lemma {:induction false} AloneRunsAreSerialised(w: World, events: seq<LooseEvent>)
    requires Consistent(w)
    ensures LoosePossible(Alone(w), events) <==>
      PossibleRun(w, Events(events)) && forall i :: 0 <= i < |events| ==> events[i].command == 0
    ensures LoosePossible(Alone(w), events) ==>
      LooseRun(Alone(w), events) == Alone(Run(w, Events(events))) && Consistent(Run(w, Events(events)))
    decreases |events|
  {
    if events != [] {
      LiveIsUsed(w);
      AloneEnabledExactly(w, events[0]);
      assert Events(events)[1..] == Events(events[1..]);
      if Enabled(w, events[0].event) {
        AloneIsSerialised(w, events[0].event);
        StepKeepsConsistent(w, events[0].event);
        AloneRunsAreSerialised(Step(w, events[0].event), events[1..]);
        assert forall i :: 0 < i < |events| ==> events[i] == events[1..][i - 1];
      }
    }
  }

  ghost predicate Leads(a: Loose, e: LooseEvent, b: Loose) {
    LooseEnabled(a, e) && LooseStep(a, e) == b
  }

  /** A run through given states. */
  lemma {:induction false} RunThrough(states: seq<Loose>, events: seq<LooseEvent>)
    requires |states| == |events| + 1
    requires forall i :: 0 <= i < |events| ==> Leads(states[i], events[i], states[i + 1])
    ensures LoosePossible(states[0], events) && LooseRun(states[0], events) == states[|events|]
    decreases |events|
  {
    if events != [] {
      assert Leads(states[0], events[0], states[1]);
      RunThrough(states[1..], events[1..]);
    }
  }

  const TWO_STARTS: seq<LooseEvent> :=
    [By(0, StartCheck), By(1, StartCheck), By(0, Spawn(1)), By(0, Store), By(1, Spawn(2)), By(1, Store)]

  const STOP_AFTER: seq<LooseEvent> :=
    [By(0, StopCommand(true)), By(0, Exit(2)), By(0, Deliver(2, Some(0))), By(0, StopWoken(false))]

  const BOTH_STORED: Loose :=
    Loose(World(StoreChild(2), Idle, {1, 2}, {}, {1, 2}, {1, 2}, {1, 2}, []), [Idle, Idle], false)

  const ONE_LEFT: Loose :=
    Loose(World(Process(None, Stopped), Idle, {1}, {}, {1, 2}, {1}, {1, 2}, []), [Idle, Idle], false)

  /** Why commands must be serialised: from application start, two starts that both passed the check
  before either stored its child end with two daemon processes, one of them managed; a stop then
  answers Ok and leaves the other one running. */
  lemma InterleavedStartsLoseAChild()
    ensures var l := Loose(INITIAL, [Idle, Idle], false);
      && LoosePossible(l, TWO_STARTS) && LooseRun(l, TWO_STARTS) == BOTH_STORED
      && LoosePossible(BOTH_STORED, STOP_AFTER) && LooseRun(BOTH_STORED, STOP_AFTER) == ONE_LEFT
      && BOTH_STORED.world.live == {1, 2} && BOTH_STORED.world.process.child == Some(2)
      && ONE_LEFT.world.process == Process(None, Stopped) && ONE_LEFT.world.live == {1}
  {
    TwoStartsRun();
    StopAfterRun();
  }

  lemma TwoStartsRun()
    ensures var l := Loose(INITIAL, [Idle, Idle], false);
      LoosePossible(l, TWO_STARTS) && LooseRun(l, TWO_STARTS) == BOTH_STORED
  {
    var states := [
      Loose(INITIAL, [Idle, Idle], false),
      Loose(INITIAL, [StartChecked, Idle], false),
      Loose(INITIAL, [StartChecked, StartChecked], false),
      Loose(INITIAL.(live := {1}, used := {1}), [Spawned(1), StartChecked], false),
      Loose(World(StoreChild(1), Idle, {1}, {}, {1}, {1}, {1}, []), [Idle, StartChecked], false),
      Loose(World(StoreChild(1), Idle, {1, 2}, {}, {1, 2}, {1}, {1}, []), [Idle, Spawned(2)], false),
      BOTH_STORED];
    RunThrough(states, TWO_STARTS);
  }

  lemma StopAfterRun()
    ensures LoosePossible(BOTH_STORED, STOP_AFTER) && LooseRun(BOTH_STORED, STOP_AFTER) == ONE_LEFT
  {
    var w := BOTH_STORED.world.(process := Process(Some(2), Stopping));
    var states := [
      BOTH_STORED,
      Loose(w, [StopWaiting(2), Idle], false),
      Loose(w.(live := {1}, exited := {2}), [StopWaiting(2), Idle], false),
      Loose(ONE_LEFT.world, [StopWaiting(2), Idle], false),
      ONE_LEFT];
    RunThrough(states, STOP_AFTER);
  }

  /** A daemon that ended while its health watcher still asks. */
  const FIRST_LIFE: seq<LooseEvent> :=
    [By(0, StartCheck), By(0, Spawn(1)), By(0, Store), By(0, Exit(1)), By(0, Deliver(1, Some(1)))]

  const GONE: Loose := Loose(World(Process(None, Failed), Idle, {}, {}, {1}, {}, {1}, []), [Idle], true)

  const SECOND_LIFE: seq<LooseEvent> :=
    [By(0, StartCheck), By(0, Spawn(1)), By(0, Store), By(0, HealthTimeout(1))]

  const FAILED_AT_ONCE: Loose :=
    Loose(World(Process(Some(1), Failed), Idle, {1}, {}, {1}, {1}, {}, []), [Idle], true)

  /** Why pids must not be reused: the watcher of the first daemon is still there when the second one
  gets its pid, and its timeout fails the record of the second, which has just begun to run. */
  lemma ReusedPidFailsTheNewChild()
    ensures var l := Loose(INITIAL, [Idle], true);
      && LoosePossible(l, FIRST_LIFE) && LooseRun(l, FIRST_LIFE) == GONE && GONE.world.watching == {1}
      && LoosePossible(GONE, SECOND_LIFE) && LooseRun(GONE, SECOND_LIFE) == FAILED_AT_ONCE
      && FAILED_AT_ONCE.world.process == Process(Some(1), Failed) && FAILED_AT_ONCE.world.live == {1}
  {
    FirstLifeRun();
    SecondLifeRun();
  }

  lemma FirstLifeRun()
    ensures var l := Loose(INITIAL, [Idle], true); LoosePossible(l, FIRST_LIFE) && LooseRun(l, FIRST_LIFE) == GONE
  {
    var states := [
      Loose(INITIAL, [Idle], true),
      Loose(INITIAL, [StartChecked], true),
      Loose(INITIAL.(live := {1}, used := {1}), [Spawned(1)], true),
      Loose(World(StoreChild(1), Idle, {1}, {}, {1}, {1}, {1}, []), [Idle], true),
      Loose(World(StoreChild(1), Idle, {}, {1}, {1}, {1}, {1}, []), [Idle], true),
      GONE];
    RunThrough(states, FIRST_LIFE);
  }

  lemma SecondLifeRun()
    ensures LoosePossible(GONE, SECOND_LIFE) && LooseRun(GONE, SECOND_LIFE) == FAILED_AT_ONCE
  {
    var states := [
      GONE,
      GONE.(commands := [StartChecked]),
      Loose(GONE.world.(live := {1}), [Spawned(1)], true),
      Loose(World(StoreChild(1), Idle, {1}, {}, {1}, {1}, {1}, []), [Idle], true),
      FAILED_AT_ONCE];
    RunThrough(states, SECOND_LIFE);
  }

  // ---------- The record itself ----------

  const MAX_LOG_LINES: nat := 250

  datatype Line =
    | Started(pid: Pid)
    | Exited(code: Option<int>)
    | ShutdownRequested
    | ShutdownRequestFailed
    | HealthCheckTimedOut
    | Output(text: string)

  /** The newest lines of everything that was ever logged. */
  function Newest(lines: seq<Line>): seq<Line> {
    if |lines| <= MAX_LOG_LINES then lines else lines[|lines| - MAX_LOG_LINES..]
  }

  /** What other lock sections did while the wait had released the mutex, and how the wait ended. */
  datatype Wake = Wake(terminated: seq<(Pid, Option<int>)>, timedOut: bool)

  function Deliveries(p: Process, terminated: seq<(Pid, Option<int>)>): Process
    decreases |terminated|
  {
    if terminated == [] then p
    else Deliveries(OnTerminated(p, terminated[0].0, terminated[0].1), terminated[1..])
  }

  /** The log lines of these terminations. */
  function ExitLines(terminated: seq<(Pid, Option<int>)>): seq<Line> {
    seq(|terminated|, i requires 0 <= i < |terminated| => Exited(terminated[i].1))
  }

  /** The wait loop against a schedule of wake-ups. */
  function WaitStop(p: Process, pid: Pid, wakes: seq<Wake>): (Process, Stop)
    decreases |wakes|
  {
    if p.child != Some(pid) || wakes == [] then CheckStop(p, pid, false)
    else
      var p' := Deliveries(p, wakes[0].terminated);
      if wakes[0].timedOut then CheckStop(p', pid, true)
      else WaitStop(p', pid, wakes[1..])
  }

  class ServiceState {
    var child: Option<Pid>
    var phase: Phase
    var logs: seq<Line>
    ghost var history: seq<Line>

    ghost predicate Valid()
      reads this
    {
      logs == Newest(history)
    }

    function Record(): Process
      reads this
    {
      Process(child, phase)
    }

    constructor ()
      ensures Valid() && Record() == INITIAL.process && history == []
    {
      child, phase, logs, history := None, Stopped, [], [];
    }

    method PushLog(line: Line)
      requires Valid()
      modifies this`logs, this`history
      ensures Valid() && history == old(history) + [line]
      ensures logs == (if |old(logs)| == 250 then old(logs)[1..] else old(logs)) + [line]
    {
      if |logs| == MAX_LOG_LINES {
        logs := logs[1..];
      }
      logs := logs + [line];
      history := history + [line];
    }

    method Start(pid: Pid)
      requires Valid()
      modifies this
      ensures Valid() && Record() == StoreChild(pid) && history == old(history) + [Started(pid)]
      ensures child == Some(pid) && phase == Starting
    {
      child := Some(pid);
      phase := Starting;
      PushLog(Started(pid));
    }

    method Terminated(pid: Pid, code: Option<int>)
      requires Valid()
      modifies this
      ensures Valid() && Record() == OnTerminated(old(Record()), pid, code) && history == old(history) + [Exited(code)]
      ensures old(child) != Some(pid) ==> child == old(child) && phase == old(phase)
      ensures old(child) == Some(pid) ==> child == None
      ensures old(child) == Some(pid) ==>
        phase == if old(phase) != Failed && code == Some(0) then Stopped else Failed
    {
      if child == Some(pid) {
        child := None;
        if phase != Failed {
          phase := if code == Some(0) then Stopped else Failed;
        }
      }
      PushLog(Exited(code));
    }

    method BecameHealthy(pid: Pid)
      requires Valid()
      modifies this`phase
      ensures Valid() && Record() == OnHealthy(old(Record()), pid)
      ensures child == old(child)
      ensures phase == if old(child) == Some(pid) && old(phase) == Starting then Running else old(phase)
    {
      if child == Some(pid) && phase == Starting {
        phase := Running;
      }
    }

    /** A failed request to shut down is logged only by the watcher that failed the record. */
    method HealthTimedOut(pid: Pid, written: bool)
      requires Valid()
      modifies this`phase, this`logs, this`history
      ensures Valid() && Record() == OnHealthTimeout(old(Record()), pid)
      ensures child == old(child)
      ensures phase == if old(child) == Some(pid) && old(phase) == Starting then Failed else old(phase)
      ensures history == old(history)
        + (if old(Record()) == StoreChild(pid) && !written then [ShutdownRequestFailed] else []) + [HealthCheckTimedOut]
    {
      var failed := child == Some(pid) && phase == Starting;
      if failed {
        phase := Failed;
      }
      if failed && !written {
        PushLog(ShutdownRequestFailed);
      }
      PushLog(HealthCheckTimedOut);
    }

    /** Stop the daemon: ask it, then wait until the child is gone or the deadline has passed. */
    method StopDaemon(written: bool, wakes: seq<Wake>) returns (r: Stop)
      requires Valid()
      modifies this
      ensures Valid()
      ensures var begun := BeginStop(old(Record()), written);
        (Record(), r) == if begun.1.Answered? then begun else WaitStop(begun.0, begun.1.pid, wakes)
      ensures r == Answered(true) ==> Record() == Process(None, Stopped)
      ensures r == Answered(false) ==> child == old(child) && phase == if written then Failed else old(phase)
      ensures old(child).None? || !written ==> history == old(history)
      ensures old(child).Some? && written ==> old(history) + [ShutdownRequested] <= history
    {
      if child.None? {
        phase := Stopped;
        return Answered(true);
      }
      if !written {
        return Answered(false);
      }
      var pid := child.value;
      phase := Stopping;
      PushLog(ShutdownRequested);
      ghost var begun := Record();
      var i := 0;
      while child == Some(pid)
        invariant i <= |wakes| && Valid()
        invariant child == None || child == Some(pid)
        invariant old(history) + [ShutdownRequested] <= history
        invariant WaitStop(begun, pid, wakes) == WaitStop(Record(), pid, wakes[i..])
        decreases |wakes| - i
      {
        if i == |wakes| {
          return Waiting(pid);
        }
        assert wakes[i..][0] == wakes[i] && wakes[i..][1..] == wakes[i + 1..];
        ReceiveEvents(wakes[i].terminated);
        if wakes[i].timedOut && child == Some(pid) {
          phase := Failed;
          return Answered(false);
        }
        if wakes[i].timedOut {
          phase := Stopped;
          return Answered(true);
        }
        i := i + 1;
      }
      phase := Stopped;
      return Answered(true);
    }

    method ReceiveEvents(terminated: seq<(Pid, Option<int>)>)
      requires Valid()
      modifies this
      ensures Valid() && Record() == Deliveries(old(Record()), terminated)
      ensures child == old(child) || child == None
      ensures history == old(history) + ExitLines(terminated)
    {
      for i := 0 to |terminated|
        invariant Valid()
        invariant history == old(history) + ExitLines(terminated[..i])
        invariant child == old(child) || child == None
        invariant Deliveries(old(Record()), terminated) == Deliveries(Record(), terminated[i..])
      {
        assert terminated[i..][0] == terminated[i] && terminated[i..][1..] == terminated[i + 1..];
        assert ExitLines(terminated[..i + 1]) == ExitLines(terminated[..i]) + [Exited(terminated[i].1)];
        Terminated(terminated[i].0, terminated[i].1);
      }
      assert terminated[..|terminated|] == terminated;
    }
  }
}
