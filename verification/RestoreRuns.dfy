/** Staging an archive, and whole runs of staging, owner writes, crashes and starts. */
module RestoreRuns {
  import opened Prelude
  import opened ArchivePaths
  import opened Restore
  import opened RestoreSafety
  import opened RestoreApply
  import opened RestoreRestarts

  /** A decrypted archive whose entries and manifest passed validation. */
  datatype Payload = Payload(members: seq<(Name, Bytes)>, databaseDigest: Option<Digest>, revision: Option<Revision>)

  datatype StageError =
    | AlreadyWaiting | NotFreshInstallation | CannotInspectInstallation
    | ChecksumMismatch | InvalidDatabase | RevisionMismatch

  datatype Staging = Staging(effects: seq<Effect>, result: Result<Revision, StageError>)

  function ExtractEffects(stage: nat, members: seq<(Name, Bytes)>): seq<Effect> {
    if members == [] then []
    else
      var last := members[|members| - 1];
      ExtractEffects(stage, members[..|members| - 1]) + Writes(Staged(stage, last.0), last.1)
  }

  function Judge(env: Environment, payload: Payload): Result<Revision, StageError> {
    var contents := Extracted(payload.members);
    if DATABASE !in contents || payload.databaseDigest != Some(Sha256(contents[DATABASE])) then Err(ChecksumMismatch)
    else match env.revisionOf(contents[DATABASE])
      case None => Err(InvalidDatabase)
      case Some(r) => if payload.revision != Some(r) then Err(RevisionMismatch) else Ok(r)
  }

  function MarkerFor(env: Environment, stage: nat, payload: Payload): Bytes
    requires Judge(env, payload).Ok?
  {
    env.encode(Record(stage, Sha256(Extracted(payload.members)[DATABASE]), Judge(env, payload).value))
  }

  function StageAttempt(env: Environment, fs: Files, stage: nat, payload: Payload, serial: nat): Staging {
    if Marker in fs then Staging([], Err(AlreadyWaiting))
    else match InspectInstallation(env, fs)
      case HasOwnerData => Staging([], Err(NotFreshInstallation))
      case Unreadable => Staging([], Err(CannotInspectInstallation))
      case Fresh =>
        var extract := ExtractEffects(stage, payload.members);
        var verdict := Judge(env, payload);
        if verdict.Err? then
          Staging(extract + Removals(stage, env.walk(Extracted(payload.members).Keys)), verdict)
        else Staging(extract + CopyOver(MarkerFor(env, stage, payload), Temporary(serial), Marker), verdict)
  }

  function CutStage(env: Environment, fs: Files, stage: nat, payload: Payload, serial: nat, ticks: nat): Files {
    var effects := StageAttempt(env, fs, stage, payload, serial).effects;
    Execute(fs, effects[..Min(ticks, |effects|)])
  }

  ghost predicate UnusedStage(fs: Files, stage: nat) {
    forall n :: Staged(stage, n) !in fs
  }

  // ---------- Staging ----------

  /** Effects that only touch one stage and temporaries. */
  predicate StaysInStage(e: Effect, stage: nat) {
    match e
    case Write(p, _) => p.Temporary? || (p.Staged? && p.stage == stage)
    case Replace(_, _) => false
    case Remove(p) => p.Staged? && p.stage == stage
  }

  ghost predicate OutsideKept(fs: Files, fs': Files, stage: nat) {
    forall p: Path :: !p.Temporary? && !(p.Staged? && p.stage == stage) ==> Lookup(fs', p) == Lookup(fs, p)
  }

  lemma {:induction false} StageEffectsKeepOutside(fs: Files, effects: seq<Effect>, stage: nat)
    requires forall e :: e in effects ==> StaysInStage(e, stage)
    ensures OutsideKept(fs, Execute(fs, effects), stage)
    decreases |effects|
  {
    if effects != [] {
      assert StaysInStage(effects[0], stage) && OutsideKept(fs, Perform(fs, effects[0]), stage);
      StageEffectsKeepOutside(Perform(fs, effects[0]), effects[1..], stage);
    }
  }

  lemma {:induction false} ExtractLeavesContents(fs: Files, stage: nat, members: seq<(Name, Bytes)>)
    requires UnusedStage(fs, stage)
    ensures var effects := ExtractEffects(stage, members); var fs' := Execute(fs, effects);
      && (forall e :: e in effects ==> StaysInStage(e, stage))
      && (forall n :: Lookup(fs', Staged(stage, n)) == Lookup(Extracted(members), n))
      && (forall p: Path :: !(p.Staged? && p.stage == stage) ==> Lookup(fs', p) == Lookup(fs, p))
    decreases |members|
  {
    if members != [] {
      var last := members[|members| - 1];
      var before := ExtractEffects(stage, members[..|members| - 1]);
      ExtractLeavesContents(fs, stage, members[..|members| - 1]);
      ExecuteConcat(fs, before, Writes(Staged(stage, last.0), last.1));
      ExecuteWrites(Execute(fs, before), Staged(stage, last.0), last.1);
    }
  }

  /** Until its very last effect a staging changes nothing outside its own stage; a completed
  successful staging commits exactly the extracted archive. */
  lemma StagingCommitsAtOnce(env: Environment, fs: Files, stage: nat, payload: Payload, serial: nat, ticks: nat)
    requires Lawful(env) && UnusedStage(fs, stage)
    ensures var a := StageAttempt(env, fs, stage, payload, serial);
      var fs' := CutStage(env, fs, stage, payload, serial, ticks);
      if a.result.Ok? && ticks >= |a.effects| then
        var rec := Record(stage, Sha256(Extracted(payload.members)[DATABASE]), a.result.value);
        && Pending(env, fs', rec)
        && StageOf(fs', stage) == Extracted(payload.members)
        && (forall p: Path :: p != Marker && !p.Temporary? && !(p.Staged? && p.stage == stage)
              ==> Lookup(fs', p) == Lookup(fs, p))
      else OutsideKept(fs, fs', stage)
  {
    var a := StageAttempt(env, fs, stage, payload, serial);
    if Marker !in fs && InspectInstallation(env, fs) == Fresh {
      if a.result.Ok? && ticks >= |a.effects| {
        CommitLeavesPending(env, fs, stage, payload, serial);
        assert a.effects[..|a.effects|] == a.effects;
      } else {
        UnfinishedStaysInStage(env, fs, stage, payload, serial, Min(ticks, |a.effects|));
        StageEffectsKeepOutside(fs, a.effects[..Min(ticks, |a.effects|)], stage);
      }
    } else {
      assert a.effects[..0] == [];
    }
  }

  /** All effects of a failing staging, and all but the last of a successful one. */
  lemma UnfinishedStaysInStage(env: Environment, fs: Files, stage: nat, payload: Payload, serial: nat, n: nat)
    requires Marker !in fs && InspectInstallation(env, fs) == Fresh && UnusedStage(fs, stage)
    requires var a := StageAttempt(env, fs, stage, payload, serial);
      n <= |a.effects| && (a.result.Ok? ==> n < |a.effects|)
    ensures forall e :: e in StageAttempt(env, fs, stage, payload, serial).effects[..n] ==> StaysInStage(e, stage)
  {
    var a := StageAttempt(env, fs, stage, payload, serial);
    var extract := ExtractEffects(stage, payload.members);
    ExtractLeavesContents(fs, stage, payload.members);
    if a.result.Ok? {
      var marker := MarkerFor(env, stage, payload);
      assert a.effects[..n] == (extract + Writes(Temporary(serial), marker))[..n];
    }
  }

  lemma CommitLeavesPending(env: Environment, fs: Files, stage: nat, payload: Payload, serial: nat)
    requires Lawful(env) && UnusedStage(fs, stage) && Judge(env, payload).Ok?
    ensures var contents := Extracted(payload.members);
      var rec := Record(stage, Sha256(contents[DATABASE]), Judge(env, payload).value);
      var commit := CopyOver(MarkerFor(env, stage, payload), Temporary(serial), Marker);
      var fs' := Execute(fs, ExtractEffects(stage, payload.members) + commit);
      && Pending(env, fs', rec) && StageOf(fs', stage) == contents
      && (forall p: Path :: p != Marker && !p.Temporary? && !(p.Staged? && p.stage == stage)
            ==> Lookup(fs', p) == Lookup(fs, p))
  {
    var contents := Extracted(payload.members);
    var extract := ExtractEffects(stage, payload.members);
    var marker := MarkerFor(env, stage, payload);
    ExtractLeavesContents(fs, stage, payload.members);
    ExecuteConcat(fs, extract, CopyOver(marker, Temporary(serial), Marker));
    var fs1 := Execute(fs, extract);
    ExecuteCopyOver(fs1, marker, Temporary(serial), Marker);
    var fs' := (fs1 - {Temporary(serial)})[Marker := marker];
    forall n ensures Lookup(fs', Staged(stage, n)) == Lookup(contents, n) {
      assert Lookup(fs', Staged(stage, n)) == Lookup(fs1, Staged(stage, n));
    }
    StageOfLookups(fs', stage, contents);
    assert Lookup(fs', Staged(stage, DATABASE)) == Some(contents[DATABASE]);
  }

  lemma StageOfLookups(fs: Files, stage: nat, contents: map<Name, Bytes>)
    requires forall n :: Lookup(fs, Staged(stage, n)) == Lookup(contents, n)
    ensures StageOf(fs, stage) == contents
  {
    var staged := StageOf(fs, stage);
    forall n ensures (n in staged <==> n in contents) && (n in staged ==> staged[n] == contents[n]) {
      assert Lookup(fs, Staged(stage, n)) == Lookup(contents, n);
    }
  }

  ghost predicate HoldsArchive(fs: Files, fs2: Files, contents: map<Name, Bytes>) {
    && DATABASE in contents && Lookup(fs2, Database) == Some(contents[DATABASE])
    && (forall n :: Lookup(fs2, Data(n)) == TreeAfter(fs, contents, n))
    && Marker !in fs2
  }

  /** The archived file, or what was there before. */
  function TreeAfter(fs: Files, contents: map<Name, Bytes>, n: Name): Option<Bytes> {
    if n in contents && IsTreeName(n) then Some(contents[n]) else Lookup(fs, Data(n))
  }

  lemma RestoredHoldsArchive(fs: Files, rec: Record, fs2: Files, contents: map<Name, Bytes>)
    requires IsRestored(fs, rec, fs2) && StageOf(fs, rec.stage) == contents && DATABASE in contents
    ensures HoldsArchive(fs, fs2, contents)
  {
    assert Lookup(Visible(fs2), Marker) == None && Lookup(Visible(fs2), Database) == Some(contents[DATABASE]);
    forall n ensures Lookup(fs2, Data(n)) == TreeAfter(fs, contents, n) {
      assert Lookup(Visible(fs2), Data(n)) == RestoredFile(fs, rec, contents, Data(n));
    }
  }

  lemma StagedIsAcceptable(env: Environment, fs: Files, fs1: Files, rec: Record, contents: map<Name, Bytes>)
    requires InspectInstallation(env, fs) == Fresh && NoConflict(fs, contents)
    requires Pending(env, fs1, rec) && StageOf(fs1, rec.stage) == contents
    requires forall p: Path :: IsOwnerPath(p) ==> Lookup(fs1, p) == Lookup(fs, p)
    ensures Acceptable(env, fs1, rec)
  {
    assert Lookup(fs1, Database) == Lookup(fs, Database) && Lookup(fs1, WriteAheadLog) == Lookup(fs, WriteAheadLog);
    forall n | n in contents && IsTreeName(n) && Data(n) in fs1 ensures fs1[Data(n)] == contents[n] {
      assert Lookup(fs1, Data(n)) == Lookup(fs, Data(n));
    }
  }

  /** Identifiers that name neither a file nor an entry of the archive stay unused when it is staged. */
  lemma StagingKeepsUnused(fs: Files, fs1: Files, stage: nat, contents: map<Name, Bytes>, serial: nat)
    requires UnusedFrom(fs, serial) && Unmet({}, contents, serial) && StageOf(fs1, stage) == contents
    requires forall p: Path :: p != Marker && !p.Temporary? && !(p.Staged? && p.stage == stage) ==>
      Lookup(fs1, p) == Lookup(fs, p)
    ensures UnusedFrom(fs1, serial)
  {
    forall m: Name, k: nat | m != [] && k >= serial
      ensures Data(CopyName(m, k)) !in fs1 && forall s :: Staged(s, CopyName(m, k)) !in fs1
    {
      var n := CopyName(m, k);
      assert Lookup(fs1, Data(n)) == Lookup(fs, Data(n));
      forall s ensures Staged(s, n) !in fs1 {
        if s == stage { assert n !in contents; } else { assert Lookup(fs1, Staged(s, n)) == Lookup(fs, Staged(s, n)); }
      }
    }
  }

  /** Restored are exactly the archived files below "objects" and "indexes". */
  lemma RestoredFilesExactly(fs: Files, fs2: Files, contents: map<Name, Bytes>, n: Name)
    requires HoldsArchive(fs, fs2, contents)
    ensures var restored := n in contents && |n| >= 2 && (n[0] == "objects" || n[0] == "indexes");
      && (restored ==> Lookup(fs2, Data(n)) == Some(contents[n]))
      && (!restored ==> Lookup(fs2, Data(n)) == Lookup(fs, Data(n)))
  {
    assert Lookup(fs2, Data(n)) == TreeAfter(fs, contents, n);
  }

  /** Staging an archive and then starting the daemon restores exactly that archive. */
  lemma StageThenStart(env: Environment, fs: Files, stage: nat, payload: Payload, serial: nat, serial': nat)
    requires Lawful(env) && UnusedStage(fs, stage)
    requires StageAttempt(env, fs, stage, payload, serial).result.Ok?
    requires NoConflict(fs, Extracted(payload.members))
    requires UnusedFrom(fs, serial') && Unmet({}, Extracted(payload.members), serial')
    ensures var staging := StageAttempt(env, fs, stage, payload, serial);
      var fs1 := Execute(fs, staging.effects);
      var a := ApplyAttempt(env, fs1, serial'); var fs2 := Execute(fs1, a.effects);
      && a.result == Ok(Some(staging.result.value))
      && HoldsArchive(fs, fs2, Extracted(payload.members))
      && (forall n :: Staged(stage, n) !in fs2)
  {
    var contents := Extracted(payload.members);
    var staging := StageAttempt(env, fs, stage, payload, serial);
    var rec := Record(stage, Sha256(contents[DATABASE]), staging.result.value);
    StagingCommitsAtOnce(env, fs, stage, payload, serial, |staging.effects|);
    assert staging.effects[..|staging.effects|] == staging.effects;
    var fs1 := Execute(fs, staging.effects);
    StagedIsAcceptable(env, fs, fs1, rec, contents);
    StagingKeepsUnused(fs, fs1, stage, contents, serial');
    AcceptedExactly(env, fs1, rec, serial');
    AttemptSafe(env, fs1, rec, serial');
    var fs2 := Execute(fs1, ApplyAttempt(env, fs1, serial').effects);
    RestoredHoldsArchive(fs1, rec, fs2, contents);
    forall n ensures Lookup(fs1, Data(n)) == Lookup(fs, Data(n)) {}
  }

  // ---------- Whole runs ----------

  /** `committed` remembers the archive whose marker was written last. */
  datatype World = World(files: Files, committed: map<Name, Bytes>)

  datatype Event =
    | StageArchive(stage: nat, payload: Payload, serial: nat, ticks: nat)
    | StartDaemon(serial: nat, ticks: nat)
    | OwnerWrites(owner: Files)

  predicate IsOwnerPath(p: Path) {
    p == Database || p == WriteAheadLog || p == SharedMemory || p.Data?
  }

  /** A stage directory and a copy have fresh random names; the owner changes only the owner's own files. */
  ghost predicate Possible(w: World, e: Event) {
    match e
    case StageArchive(stage, _, _, _) => UnusedStage(w.files, stage)
    case StartDaemon(serial, _) => UnusedFrom(w.files, serial)
    case OwnerWrites(owner) => forall p :: p in owner ==> IsOwnerPath(p)
  }

  ghost function Step(env: Environment, w: World, e: Event): World
    requires Lawful(env)
  {
    match e
    case StageArchive(stage, payload, serial, ticks) =>
      var fs := CutStage(env, w.files, stage, payload, serial, ticks);
      World(fs, if Marker !in w.files && Marker in fs then Extracted(payload.members) else w.committed)
    case StartDaemon(serial, ticks) => w.(files := CutApply(env, w.files, serial, ticks))
    case OwnerWrites(owner) => w.(files := (map p | p in w.files && !IsOwnerPath(p) :: w.files[p]) + owner)
  }

  ghost predicate PossibleRun(env: Environment, w: World, events: seq<Event>)
    requires Lawful(env)
    decreases |events|
  {
    events == [] || (Possible(w, events[0]) && PossibleRun(env, Step(env, w, events[0]), events[1..]))
  }

  ghost function Run(env: Environment, w: World, events: seq<Event>): World
    requires Lawful(env)
    decreases |events|
  {
    if events == [] then w else Run(env, Step(env, w, events[0]), events[1..])
  }

  /** A marker always names an intact stage: the very archive that was staged, with the recorded hash. */
  ghost predicate StageIntact(env: Environment, w: World) {
    Marker in w.files ==>
      && env.decode(w.files[Marker]).Some?
      && Pending(env, w.files, env.decode(w.files[Marker]).value)
      && StageOf(w.files, env.decode(w.files[Marker]).value.stage) == w.committed
  }

  lemma SameStage(env: Environment, fs: Files, fs': Files, rec: Record)
    requires Pending(env, fs, rec) && Lookup(fs', Marker) == Lookup(fs, Marker)
    requires forall n :: Lookup(fs', Staged(rec.stage, n)) == Lookup(fs, Staged(rec.stage, n))
    ensures Pending(env, fs', rec) && StageOf(fs', rec.stage) == StageOf(fs, rec.stage)
  {
    var staged := StageOf(fs, rec.stage);
    forall n ensures Lookup(fs', Staged(rec.stage, n)) == Lookup(staged, n) {
      assert Lookup(fs', Staged(rec.stage, n)) == Lookup(fs, Staged(rec.stage, n));
    }
    StageOfLookups(fs', rec.stage, staged);
    assert Lookup(fs', Staged(rec.stage, DATABASE)) == Lookup(fs, Staged(rec.stage, DATABASE));
  }

  lemma StagingKeepsStageIntact(env: Environment, w: World, stage: nat, payload: Payload, serial: nat, ticks: nat)
    requires Lawful(env) && StageIntact(env, w) && UnusedStage(w.files, stage)
    ensures StageIntact(env, Step(env, w, StageArchive(stage, payload, serial, ticks)))
  {
    var a := StageAttempt(env, w.files, stage, payload, serial);
    StagingCommitsAtOnce(env, w.files, stage, payload, serial, ticks);
    if Marker in w.files {
      assert a.effects[..0] == [];
    } else if !(a.result.Ok? && ticks >= |a.effects|) {
      assert Lookup(CutStage(env, w.files, stage, payload, serial, ticks), Marker) == Lookup(w.files, Marker);
    }
  }

  lemma StartKeepsStageIntact(env: Environment, w: World, serial: nat, ticks: nat)
    requires Lawful(env) && StageIntact(env, w) && UnusedFrom(w.files, serial)
    ensures StageIntact(env, w.(files := CutApply(env, w.files, serial, ticks)))
  {
    var fs := CutApply(env, w.files, serial, ticks);
    if Marker in w.files {
      var rec := env.decode(w.files[Marker]).value;
      CutKeepsBetween(env, w.files, w.files, rec, serial, ticks);
      if Marker in fs {
        StillPending(env, w.files, fs, rec, !DatabaseMatches(w.files, rec));
      }
    } else {
      assert ApplyAttempt(env, w.files, serial).effects[..0] == [];
    }
  }

  lemma StepKeepsStageIntact(env: Environment, w: World, e: Event)
    requires Lawful(env) && StageIntact(env, w) && Possible(w, e)
    ensures StageIntact(env, Step(env, w, e))
  {
    match e
    case StageArchive(stage, payload, serial, ticks) =>
      StagingKeepsStageIntact(env, w, stage, payload, serial, ticks);
    case StartDaemon(serial, ticks) =>
      StartKeepsStageIntact(env, w, serial, ticks);
    case OwnerWrites(owner) =>
      if Marker in w.files {
        SameStage(env, w.files, Step(env, w, e).files, env.decode(w.files[Marker]).value);
      }
  }

  /** Over every run of stagings, crashes, starts and owner writes a marker means an intact stage. */
  lemma {:induction false} RunsKeepStageIntact(env: Environment, w: World, events: seq<Event>)
    requires Lawful(env) && StageIntact(env, w) && PossibleRun(env, w, events)
    ensures StageIntact(env, Run(env, w, events))
    decreases |events|
  {
    if events != [] {
      StepKeepsStageIntact(env, w, events[0]);
      RunsKeepStageIntact(env, Step(env, w, events[0]), events[1..]);
    }
  }

  /** A start changes no file of the tree, and the database only of a fresh installation. */
  ghost predicate StartKeepsOwner(env: Environment, fs: Files, fs': Files, staged: map<Name, Bytes>) {
    && (Lookup(fs', Database) != Lookup(fs, Database) ==>
          InspectInstallation(env, fs) == Fresh && DatabaseInPlace(fs', staged) && CopiesDone(fs', staged))
    && (InspectInstallation(env, fs) != Fresh ==>
          forall p :: p == Database || p == WriteAheadLog || p == SharedMemory ==> Lookup(fs', p) == Lookup(fs, p))
    && (forall n :: Data(n) in fs ==> Lookup(fs', Data(n)) == Lookup(fs, Data(n)))
  }

  lemma CutKeepsOwner(env: Environment, fs: Files, rec: Record, serial: nat, ticks: nat)
    requires Lawful(env) && Pending(env, fs, rec) && UnusedFrom(fs, serial)
    ensures StartKeepsOwner(env, fs, CutApply(env, fs, serial, ticks), StageOf(fs, rec.stage))
  {
    CutKeepsBetween(env, fs, fs, rec, serial, ticks);
    if !DatabaseMatches(fs, rec) && InspectInstallation(env, fs) != Fresh {
      assert ApplyAttempt(env, fs, serial).effects[..0] == [];
    }
  }

  /** In any reachable world: neither staging nor a start changes an existing file of the owner's
  tree, and the database changes only if the installation was fresh when the start began, and
  then to exactly the database that was staged. */
  lemma DatabaseReplacedOnlyWhenFresh(env: Environment, w: World, e: Event)
    requires Lawful(env) && StageIntact(env, w) && Possible(w, e) && !e.OwnerWrites?
    ensures StartKeepsOwner(env, w.files, Step(env, w, e).files, w.committed)
    ensures Lookup(Step(env, w, e).files, Database) != Lookup(w.files, Database) ==> e.StartDaemon?
  {
    match e
    case StageArchive(stage, payload, serial, ticks) =>
      StagingCommitsAtOnce(env, w.files, stage, payload, serial, ticks);
    case StartDaemon(serial, ticks) =>
      if Marker in w.files {
        CutKeepsOwner(env, w.files, env.decode(w.files[Marker]).value, serial, ticks);
      } else {
        assert ApplyAttempt(env, w.files, serial).effects[..0] == [];
      }
  }

  /** No sequence of stagings and starts, whole or cut short, changes or removes a file of the tree.
  That holds for the begun copies of earlier power losses as well: nothing ever clears them. */
  lemma {:induction false} TreeFilesStay(env: Environment, w: World, events: seq<Event>)
    requires Lawful(env) && StageIntact(env, w) && PossibleRun(env, w, events)
    requires forall e :: e in events ==> !e.OwnerWrites?
    ensures forall n :: Data(n) in w.files ==> Lookup(Run(env, w, events).files, Data(n)) == Lookup(w.files, Data(n))
    decreases |events|
  {
    if events != [] {
      var w1 := Step(env, w, events[0]);
      StepKeepsStageIntact(env, w, events[0]);
      DatabaseReplacedOnlyWhenFresh(env, w, events[0]);
      TreeFilesStay(env, w1, events[1..]);
      forall n | Data(n) in w.files ensures Data(n) in w1.files {
        assert Lookup(w1.files, Data(n)) == Lookup(w.files, Data(n));
      }
    }
  }

  ghost function AfterLosses(env: Environment, w: World, starts: seq<Start>): World
    requires Lawful(env)
  {
    w.(files := Restarts(env, w.files, starts))
  }

  /** Power losses while `rec` is applied, then further stagings and starts. */
  ghost predicate LossesThenEvents(env: Environment, w: World, rec: Record, starts: seq<Start>, events: seq<Event>)
    requires Lawful(env)
  {
    && StageIntact(env, w) && Pending(env, w.files, rec) && FreshStarts(env, w.files, starts)
    && PossibleRun(env, AfterLosses(env, w, starts), events)
    && forall e :: e in events ==> !e.OwnerWrites?
  }

  /** What power losses left in the tree is still there after any further stagings and starts. */
  lemma LeftoversStay(env: Environment, w: World, rec: Record, starts: seq<Start>, events: seq<Event>)
    requires Lawful(env) && LossesThenEvents(env, w, rec, starts, events)
    ensures forall p :: p in Leftovers(env, w.files, starts) ==>
      Lookup(Run(env, AfterLosses(env, w, starts), events).files, p) == Some(Leftovers(env, w.files, starts)[p])
  {
    var w1 := AfterLosses(env, w, starts);
    CrashesKeepOwnerFiles(env, w.files, rec, starts);
    TreeFilesStay(env, w1, events);
    LeftoversExact(env, w.files, rec, starts);
    var left := Leftovers(env, w.files, starts);
    forall p | p in left ensures Lookup(Run(env, w1, events).files, p) == Some(left[p]) {
      assert p == Data(p.name) && Lookup(w1.files, Data(p.name)) == Some(left[p]);
    }
  }

  /** Owner data is never lost: once the database holds data of the owner, no sequence of stagings
  and starts, whole or cut short, changes the database, its logs or any existing tree file. */
  lemma {:induction false} OwnerDataSurvives(env: Environment, w: World, events: seq<Event>)
    requires Lawful(env) && StageIntact(env, w) && PossibleRun(env, w, events)
    requires InspectInstallation(env, w.files) != Fresh
    requires forall e :: e in events ==> !e.OwnerWrites?
    ensures var w' := Run(env, w, events);
      && (forall p :: p == Database || p == WriteAheadLog || p == SharedMemory ==>
            Lookup(w'.files, p) == Lookup(w.files, p))
      && (forall n :: Data(n) in w.files ==> Lookup(w'.files, Data(n)) == Lookup(w.files, Data(n)))
    decreases |events|
  {
    if events != [] {
      var w1 := Step(env, w, events[0]);
      StepKeepsStageIntact(env, w, events[0]);
      DatabaseReplacedOnlyWhenFresh(env, w, events[0]);
      assert Lookup(w1.files, Database) == Lookup(w.files, Database);
      assert Lookup(w1.files, WriteAheadLog) == Lookup(w.files, WriteAheadLog);
      OwnerDataSurvives(env, w1, events[1..]);
      forall n | Data(n) in w.files ensures Data(n) in w1.files {
        assert Lookup(w1.files, Data(n)) == Lookup(w.files, Data(n));
      }
    }
  }
}
