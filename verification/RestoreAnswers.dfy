/** What staging and applying a restore answer, each answer with its exact condition on the files. */
module RestoreAnswers {
  import opened Prelude
  import opened ArchivePaths
  import opened Restore
  import opened RestoreSafety
  import opened RestoreApply
  import opened RestoreRestarts
  import opened RestoreRuns

  // ---------- Applying ----------

  /** The marker is there and reads as this record. */
  ghost predicate Records(env: Environment, fs: Files, rec: Record) {
    Marker in fs && env.decode(fs[Marker]) == Some(rec)
  }

  /** The staged database is there with the recorded hash. */
  ghost predicate StageWhole(fs: Files, rec: Record) {
    Staged(rec.stage, DATABASE) in fs && Sha256(fs[Staged(rec.stage, DATABASE)]) == rec.databaseDigest
  }

  /** The database of the installation already has the recorded hash. */
  ghost predicate AlreadySwapped(fs: Files, rec: Record) {
    Database in fs && Sha256(fs[Database]) == rec.databaseDigest
  }

  /** What the inspection says of the installation; one without a database file is fresh. */
  ghost predicate Inspected(env: Environment, fs: Files, inspection: Inspection) {
    if Database in fs
    then env.inspect(fs[Database], if WriteAheadLog in fs then Some(fs[WriteAheadLog]) else None) == inspection
    else inspection == Fresh
  }

  /** Each refusal of an apply that is pending, in the order of the checks, and its success. */
  ghost predicate AnswersFor(env: Environment, fs: Files, rec: Record, r: Result<Option<Revision>, ApplyError>) {
    if !StageWhole(fs, rec) then r == Err(StageMissingOrModified)
    else if !AlreadySwapped(fs, rec) && Inspected(env, fs, HasOwnerData) then r == Err(NotFresh)
    else if !AlreadySwapped(fs, rec) && Inspected(env, fs, Unreadable) then r == Err(CannotInspect)
    else if Conflicts(fs, rec) then r == Err(FilesConflict)
    else r == Ok(Some(rec.revision))
  }

  /** The place of a staged tree file holds something else. */
  ghost predicate Conflicts(fs: Files, rec: Record) {
    exists n :: IsTreeName(n) && TakenBy(fs, rec.stage, n)
  }

  ghost predicate TakenBy(fs: Files, stage: nat, n: Name) {
    Staged(stage, n) in fs && Data(n) in fs && fs[Data(n)] != fs[Staged(stage, n)]
  }

  lemma ConflictsExactly(fs: Files, rec: Record)
    ensures Conflicts(fs, rec) <==> !NoConflict(fs, StageOf(fs, rec.stage))
  {
    var staged := StageOf(fs, rec.stage);
    if n :| IsTreeName(n) && TakenBy(fs, rec.stage, n) { assert n in staged; }
    if !NoConflict(fs, staged) {
      var n :| n in staged && IsTreeName(n) && Data(n) in fs && fs[Data(n)] != staged[n];
      assert TakenBy(fs, rec.stage, n);
    }
  }

  /** An apply answers that nothing is pending if and only if there is no marker, and then it does nothing. */
  lemma NothingPendingExactly(env: Environment, fs: Files, serial: nat)
    requires Lawful(env)
    ensures ApplyAttempt(env, fs, serial).result == Ok(None) <==> Marker !in fs
    ensures Marker !in fs ==> ApplyAttempt(env, fs, serial).effects == []
  {
  }

  lemma UnreadableMarkerExactly(env: Environment, fs: Files, serial: nat)
    requires Lawful(env)
    ensures ApplyAttempt(env, fs, serial).result == Err(InvalidMarker) <==>
      Marker in fs && env.decode(fs[Marker]).None?
    ensures Marker in fs && env.decode(fs[Marker]).None? ==> ApplyAttempt(env, fs, serial).effects == []
  {
  }

  lemma InspectedIs(env: Environment, fs: Files, inspection: Inspection)
    ensures Inspected(env, fs, inspection) <==> InspectInstallation(env, fs) == inspection
  {
  }

  /** With a readable marker the answer is the one of the first check that fails, and a refusal before the
  copies has no effects. */
  lemma AnswersExactly(env: Environment, fs: Files, rec: Record, serial: nat)
    requires Lawful(env) && Records(env, fs, rec) && UnusedFrom(fs, serial)
    ensures AnswersFor(env, fs, rec, ApplyAttempt(env, fs, serial).result)
    ensures ApplyAttempt(env, fs, serial).result.Err? && ApplyAttempt(env, fs, serial).result.error != FilesConflict ==>
      ApplyAttempt(env, fs, serial).effects == []
  {
    InspectedIs(env, fs, HasOwnerData);
    InspectedIs(env, fs, Unreadable);
    ConflictsExactly(fs, rec);
    if StageWhole(fs, rec) {
      AttemptHasForm(env, fs, rec, serial);
      CopiesOkExactly(env, fs, rec, serial);
    }
  }

  // ---------- Staging ----------

  /** The manifest of the archive names the hash and the revision of its database. */
  ghost predicate Verified(env: Environment, payload: Payload, r: Revision) {
    var tree := Extracted(payload.members);
    && DATABASE in tree
    && payload.databaseDigest == Some(Sha256(tree[DATABASE]))
    && env.revisionOf(tree[DATABASE]) == Some(r)
    && payload.revision == Some(r)
  }

  /** Staging succeeds if and only if no restore waits, the installation is fresh, and the manifest
  names the hash and the revision of the archived database. */
  lemma StagedExactly(env: Environment, fs: Files, stage: nat, payload: Payload, serial: nat, r: Revision)
    ensures StageAttempt(env, fs, stage, payload, serial).result == Ok(r) <==>
      Marker !in fs && Inspected(env, fs, Fresh) && Verified(env, payload, r)
  {
    InspectedIs(env, fs, Fresh);
  }

  /** Each refusal of a staging, in the order of the checks. */
  ghost predicate StagingAnswers(env: Environment, fs: Files, payload: Payload, r: Result<Revision, StageError>) {
    var tree := Extracted(payload.members);
    if Marker in fs then r == Err(AlreadyWaiting)
    else if Inspected(env, fs, HasOwnerData) then r == Err(NotFreshInstallation)
    else if Inspected(env, fs, Unreadable) then r == Err(CannotInspectInstallation)
    else if DATABASE !in tree || payload.databaseDigest != Some(Sha256(tree[DATABASE])) then r == Err(ChecksumMismatch)
    else if env.revisionOf(tree[DATABASE]).None? then r == Err(InvalidDatabase)
    else if payload.revision != env.revisionOf(tree[DATABASE]) then r == Err(RevisionMismatch)
    else r == Ok(env.revisionOf(tree[DATABASE]).value)
  }

  lemma StagingAnswersExactly(env: Environment, fs: Files, stage: nat, payload: Payload, serial: nat)
    ensures StagingAnswers(env, fs, payload, StageAttempt(env, fs, stage, payload, serial).result)
  {
    InspectedIs(env, fs, HasOwnerData);
    InspectedIs(env, fs, Unreadable);
  }

  // ---------- Over runs ----------

  /** This event committed the marker: its archive is verified, and the marker records it. */
  ghost predicate CommittedBy(env: Environment, w: World, e: Event) {
    && e.StageArchive? && Marker in w.files
    && w.committed == Extracted(e.payload.members)
    && exists r :: Verified(env, e.payload, r) && Records(env, w.files, RecordOf(e, r))
  }

  ghost function RecordOf(e: Event, r: Revision): Record
    requires e.StageArchive?
  {
    Record(e.stage, if e.payload.databaseDigest.Some? then e.payload.databaseDigest.value else Sha256([]), r)
  }

  ghost predicate SameMarker(w: World, w': World) {
    Marker in w.files && Marker in w'.files && w'.files[Marker] == w.files[Marker] && w'.committed == w.committed
  }

  /** Where the marker of a world after one event comes from, if there is one. */
  ghost predicate MarkerHasOrigin(env: Environment, w: World, w': World, e: Event) {
    Marker in w'.files ==> SameMarker(w, w') || CommittedBy(env, w', e)
  }

  lemma UnfinishedCommitsNothing(env: Environment, w: World, e: Event)
    requires Lawful(env) && Possible(w, e) && e.StageArchive? && Marker !in w.files
    requires var a := StageAttempt(env, w.files, e.stage, e.payload, e.serial);
      !(a.result.Ok? && e.ticks >= |a.effects|)
    ensures Marker !in Step(env, w, e).files
  {
    StagingCommitsAtOnce(env, w.files, e.stage, e.payload, e.serial, e.ticks);
    assert Lookup(Step(env, w, e).files, Marker) == Lookup(w.files, Marker);
  }

  lemma StagingCommits(env: Environment, w: World, e: Event)
    requires Lawful(env) && Possible(w, e) && e.StageArchive?
    ensures MarkerHasOrigin(env, w, Step(env, w, e), e)
  {
    var a := StageAttempt(env, w.files, e.stage, e.payload, e.serial);
    if Marker in w.files {
      assert a.effects[..0] == [];
    } else if a.result.Ok? && e.ticks >= |a.effects| {
      StagingCommitsAtOnce(env, w.files, e.stage, e.payload, e.serial, e.ticks);
      StagedExactly(env, w.files, e.stage, e.payload, e.serial, a.result.value);
      assert Records(env, Step(env, w, e).files, RecordOf(e, a.result.value));
    } else {
      UnfinishedCommitsNothing(env, w, e);
    }
  }

  lemma StartKeepsMarker(env: Environment, w: World, e: Event)
    requires Lawful(env) && StageIntact(env, w) && Possible(w, e) && e.StartDaemon?
    ensures MarkerHasOrigin(env, w, Step(env, w, e), e)
  {
    if Marker in w.files {
      CutKeepsBetween(env, w.files, w.files, env.decode(w.files[Marker]).value, e.serial, e.ticks);
    } else {
      UnmarkedCutDoesNothing(env, w.files, e.serial, e.ticks);
    }
  }

  lemma StepCommits(env: Environment, w: World, e: Event)
    requires Lawful(env) && StageIntact(env, w) && Possible(w, e)
    ensures MarkerHasOrigin(env, w, Step(env, w, e), e)
  {
    match e
    case StageArchive(_, _, _, _) => StagingCommits(env, w, e);
    case StartDaemon(_, _) => StartKeepsMarker(env, w, e);
    case OwnerWrites(_) =>
  }

  /** Over every run: a marker that was not there at the beginning was committed by one staging of the
  run, of an archive whose manifest names the hash and the revision of its database. */
  lemma {:induction false} MarkersComeFromVerifiedArchives(env: Environment, w: World, events: seq<Event>)
    requires Lawful(env) && StageIntact(env, w) && PossibleRun(env, w, events) && Marker in Run(env, w, events).files
    ensures SameMarker(w, Run(env, w, events))
      || exists i :: 0 <= i < |events| && CommittedBy(env, Run(env, w, events), events[i])
    decreases |events|
  {
    if events != [] {
      var (w1, last) := (Step(env, w, events[0]), Run(env, w, events));
      StepKeepsStageIntact(env, w, events[0]);
      MarkersComeFromVerifiedArchives(env, w1, events[1..]);
      if SameMarker(w1, last) {
        StepCommits(env, w, events[0]);
        if CommittedBy(env, w1, events[0]) { StillCommitted(env, w1, last, events[0]); }
      } else {
        var i :| 0 <= i < |events[1..]| && CommittedBy(env, last, events[1..][i]);
        assert CommittedBy(env, last, events[i + 1]);
      }
    }
  }

  lemma StillCommitted(env: Environment, w: World, w': World, e: Event)
    requires CommittedBy(env, w, e) && SameMarker(w, w')
    ensures CommittedBy(env, w', e)
  {
    var r :| Verified(env, e.payload, r) && Records(env, w.files, RecordOf(e, r));
    assert Records(env, w'.files, RecordOf(e, r));
  }
}
