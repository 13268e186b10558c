# Soulmate: verified model of its stateful protocols

Soulmate is a personal assistant that runs as a local daemon, with a desktop shell that supervises
it and a phone that pairs with it. This project models the parts of the system where several steps
have to fit together, and proves what they keep:

| File | What it models |
|---|---|
| `Restore.dfy`, `RestoreSafety.dfy`, `RestoreApply.dfy`, `RestoreLeftovers.dfy`, `RestoreRestarts.dfy`, `RestoreRuns.dfy`, `RestoreAnswers.dfy`, `RestoreExamples.dfy`, `RestoreInstallation.dfy` | a restore that is staged, committed by a marker and applied at the next start, with power lost after any file effect |
| `Archive.dfy`, `ArchiveNames.dfy`, `Envelope.dfy`, `Portability.dfy` | the portable archive: writer, reader, encrypted envelope, and the way from one installation to another |
| `Supervisor.dfy`, `SupervisorPhases.dfy` | the desktop's record of the managed daemon under interleaved commands, event tasks and health tasks |
| `Lifecycle*.dfy` | decisions, reports from agents, owner review, resolutions, Evidence and outcomes |
| `Download*.dfy` | resumable, hash-pinned model downloads, imports, cancellation and removal |
| `KeyVectors.dfy`, `KeyOrdering.dfy`, `KeyRefresh.dfy`, `KeyBatches.dfy`, `KeySemantics.dfy` | the incremental index of key vectors |
| `Negotiation.dfy` | structured-output negotiation with model providers |
| `Regrouping.dfy`, `Base64Url.dfy`, `Base64UrlProofs.dfy`, `Pairing.dfy` | the pairing code: base64url computed for real, encoding and parsing |
| `Jobs.dfy`, `Backoff.dfy`, `Worker.dfy`, `Learning.dfy`, `BackupSchedule.dfy`, `BackupListing.dfy` | durable jobs with leases and backoff, learning from a message, spacing and listing of remote backups |
| `OptionFeatures.dfy` | extracted features and the check on their indices |
| `Prelude.dfy` | `Option`, `Result`, bytes and digests |

## How it is built

Behaviour is written as functions on values: an effect list for the restore, and one step function
with a run function for each state machine. Where the program changes objects step by step, a class
with the same fields does so too, with the same loops, and each of its methods is proved to leave
exactly the state its function describes. What the program promises is then proved about all runs, and
what each operation answers is stated once more in plain fields, condition by condition
(`RestoreAnswers`, `SupervisorPhases`, `LifecycleRecords`, `LifecycleAnswers`, `DownloadAnswers`,
`KeyBatches`).

A few conventions hold throughout. A SHA-256 digest and a text hash stand for exactly one input.
Code outside the model (SQLite, JSON, ZIP, AES-GCM, scrypt, HTTP, the ONNX model, the kernel that
derives Evidence) is a function given from outside; the laws it must satisfy are predicates named
`Lawful`, `RoundTrips`, `LawfulContainer` or `Honours`, required where they are used. Times are
integers. A crash is a point at which a run of effects, writes or chunks stops.

## What was found

Some expectations fail. Each result here says when, and names a witness: concrete values, or a run
from the initial state into the failing case.

- A power loss inside the copy of a tree file leaves the begun copy in the tree under a hidden name. A
  new tree file that is not a staged one exists if and only if some attempt was cut after the first
  write and before the rename of a copy (`RestoreRestarts.LeftoverExistsExactly`). No staging and no
  start ever removes it (`RestoreRuns.LeftoversStay`), and every later archive contains it
  (`Portability.LeftoversAreArchived`). Restarts converge up to exactly these files
  (`RestoreRestarts.RestartsConverge`). Witness: `RestoreExamples.LeftoverExample`.
- A restore recovers from every crash point if and only if the fresh database stays fresh without its
  log file (`RestoreRestarts.EveryCrashRecoversExactly`; witness `RestoreExamples.StrandedExample`).
  The inspection is a function of the two files here. The program opens them with SQLite, which may
  move the log into the database and remove it when it closes; whether an old log is still there when
  the apply removes it is not settled by the text of the program.
- The archive writer does not count its manifest, the reader does. The reader accepts a written
  archive if and only if contents and manifest fit together (`Archive.WriterAcceptedExactly`; witness
  `Archive.FullDatabaseIsRefused`).
- The reader compares entry names as text. Entries of an accepted archive have different targets if and
  only if their normal spellings differ (`ArchiveNames.DistinctTargetsExactly`), and extracting keeps
  the content of every entry if and only if entries of one normal spelling have the same content
  (`ArchiveNames.ExtractionKeepsAllExactly`). Witness: an archive with `database.sqlite` and
  `./database.sqlite` is accepted and the later entry wins (`ArchiveNames.SameTargetAccepted`).
- A choice reported before its decision is attached to it later without its option, and no run can
  ever confirm it (`LifecycleReview.LateDecisionStrandsChoice`; witness
  `LifecycleExamples.ChoiceBeforeDecision`). A reported choice is confirmed in some run if and only if
  its decision was known and open when it was reported
  (`LifecycleFinality.ReportedChoiceConfirmableExactly`).
- Confirmed is not final. A confirmed report of either kind stays confirmed over a run if and only if no
  request of the run rejects it (`LifecycleFinality.ConfirmedUntilRejectedExactly`); a rejection takes
  back neither the canonical records nor the owner's outcome
  (`LifecycleFinality.ConfirmedCanBeRejected`; witnesses `LifecycleExamples.ChoiceAfterDecision` and
  `LifecycleExamples.SatisfactionRejectedAfterwards`).
- A crash between the outcome and the report's status leaves a report that cannot be confirmed until
  the outcome is deleted (`LifecycleReview.CrashLeavesReportOpen`): after it a confirmation with the
  owner's values succeeds if and only if the report is still pending and its decision has no outcome
  (`LifecycleFinality.ConfirmableAfterCrashExactly`; witness `LifecycleExamples.CrashWhileConfirming`).
- Evidence of the owner's own resolution is complete if and only if the process did not die before its
  last item; what is missing stays missing (`LifecycleEvidence.ResolveIsCompleteExactly`; witness
  `LifecycleExamples.EvidenceLost`).
- A message keeps a part of an extraction for good if and only if an exception or the end of the
  process came after its first item was stored and before its last one was; an attempt that stored
  nothing leaves the whole list to a later one (`LearningProofs.CutShortIsFinalExactly`; witness
  `LearningProofs.HalfLearned`).
- A partial download that is already complete never installs from a server that answers empty ranges
  with 416 (`DownloadSafety.CompletePartialNeverInstalls`), and blocks every file after it: some run of
  downloads installs a missing file if and only if neither it nor a missing file before it has a
  complete partial (`DownloadReach.InstallableExactly`; witness `DownloadExamples.CompletePartialExample`).
- An import that dies after copying past the bytes it shares with the upstream file is the only step
  that leaves a partial file which is not a prefix of the content
  (`DownloadSafety.StepKeepsPrefixExactly`; witness `DownloadExamples.ForeignPartialExample`).
- An Ollama call does not fall back on malformed output, an OpenAI-compatible call does
  (`NegotiationProofs.OllamaSucceedsExactly`, `NegotiationProofs.MalformedSchemaOutputIsFinal`;
  witness `NegotiationProofs.WrappedAnswersNeverRecover`).
- The pairing decoder ignores spaces but counts them when it appends padding, so a space can spoil a
  valid text (`Base64UrlProofs.DecodeAcceptsExactly`; witness `Base64UrlProofs.SpaceSpoilsPadding`), and
  two texts can stand for the same bytes (`Base64UrlProofs.EncodeOfDecodeExactly`; witness
  `Base64UrlProofs.TwoTextsOneByte`).
- A backup is enqueued less than an interval after the one before it if and only if the process died
  between storing that job and storing its time, and no success recorded since covers the interval
  (`BackupScheduleProofs.EnqueuesAgainExactly`; witnesses `BackupScheduleProofs.TwoBackupsAfterCrash`,
  and `BackupScheduleProofs.SuccessCoversCrash` for a crash that a success makes up for).
- The comment that the extraction job's eight attempts ride out 45 minutes holds for a pattern of dying
  attempts if and only if what the deaths among attempts five to seven take away is at most 30 seconds
  more than what those among the first four add (`LearningProofs.FortyFiveMinutesExactly`; for any
  other bound `LearningProofs.LearningRidesOutExactly`). Witness: a run of 1353 seconds
  (`LearningProofs.ShortestRide`), and none is shorter (`BackoffProofs.LearningRidesOut`).

The two assumptions of the supervisor are needed: without serialised commands, and with reused pids,
concrete runs break it (`Supervisor.InterleavedStartsLoseAChild`, `Supervisor.ReusedPidFailsTheNewChild`).

## Model

| member | source | states |
|---|---|---|
| RestoreApply.AttemptSafe | apps/daemon/src/soulmate_daemon/portability.py:455-499 | every file effect of one apply attempt is an allowed one; an attempt that returns a revision leaves the database and every staged file equal to the stage, no log beside a swapped-in database, no marker and no stage, and everything else unchanged; a refused attempt leaves database, logs, marker and stage as they were |
| RestoreRestarts.AcceptedExactly | apps/daemon/src/soulmate_daemon/portability.py:478-494 | with an intact stage the attempt succeeds if and only if the database already matches or is fresh, and no staged file meets different content in its place |
| RestoreLeftovers.CutAttemptExact | apps/daemon/src/soulmate_daemon/portability.py:437-452 | one attempt cut anywhere: the tree keeps its files and gains staged files and exactly the begun copy the cut interrupted, a part of a staged file under a hidden name that was not there before |
| RestoreRestarts.LeftoversExact | apps/daemon/src/soulmate_daemon/portability.py:437-499 | after any number of cut attempts the tree holds its old files, staged files, and exactly the begun copies of the cuts |
| RestoreRestarts.LeftoverExistsExactly | apps/daemon/src/soulmate_daemon/portability.py:446-452 | a new tree file that is not a staged one is left behind if and only if some attempt was cut after the first write of a copy and before its rename |
| RestoreRestarts.CrashesKeepOwnerFiles | apps/daemon/src/soulmate_daemon/portability.py:437-499 | after any number of restarts, each cut after any file effect: the database is the old one or exactly the staged one without old logs, no existing file of the owner changed, new tree files are staged ones or the leftovers, which are parts of staged ones under hidden copy names, and while the marker is there the stage is intact with the recorded hash |
| RestoreRestarts.RestartsConverge | apps/daemon/src/soulmate_daemon/portability.py:455-499 | after any number of cut attempts the next whole attempt succeeds and leaves exactly the files an undisturbed apply would have left, and besides exactly the leftovers of the cuts, if the fresh database stays fresh without its log |
| RestoreRestarts.EveryCrashRecoversExactly | apps/daemon/src/soulmate_daemon/portability.py:478-494 | every crash point of an acceptable apply lets the next start finish, whatever unused identifiers it draws, if and only if the database matches, is missing, or is fresh without its log file |
| RestoreRestarts.LogRemoved | apps/daemon/src/soulmate_daemon/portability.py:486-494 | there is a crash point at which the old database stands without its log file, the marker is still there and no begun copy was left |
| RestoreExamples.StrandedExample | apps/daemon/src/soulmate_daemon/portability.py:478-494 | a concrete installation whose restore is refused for good after a crash |
| RestoreRuns.StagingCommitsAtOnce | apps/daemon/src/soulmate_daemon/portability.py:410-434 | a staging, cut anywhere before its last effect or refused, changes nothing outside its own stage directory and temporary files; a completed one commits a marker for exactly the extracted archive |
| RestoreRuns.StageThenStart | apps/daemon/src/soulmate_daemon/portability.py:410-499 | staging an archive and starting the daemon restores exactly that archive's database and tree and removes stage and marker |
| RestoreRuns.RunsKeepStageIntact | apps/daemon/src/soulmate_daemon/portability.py:410-499 | over every run of stagings, starts, crashes and owner writes, a marker names an intact stage with the recorded hash, holding the very archive that was committed |
| RestoreRuns.DatabaseReplacedOnlyWhenFresh | apps/daemon/src/soulmate_daemon/portability.py:414-416 | in every reachable world the database changes only in a start that found the installation fresh, then to exactly the committed database with all copies done; no existing tree file ever changes |
| RestoreRuns.OwnerDataSurvives | apps/daemon/src/soulmate_daemon/portability.py:437-494 | once the database holds owner data, no sequence of stagings and starts, whole or cut, changes the database, its logs or an existing tree file |
| RestoreRuns.TreeFilesStay | apps/daemon/src/soulmate_daemon/portability.py:437-452 | no sequence of stagings and starts, whole or cut, changes or removes any file of the tree, whether the database is fresh or not |
| RestoreRuns.LeftoversStay | apps/daemon/src/soulmate_daemon/portability.py:437-499 | what power losses left in the tree is still there after any further stagings and starts |
| RestoreRuns.RestoredFilesExactly | apps/daemon/src/soulmate_daemon/portability.py:437-452 | what a restore brings back are exactly the archived files below the two archived directories; every other file of the tree stays as it was |
| RestoreAnswers.NothingPendingExactly | apps/daemon/src/soulmate_daemon/portability.py:455-459 | a start answers that nothing is pending if and only if there is no marker, and then it has no effect at all |
| RestoreAnswers.UnreadableMarkerExactly | apps/daemon/src/soulmate_daemon/portability.py:460-499 | a start refuses the marker as invalid if and only if it is there and cannot be read as a record |
| RestoreAnswers.AnswersExactly | apps/daemon/src/soulmate_daemon/portability.py:478-499 | with a readable marker: missing or altered stage, owner data, an installation that cannot be inspected and a conflicting file are each the answer exactly when the condition on the files holds and no earlier one does, with no effect before the copies, and otherwise the recorded revision is the answer |
| RestoreAnswers.StagedExactly | apps/daemon/src/soulmate_daemon/portability.py:410-434 | a staging succeeds with revision r if and only if no marker is there, the installation is fresh, and the archive's manifest names the hash of its own database and r, the revision that this database has |
| RestoreAnswers.StagingAnswersExactly | apps/daemon/src/soulmate_daemon/portability.py:410-434 | each refusal of a staging, checksum and revision among them, is the answer exactly when its condition is the first that fails |
| RestoreAnswers.MarkersComeFromVerifiedArchives | apps/daemon/src/soulmate_daemon/portability.py:410-434 | over every run of stagings, starts, crashes and owner writes: a marker that was not there at the beginning was committed by one staging whose archive's manifest hash and revision match its database, and records just these |
| RestoreExamples.LeftoverExample | apps/daemon/src/soulmate_daemon/portability.py:446-452 | a concrete run: power is lost after the first byte of a copy, the next start restores everything, and half of the hidden copy stays |
| RestoreExamples.CopyNamesDiffer | apps/daemon/src/soulmate_daemon/portability.py:450 | copies with different identifiers have different names, whatever files they copy |
| RestoreExamples.UnusedExists | apps/daemon/src/soulmate_daemon/portability.py:450 | whatever files there are, some identifiers are still unused, so the assumption on drawn identifiers can always be met |
| RestoreInstallation.Installation.WriteFile | apps/daemon/src/soulmate_daemon/portability.py:340-347 | writing a file with power lost after any number of bytes leaves exactly that prefix of its effects |
| RestoreInstallation.Installation.CopyFile | apps/daemon/src/soulmate_daemon/portability.py:450-452 | copy to a temporary file, then one atomic rename |
| RestoreInstallation.Installation.CopyIfMissing | apps/daemon/src/soulmate_daemon/portability.py:446-452 | an absent target is copied, an equal one left alone, a different one is a conflict that changes nothing |
| RestoreInstallation.Installation.CopyRestoreFiles | apps/daemon/src/soulmate_daemon/portability.py:437-452 | the copy loop performs exactly the planned effects up to the power loss and reports a conflict exactly when the plan has one |
| RestoreInstallation.Installation.SwapInDatabase | apps/daemon/src/soulmate_daemon/portability.py:486-494 | the log files go first, then the database is copied and renamed, cut anywhere |
| RestoreInstallation.Installation.RemoveStage | apps/daemon/src/soulmate_daemon/portability.py:496 | the stage is removed file by file, cut anywhere |
| RestoreInstallation.Installation.CheckPending | apps/daemon/src/soulmate_daemon/portability.py:456-483 | the checks before the first effect answer that nothing is pending if and only if there is no marker, refuse exactly the attempts that have no effect, and otherwise leave an intact stage and a matching or fresh database |
| RestoreInstallation.Installation.ApplyPendingRestore | apps/daemon/src/soulmate_daemon/portability.py:455-499 | the method leaves exactly the files of the cut effect list and returns the attempt's result; without a marker it returns that nothing is pending and changes no file, and with one its answer is that of the first condition that fails |
| RestoreInstallation.Installation.ExtractMembers | apps/daemon/src/soulmate_daemon/portability.py:303-308 | the extraction loop performs exactly the effects of writing each member, cut anywhere |
| RestoreInstallation.Installation.StageRestore | apps/daemon/src/soulmate_daemon/portability.py:410-434 | staging as a method leaves exactly the files of its cut effect list; its answer is that of the first check that fails, and success means that the manifest names the hash and the revision of the archived database |
| ArchivePaths.PartsOfJoin | apps/daemon/src/soulmate_daemon/portability.py:159-162 | the path the reader makes of a written entry name is the written path |
| Archive.SumSizes | apps/daemon/src/soulmate_daemon/portability.py:264-265 | the loop adds up the sizes of all entries |
| Archive.CollectNames | apps/daemon/src/soulmate_daemon/portability.py:266-280 | the loop succeeds exactly when every entry is safe and no name repeats, and then holds exactly the names |
| Archive.ValidatedMembers | apps/daemon/src/soulmate_daemon/portability.py:260-283 | the reader's validation accepts exactly the archives within both limits, safe, without repeated names and with both required files, and otherwise names the first check that fails |
| Archive.AcceptedStaysBelow | apps/daemon/src/soulmate_daemon/portability.py:269-310 | each target of an accepted archive lies strictly below the destination, as a file system resolves it |
| Archive.ExtractionSucceedsExactly | apps/daemon/src/soulmate_daemon/portability.py:286-314 | an archive is extracted to a manifest and a tree if and only if it passes validation, its manifest reads as that one, of the right format and version and without credentials, no entry lies below another one's path, and the manifest names the hash of the database in the tree the entries leave |
| Archive.RefusedExactly | apps/daemon/src/soulmate_daemon/portability.py:289-309 | after validation: an unreadable manifest, an unsupported format or credential policy and clashing paths are each the answer exactly in their own case |
| Archive.MeasureFiles | apps/daemon/src/soulmate_daemon/portability.py:136-162 | the writer's first loop collects every name and the size of everything but the manifest, and fails exactly on a link |
| Archive.ZipPayload | apps/daemon/src/soulmate_daemon/portability.py:148-184 | the writer succeeds exactly without links and within its limits, and then holds manifest, database and every file, in order; a link, too many entries and too large contents are told apart |
| Archive.WriterAcceptedExactly | apps/daemon/src/soulmate_daemon/portability.py:158-265 | the reader accepts what the writer wrote if and only if contents plus manifest fit the limit |
| Archive.FullDatabaseIsRefused | apps/daemon/src/soulmate_daemon/portability.py:158-265 | a database of exactly the limit meets every condition of the writer and is refused by the reader as too large |
| Archive.WriterReaderRoundTrip | apps/daemon/src/soulmate_daemon/portability.py:286-314 | an accepted written archive extracts to the same manifest, database and file tree, and to nothing else |
| ArchiveNames.DistinctTargetsExactly | apps/daemon/src/soulmate_daemon/portability.py:269-280 | the entries of an accepted archive have pairwise different targets if and only if their normal spellings differ pairwise as text |
| ArchiveNames.ExtractionKeepsAllExactly | apps/daemon/src/soulmate_daemon/portability.py:269-310 | the extracted tree holds the content of every entry of an accepted archive if and only if entries of one normal spelling have the same content |
| ArchiveNames.NormalNamesHaveDistinctTargets | apps/daemon/src/soulmate_daemon/portability.py:269-280 | in particular entries named as the writer names them have pairwise different targets |
| ArchiveNames.SameTargetAccepted | apps/daemon/src/soulmate_daemon/portability.py:269-280 | names are compared as text only: a concrete accepted archive with two entries of one target |
| Envelope.BigEndianRoundTrip | apps/daemon/src/soulmate_daemon/portability.py:217-227 | the length field is read back, and every four bytes are the field of the length they denote |
| Envelope.EncryptThenDecrypt | apps/daemon/src/soulmate_daemon/portability.py:199-257 | sealing succeeds exactly for a legal passphrase, and opening with the same one returns the payload |
| Envelope.DecryptAcceptsExactly | apps/daemon/src/soulmate_daemon/portability.py:220-257 | an input with the magic prefix is opened to a text if and only if it is magic, length, supported short header and a non-empty body sealed over that text under that header and passphrase |
| Envelope.OpenAnswersExactly | apps/daemon/src/soulmate_daemon/portability.py:220-257 | what opening answers for any input and passphrase, field by field: every refusal exactly when it is the first check that fails, and an input without the magic bytes as it is |
| Envelope.SealingAnswersExactly | apps/daemon/src/soulmate_daemon/portability.py:187-214 | sealing is refused exactly for a passphrase shorter than 12 characters or longer than 1024 bytes |
| Portability.ArchiveMovesInstallation | apps/daemon/src/soulmate_daemon/portability.py:356-499 | whatever one installation archives, sealed or not, a fresh one stages, and after its next start database and file tree are exactly the archived ones |
| Portability.LeftoversAreArchived | apps/daemon/src/soulmate_daemon/portability.py:136-162 | every begun copy a power loss left is an entry of every archive made after any further stagings and starts, under its hidden name |
| Supervisor.RunsKeepConsistent | apps/desktop/src-tauri/src/lib.rs:439-728 | every interleaving of serialised commands with event and health tasks keeps: starting, running and stopping imply a child, stopped implies none, every known process is the managed one or the one being stored, a pid enters running at most once |
| Supervisor.AtMostOneDaemon | apps/desktop/src-tauri/src/lib.rs:439-563 | from application start there are never two daemon processes, and none once the record says stopped |
| Supervisor.OkStopLeavesNothing | apps/desktop/src-tauri/src/lib.rs:669-728 | a stop that returns Ok ends with no child and no daemon process |
| Supervisor.RetiredPidStaysInert | apps/desktop/src-tauri/src/lib.rs:579-660 | once a pid is not the child any more, it never is again in any run, and its tasks change nothing |
| Supervisor.FailureStaysVisible | apps/desktop/src-tauri/src/lib.rs:587-648 | a failure stays shown in every run until the owner starts or stops the daemon |
| SupervisorPhases.RunningExactly | apps/desktop/src-tauri/src/lib.rs:617-634 | the record turns to running if and only if the managed child is found healthy while it is starting, and the child stays the same |
| SupervisorPhases.FailedExactly | apps/desktop/src-tauri/src/lib.rs:579-648 | it turns to failed exactly by a failed setup, an unclean exit of the child, a health timeout while it is starting, or a stop that waited in vain |
| SupervisorPhases.StoppedExactly | apps/desktop/src-tauri/src/lib.rs:579-728 | it turns to stopped exactly by a clean exit of the child that no failure preceded, or by a stop that finds no child or whose child is gone |
| SupervisorPhases.StartingAndStoppingExactly | apps/desktop/src-tauri/src/lib.rs:549-692 | it turns to starting exactly when a child is stored and to stopping exactly when a stop reached the child |
| SupervisorPhases.EnteredExactly | apps/desktop/src-tauri/src/lib.rs:617-634 | over every run the pids listed as having entered running are exactly those that the record showed running, as the managed child, after some part of the run |
| SupervisorPhases.OrdinaryStart | apps/desktop/src-tauri/src/lib.rs:439-634 | the ordinary run of check, spawn, store and health answer is possible and ends with the record running that child |
| SupervisorPhases.WaitAnswersExactly | apps/desktop/src-tauri/src/lib.rs:695-728 | for every schedule of wake-ups the wait of a stop answers Ok if and only if the child's end is delivered before any timeout, an error if and only if a timeout comes first, and else goes on |
| SupervisorPhases.LogHoldsNewest | apps/desktop/src-tauri/src/lib.rs:414-421 | the log is the last 250 lines of everything logged, in order |
| Supervisor.AloneRunsAreSerialised | apps/desktop/src-tauri/src/lib.rs:439-728 | the runs of the looser machine of the next two rows with one command at a time and no reuse are exactly the proved runs, and keep their invariant |
| Supervisor.InterleavedStartsLoseAChild | apps/desktop/src-tauri/src/lib.rs:441-563 | why serialisation is needed: a run from application start in which two starts pass the check before either stores its child ends with two live daemon processes, and a stop that answers Ok leaves the unmanaged one running |
| Supervisor.ReusedPidFailsTheNewChild | apps/desktop/src-tauri/src/lib.rs:579-664 | why pids must not be reused: a run in which the health watcher of a daemon that ended fails the record of its successor, which got the same pid and is running |
| Supervisor.ServiceState.PushLog | apps/desktop/src-tauri/src/lib.rs:414-421 | the log queue is always the newest 250 lines of everything logged |
| Supervisor.ServiceState.Start | apps/desktop/src-tauri/src/lib.rs:555-564 | the second lock section of a start stores the child and the starting state and logs the start |
| Supervisor.ServiceState.Terminated | apps/desktop/src-tauri/src/lib.rs:579-602 | a termination clears the child only for its own pid, keeps a failure, and else tells a clean exit from a failed one; the exit is logged either way |
| Supervisor.ServiceState.BecameHealthy | apps/desktop/src-tauri/src/lib.rs:617-634 | the health answer turns starting into running for the current pid only, keeps the child and changes nothing else |
| Supervisor.ServiceState.HealthTimedOut | apps/desktop/src-tauri/src/lib.rs:638-664 | the timeout turns starting into failed for the current pid only; the log gets the timeout, and before it a failed shutdown request exactly when this watcher failed the record |
| Supervisor.ServiceState.StopDaemon | apps/desktop/src-tauri/src/lib.rs:669-728 | the stop with its condition-variable loop answers as its lock sections say for every schedule of wake-ups, and an Ok answer leaves the record stopped without a child |
| Supervisor.ServiceState.ReceiveEvents | apps/desktop/src-tauri/src/lib.rs:567-605 | the event loop applies the terminations in the order they arrive |
| LifecycleInvariant.StepKeeps | apps/daemon/src/soulmate_daemon/decisions.py:237-324 | one request keeps the invariant of the store and takes no decision, option, resolution or Evidence item back |
| LifecycleInvariant.RunKeeps | apps/daemon/src/soulmate_daemon/decision_io.py:295-376 | every run of ingestion, review, resolution and outcome requests keeps the invariant, and canonical records only grow |
| LifecycleReview.ReachableStoresSound | apps/daemon/src/soulmate_daemon/decision_io.py:338-375 | in every reachable store a decision is resolved exactly when it has a resolution, by one of its own options, at most one; outcomes are on resolved decisions, one each; Evidence never repeats; a confirmed choice has its resolution and its whole Evidence |
| LifecycleReview.RunMovesReports | packages/storage-sqlite/src/soulmate_storage_sqlite/decision_io.py:512-600 | over every run a report moves only forward from unmatched to pending to confirmed, or to rejected, which is final, and keeps its option and its decision |
| LifecycleReview.StepMovesReports | apps/daemon/src/soulmate_daemon/decision_io_api.py:517-617 | one request moves a report by at most one such step |
| LifecycleReview.ConfirmSucceedsExactly | apps/daemon/src/soulmate_daemon/decision_io_api.py:531-570 | a confirmation succeeds exactly for a pending choice with an option on an open decision, or a pending satisfaction report with the owner's values and no outcome yet; a refused one changes nothing; the missing-records failure comes exactly for a pending choice without an option on an open decision |
| LifecycleReview.ConfirmedAtMostOnce | apps/daemon/src/soulmate_daemon/decision_io.py:581-611 | after a confirmation, whatever happens next, another one is refused and changes nothing |
| LifecycleFinality.ConfirmedCanBeRejected | apps/daemon/src/soulmate_daemon/decision_io_api.py:585-617 | confirmed is not final: rejecting a confirmed report of either kind succeeds and keeps decisions, resolutions, Evidence and outcomes |
| LifecycleFinality.ConfirmedUntilRejectedExactly | apps/daemon/src/soulmate_daemon/decision_io_api.py:585-617 | over any run a confirmed report stays confirmed if and only if no request of the run rejects it |
| LifecycleFinality.RejectingKeepsTheOutcome | apps/daemon/src/soulmate_daemon/decision_io_api.py:561-600 | the values the owner gave when confirming a report of satisfaction stay the owner's outcome when the report is rejected afterwards |
| LifecycleFinality.SomeRunConfirmsExactly | apps/daemon/src/soulmate_daemon/decision_io_api.py:517-579 | a stored report that is not confirmed is confirmed in some run if and only if it is a pending choice with its option on an open decision, or a pending report of satisfaction |
| LifecycleFinality.ReportedChoiceConfirmableExactly | apps/daemon/src/soulmate_daemon/decision_io.py:446-508 | a choice just reported is confirmed, at once or in some later run, if and only if its source had reported the decision before and it was still open |
| LifecycleReview.OptionIffMatched | apps/daemon/src/soulmate_daemon/decision_io.py:446-508 | a stored choice carries an option exactly when its decision was stored before it |
| LifecycleReview.PromotedExactly | apps/daemon/src/soulmate_daemon/decision_io.py:470-508 | a reported choice is promoted exactly when it is promotable on a known open decision, which is then resolved by the very option reported |
| LifecycleReview.NewDecisionAttachesExactly | packages/storage-sqlite/src/soulmate_storage_sqlite/decision_io.py:561-600 | a new decision attaches exactly the unmatched reports of its own source under its identifier, and changes no other |
| LifecycleRecords.DecisionStored | apps/daemon/src/soulmate_daemon/decision_io.py:379-424 | a reported decision is stored open under a new identifier, with as many options as reported, each under its own external identifier and a new identifier of its own |
| LifecycleRecords.LaterChoiceNamesOptionExactly | apps/daemon/src/soulmate_daemon/decision_io.py:446-508 | after any further run, a choice of that decision by its source under a new event identifier is refused as an unknown option if and only if its option was not reported, and else it is stored with the option at the very place it was reported |
| LifecycleRecords.WellbeingAnswersExactly | apps/daemon/src/soulmate_daemon/decision_io.py:222-293 | a legacy satisfaction report is answered by the first check that fails: unknown decision, unresolved decision, a report with the same content before, or with another one |
| LifecycleRecords.WellbeingStored | apps/daemon/src/soulmate_daemon/decision_io.py:222-293 | a recorded legacy report becomes one new pending observation with exactly the reported values, and nothing else changes |
| LifecycleRecords.WellbeingCountsOnce | apps/daemon/src/soulmate_daemon/decision_io.py:222-293 | in every later run the same report is a duplicate and one with other values or notes a conflict, and neither changes anything |
| LifecycleAnswers.EventAnswersExactly | apps/daemon/src/soulmate_daemon/decision_io.py:295-392 | each answer to an agent's event is given exactly when its condition is the first that holds: invalid, a repeated identifier with the same content or with another, a known decision reported again, an option not offered |
| LifecycleAnswers.ChoiceStored | apps/daemon/src/soulmate_daemon/decision_io.py:446-508 | a choice is stored under its own source, event and decision, and resolves the decision exactly when it is promotable on a known open one |
| LifecycleAnswers.ResultStored | apps/daemon/src/soulmate_daemon/decision_io.py:510-552 | a reported result is a new observation of its own source, event and decision, pending exactly when the decision is known, and no canonical record changes |
| LifecycleAnswers.ConfirmAnswersExactly | apps/daemon/src/soulmate_daemon/decision_io_api.py:517-579 | each answer to a confirmation is given exactly when its condition on the stored report, decision and outcomes is the first that holds |
| LifecycleAnswers.RejectExactly | apps/daemon/src/soulmate_daemon/decision_io_api.py:585-617 | a rejection changes the status of that report and nothing else, and is refused exactly for an unknown one |
| LifecycleAnswers.ResolveExactly | apps/daemon/src/soulmate_daemon/decisions.py:237-278 | the owner's resolution is answered by the first check that fails, and when it is done the decision is resolved by that very option |
| LifecycleAnswers.OutcomeExactly | apps/daemon/src/soulmate_daemon/decisions.py:280-324 | an outcome is recorded exactly on a resolved decision without one, with the owner's values |
| LifecycleAnswers.LegacyKeysDiffer | apps/daemon/src/soulmate_daemon/decision_io.py:254 | legacy reports of different decisions have different identifiers, so none stands in the way of another |
| LifecycleReview.NoOptionNeverConfirmed | apps/daemon/src/soulmate_daemon/decision_io.py:555-611 | a choice stored without an option is confirmed in no run |
| LifecycleReview.LateDecisionStrandsChoice | packages/storage-sqlite/src/soulmate_storage_sqlite/decision_io.py:561-600 | a choice reported before its decision becomes pending for it and can be confirmed in no run, even if the decision has the reported option |
| LifecycleReview.CrashLeavesReportOpen | apps/daemon/src/soulmate_daemon/decision_io_api.py:561-570 | a crash between the two writes keeps the owner's outcome and leaves the report pending, and no run without deleting that outcome confirms it |
| LifecycleFinality.ConfirmableAfterCrashExactly | apps/daemon/src/soulmate_daemon/decision_io_api.py:561-570 | after that crash and any further run a confirmation with the owner's values succeeds if and only if the report is still pending and its decision has no outcome |
| LifecycleReview.DeletingReopens | apps/daemon/src/soulmate_daemon/decisions.py:358-365 | deleting that outcome makes the same report confirmable again |
| LifecycleEvidence.ResolvedEvidenceIsSettled | packages/storage-sqlite/src/soulmate_storage_sqlite/decision_io.py:413-440 | once a decision is resolved no run adds or removes an item of its Evidence |
| LifecycleEvidence.ResolveIsCompleteExactly | apps/daemon/src/soulmate_daemon/decisions.py:265-278 | the owner's own resolution has its whole Evidence, then and after any run, exactly when the process did not die before the last item |
| LifecycleIsolation.OwnerWroteEveryOutcome | apps/daemon/src/soulmate_daemon/decision_io_api.py:548-563 | every outcome stored after a run holds the values that one of the owner's own requests gave, for the very decision it was given for |
| LifecycleIsolation.AgentsAloneDecideNothing | apps/daemon/src/soulmate_daemon/decision_io.py:222-293 | whatever agents report, in any order, without an owner's promotable choice nothing is resolved, learned or recorded as an outcome |
| LifecycleIsolation.ReportedWellbeingHasNoInfluence | apps/daemon/src/soulmate_daemon/decision_io.py:222-293 | two runs that differ only in the satisfaction and regret agents report end with identical decisions, choices, resolutions, Evidence and owner outcomes |
| LifecycleIsolation.StepAlike | apps/daemon/src/soulmate_daemon/decision_io.py:528-532 | each request keeps two such stores alike and answers both alike, except the report of the values itself |
| LifecycleIsolation.ReportedResultsStayObservations | apps/daemon/src/soulmate_daemon/decision_io.py:510-552 | a reported result is stored without satisfaction, pending exactly when its decision is known, and no run confirms it |
| LifecycleIsolation.EventsCountOnce | packages/storage-sqlite/src/soulmate_storage_sqlite/decision_io.py:252-263 | an event identifier of a source counts once: at any later time the same report is a duplicate, a different one a conflict, and neither changes anything |
| LifecycleService.DecisionService.FindOption | apps/daemon/src/soulmate_daemon/decision_io.py:457-467 | the first option with the reported external identifier |
| LifecycleService.DecisionService.ResolutionObservation | apps/daemon/src/soulmate_daemon/decision_io.py:446-508 | the observation to store: confirmed only for a promotable choice on an open known decision |
| LifecycleService.DecisionService.IngestDecision | packages/storage-sqlite/src/soulmate_storage_sqlite/decision_io.py:280-320 | the projected decision gets fresh identifiers and its source's earlier reports are attached to it |
| LifecycleService.DecisionService.IngestChoice | apps/daemon/src/soulmate_daemon/decision_io.py:338-371 | the choice is stored, and a promoted one resolved with it |
| LifecycleService.DecisionService.IngestResult | apps/daemon/src/soulmate_daemon/decision_io.py:510-552 | the result is stored, pending exactly when its decision is known |
| LifecycleService.DecisionService.Validate | apps/daemon/src/soulmate_daemon/decision_io.py:379-392 | the checks before ingestion and which of them fails first |
| LifecycleService.DecisionService.RecordEvent | apps/daemon/src/soulmate_daemon/decision_io.py:295-376 | the whole new store and the answer of one agent event: validated, deduplicated, then stored with its projections; the invariant is kept, no canonical record taken back, and an identifier seen before changes nothing |
| LifecycleService.DecisionService.ReportWellbeing | apps/daemon/src/soulmate_daemon/decision_io.py:222-293 | the whole new store and the answer of a legacy satisfaction report, whose identifier shares the space of its source's events; the invariant is kept and no outcome is touched |
| LifecycleService.DecisionService.ConfirmResolution | apps/daemon/src/soulmate_daemon/decision_io.py:581-611 | the whole new store and the answer of confirming a reported choice |
| LifecycleService.DecisionService.ConfirmObservation | apps/daemon/src/soulmate_daemon/decision_io_api.py:517-579 | the whole new store and the answer of a confirmation, with the crash between its two writes; the invariant is kept, a confirmed report is refused without any change, and a success leaves the report confirmed |
| LifecycleService.DecisionService.RejectObservation | apps/daemon/src/soulmate_daemon/decision_io_api.py:585-617 | the whole new store and the answer of a rejection, from any status; the invariant is kept and the report is not confirmed any more |
| LifecycleService.DecisionService.Create | apps/daemon/src/soulmate_daemon/decisions.py:182-210 | a created decision is open and its options get fresh identifiers; the invariant is kept |
| LifecycleService.DecisionService.Resolve | apps/daemon/src/soulmate_daemon/decisions.py:237-278 | the whole new store and the answer of the owner's resolution, with the Evidence loop cut anywhere; the invariant is kept |
| LifecycleService.DecisionService.RecordOutcome | apps/daemon/src/soulmate_daemon/decisions.py:280-324 | the whole new store and the answer of recording an outcome; the invariant is kept, and a second outcome of a decision is refused without any change |
| LifecycleService.DecisionService.DeleteOutcome | packages/storage-sqlite/src/soulmate_storage_sqlite/repositories.py:781-795 | the whole new store and the answer of deleting an outcome; afterwards the decision has none |
| LifecycleService.DecisionService.Serve | apps/daemon/src/soulmate_daemon/decision_io_api.py:517-617 | any sequence of requests leaves exactly the store of the run of the request functions, valid, with no canonical record taken back |
| LifecycleExamples.ChoiceBeforeDecision | apps/daemon/src/soulmate_daemon/decision_io.py:446-508 | from the empty store: a choice, then its decision with the chosen option; no run confirms the choice |
| LifecycleExamples.ChoiceAfterDecision | apps/daemon/src/soulmate_daemon/decision_io_api.py:585-617 | from the empty store: a promoted choice that is rejected and keeps its resolution |
| LifecycleExamples.SatisfactionRejectedAfterwards | apps/daemon/src/soulmate_daemon/decision_io_api.py:585-600 | from the empty store: a report of satisfaction that is confirmed and then rejected, and the outcome that stays |
| LifecycleExamples.EvidenceLost | apps/daemon/src/soulmate_daemon/decisions.py:265-278 | from the empty store: a resolution whose process dies before its first Evidence item, which no run adds |
| LifecycleExamples.CrashWhileConfirming | apps/daemon/src/soulmate_daemon/decision_io_api.py:561-570 | from the empty store: a report of satisfaction whose confirmation dies between its writes and is refused from then on |
| DownloadSafety.InstalledFilesArePinned | apps/daemon/src/soulmate_daemon/model_artifacts.py:189-222 | in every reachable state of the service, whatever the server sends, each installed file has the bytes its pinned hash stands for |
| DownloadSafety.PartialsStayPrefixes | apps/daemon/src/soulmate_daemon/model_artifacts.py:284-323 | with a server honouring sections 14.2 and 15.3.7 of RFC 9110, after every chunk, failure, cancel, crash and resume each partial file is a prefix of the content and the stream holds exactly the rest |
| DownloadSafety.StepKeepsPrefixExactly | apps/daemon/src/soulmate_daemon/model_artifacts.py:204-222 | a step keeps that if and only if it is not an import that died after copying past the bytes the owner's file shares with the upstream one |
| DownloadSafety.ImportInstallsExactly | apps/daemon/src/soulmate_daemon/model_artifacts.py:204-222 | an undisturbed import of a known name installs the owner's file if and only if it has the pinned hash; its partial is gone either way and no other file changes |
| DownloadExamples.ForeignPartialExample | apps/daemon/src/soulmate_daemon/model_artifacts.py:204-222 | from the empty store: importing the wrong file and stopping while it is copied leaves such a partial |
| DownloadSafety.AttemptInstallsExactly | apps/daemon/src/soulmate_daemon/model_artifacts.py:300-323 | an undisturbed attempt installs exactly the content if and only if the server answers 200 or 206, and else leaves everything but the task as it was |
| DownloadSafety.StrictAttemptInstallsExactly | apps/daemon/src/soulmate_daemon/model_artifacts.py:291-304 | with a server that answers ranges strictly, an attempt installs the file exactly when the partial is not already complete |
| DownloadSafety.CompletePartialNeverInstalls | apps/daemon/src/soulmate_daemon/model_artifacts.py:291-302 | with a complete partial and such a server no run of starts, retries, cancels and restarts installs the file |
| DownloadReach.InstallableExactly | apps/daemon/src/soulmate_daemon/model_artifacts.py:273-323 | between downloads, with such a server and content that matches the pins: some run of starts, retries, cancels and restarts installs a missing file if and only if neither it nor a missing file before it has a complete partial |
| DownloadExamples.CompletePartialExample | apps/daemon/src/soulmate_daemon/model_artifacts.py:284-323 | from the empty store: an honest download stopped between its last chunk and the verification leaves a complete partial, and no strict run of downloads installs the file |
| DownloadSafety.ForeignPartialIsDiscarded | apps/daemon/src/soulmate_daemon/model_artifacts.py:189-200 | a foreign partial costs one attempt: the resumed file is discarded and the next attempt installs the content |
| DownloadSafety.RemoveLeavesNothing | apps/daemon/src/soulmate_daemon/embedding_models.py:185-198 | in every reachable state without a running download a removal leaves no installed and no partial file; it is refused only where no directory is, and there nothing is stored |
| DownloadProgress.ProgressNeverDecreases | apps/daemon/src/soulmate_daemon/model_artifacts.py:273-317 | over a whole download through all files and resumptions the reported bytes never decrease |
| DownloadProgress.LastReportIsInstalledTotal | apps/daemon/src/soulmate_daemon/model_artifacts.py:293-323 | the report of a file's last chunk equals, after activation, the total size of the installed files |
| DownloadProgress.ExpectedIsUpstreamSize | apps/daemon/src/soulmate_daemon/model_artifacts.py:326-333 | with an honest length the expected size is the size of the content, resumed or not, and what is written plus what is missing |
| DownloadAnswers.StartBeginsExactly | apps/daemon/src/soulmate_daemon/embedding_models.py:112-132 | a start begins a download exactly when none runs, a file is missing and the egress policy admits it; it forgets the last failure and touches no file |
| DownloadAnswers.StopsExactly | apps/daemon/src/soulmate_daemon/model_artifacts.py:284-323 | a download at work stops in one step exactly when it is cancelled, dies, fails, gets a response without content, or has streamed bytes that are not the pinned ones, and only the last three show a failure |
| DownloadAnswers.UnfinishedExchangeEnds | apps/daemon/src/soulmate_daemon/model_artifacts.py:300-323 | an accepted response whose stream breaks off, is cancelled or ends too early leaves every installed file as it was, and only a cancellation is not shown as a failure |
| DownloadAnswers.RemovalExactly | apps/daemon/src/soulmate_daemon/embedding_models.py:185-198 | a removal works exactly when nothing runs and the directory is there, and then leaves nothing of the model and no failure |
| DownloadAnswers.CutImportLeaves | apps/daemon/src/soulmate_daemon/model_artifacts.py:204-222 | an import that dies leaves exactly the bytes it copied as the partial of that name, and no failure |
| DownloadAll.ServedDownloadInstallsAll | apps/daemon/src/soulmate_daemon/model_artifacts.py:257-282 | if every missing file is served, with any chunking and any partial files of the same content, the download ends with everything installed |
| DownloadAll.DownloadKeepsPins | apps/daemon/src/soulmate_daemon/model_artifacts.py:273-282 | a download, however it goes, ends with pinned files only |
| DownloadService.EmbeddingModelService.FileSha256 | apps/daemon/src/soulmate_daemon/model_artifacts.py:128-134 | hashing chunk by chunk gives the hash of the whole file |
| DownloadService.EmbeddingModelService.Activate | apps/daemon/src/soulmate_daemon/model_artifacts.py:189-202 | a matching file moves into place, a mismatch is discarded |
| DownloadService.EmbeddingModelService.InstalledSize | apps/daemon/src/soulmate_daemon/model_artifacts.py:293-297 | the sum over all installed files but one |
| DownloadService.EmbeddingModelService.IsInstalled | apps/daemon/src/soulmate_daemon/model_artifacts.py:166-168 | true exactly when every pinned file is there |
| DownloadService.EmbeddingModelService.StartDownload | apps/daemon/src/soulmate_daemon/embedding_models.py:112-132 | starts exactly when nothing runs, something is missing and the egress policy allows it |
| DownloadService.EmbeddingModelService.CancelDownload | apps/daemon/src/soulmate_daemon/embedding_models.py:163-171 | cancels exactly a running download and keeps the partial file |
| DownloadService.EmbeddingModelService.CopyIn | apps/daemon/src/soulmate_daemon/model_artifacts.py:212-218 | the chunk loop of an import leaves exactly the source, or the chunks copied before the process died |
| DownloadService.EmbeddingModelService.ImportFile | apps/daemon/src/soulmate_daemon/model_artifacts.py:204-222 | the copy loop, cut after any chunk, and the verified activation; success means the file holds exactly the source |
| DownloadService.EmbeddingModelService.RemoveModel | apps/daemon/src/soulmate_daemon/embedding_models.py:185-198 | removes installed and partial files and their directory, unless a download runs or no directory is there |
| DownloadService.EmbeddingModelService.OpenPartial | apps/daemon/src/soulmate_daemon/model_artifacts.py:291-306 | asks for the missing part and appends only to an answer 206, else starts over or fails |
| DownloadService.EmbeddingModelService.ReceiveChunks | apps/daemon/src/soulmate_daemon/model_artifacts.py:307-317 | the chunk loop performs exactly the chunk steps, whatever their sizes |
| DownloadService.EmbeddingModelService.EndStream | apps/daemon/src/soulmate_daemon/model_artifacts.py:318-323 | a stream that ended whole is verified and activated, any other end keeps the partial file and ends the task |
| DownloadService.EmbeddingModelService.DownloadFile | apps/daemon/src/soulmate_daemon/model_artifacts.py:284-323 | one file with any chunks and any ending performs exactly the steps of its events |
| DownloadService.EmbeddingModelService.RunDownload | apps/daemon/src/soulmate_daemon/model_artifacts.py:273-282 | the loop over the files skips installed ones and stops at the first failure |
| KeyOrdering.UsedKeysIgnoreListing | apps/daemon/src/soulmate_daemon/key_semantics.py:58-74 | listing the same evidence in another order changes neither the used keys nor their order |
| KeyOrdering.UsedKeysInFirstUseOrder | apps/daemon/src/soulmate_daemon/key_semantics.py:58-74 | keys stand once each, in the order of their earliest evidence by creation time and identifier |
| KeyOrdering.UsedKeysAreUsed | apps/daemon/src/soulmate_daemon/key_semantics.py:58-74 | the used keys are exactly the keys of the evidence |
| KeyOrdering.SortSorts | apps/daemon/src/soulmate_daemon/key_semantics.py:64 | sorting orders the evidence and keeps every item |
| KeyRefresh.BatchesArePointwise | apps/daemon/src/soulmate_daemon/key_semantics.py:162-189 | successful batches give every key its text's vector, whatever the batch size |
| KeyBatches.EmbedsExactly | apps/daemon/src/soulmate_daemon/key_semantics.py:162-189 | embedding succeeds if and only if for every batch the reply to its own call on its own texts holds one vector for each key of the batch |
| KeyBatches.EmbeddedInPlace | apps/daemon/src/soulmate_daemon/key_semantics.py:170-187 | and then the vectors of each batch stand at the place of the batch |
| KeyBatches.RefreshSucceedsExactly | apps/daemon/src/soulmate_daemon/key_semantics.py:130-160 | a refresh returns vectors if and only if the model is ready, the process lives and every batch of stale keys is answered; it counts exactly the stale keys as embedded |
| KeyBatches.DependableRefresh | apps/daemon/src/soulmate_daemon/key_semantics.py:130-160 | with a ready model and a provider that always answers with the right number of vectors, every refresh succeeds and returns what recomputing everything gives, for all evidence, labels and stored vectors |
| KeyBatches.DeathKeepsVectors | apps/daemon/src/soulmate_daemon/key_semantics.py:151-160 | a refresh that dies before it drops the other models' rows has stored all its vectors and left those rows, and the next one succeeds without calling the provider |
| KeyBatches.LabelChangeStalesExactly | apps/daemon/src/soulmate_daemon/key_semantics.py:58-149 | a key whose row was current becomes stale by setting or dropping a label exactly when it is that label's key and the change changes its text |
| KeyRefresh.RefreshIsRecomputation | apps/daemon/src/soulmate_daemon/key_semantics.py:130-160 | a successful refresh returns for every used key, in order, exactly the vector of its current text, leaves no used key's row stale and no other model's row; an unsuccessful one leaves the stored vectors as they were |
| KeyRefresh.UnusedRowsStay | apps/daemon/src/soulmate_daemon/key_semantics.py:141-189 | rows of keys that no evidence uses any more stay as they were under the current model, stale or not |
| KeyRefresh.SecondRefreshEmbedsNothing | apps/daemon/src/soulmate_daemon/key_semantics.py:141-150 | a refresh right after a successful one embeds nothing, needs no provider and returns the same |
| KeyRefresh.HistoriesKeepIndex | apps/daemon/src/soulmate_daemon/key_semantics.py:130-189 | whatever the history of evidence, labels, models, failures and crashes, each stored vector is the one of the text its hash stands for |
| KeyRefresh.RefreshAfterAnyHistory | apps/daemon/src/soulmate_daemon/key_semantics.py:130-160 | after any history a successful refresh equals full recomputation |
| KeySemantics.KeySemanticsService.KeyTexts | apps/daemon/src/soulmate_daemon/key_semantics.py:58-74 | the loop yields the used keys in order with the current text of each |
| KeySemantics.KeySemanticsService.StaleKeys | apps/daemon/src/soulmate_daemon/key_semantics.py:141-149 | exactly the used keys whose stored hash is missing or not that of the current text |
| KeySemantics.KeySemanticsService.EmbedAll | apps/daemon/src/soulmate_daemon/key_semantics.py:170-187 | the batch loop gives what the batches give, and fails on the first unusable reply |
| KeySemantics.KeySemanticsService.Embed | apps/daemon/src/soulmate_daemon/key_semantics.py:162-189 | nothing is stored unless every batch succeeds, then every row at once |
| KeySemantics.KeySemanticsService.WriteRows | packages/storage-sqlite/src/soulmate_storage_sqlite/key_metadata.py:135-163 | each row replaces the row of its key and model |
| KeySemantics.KeySemanticsService.Refresh | apps/daemon/src/soulmate_daemon/key_semantics.py:130-160 | the method stores and returns exactly what a refresh does, also with a crash before other models' rows are dropped |
| NegotiationProofs.SortIsStablePartition | packages/llm-providers/src/soulmate_llm_providers/adapters.py:298-299 | the sort puts the remembered mode first, keeps the order of all others and loses nothing |
| NegotiationProofs.OrderIsStrategies | packages/llm-providers/src/soulmate_llm_providers/adapters.py:269-299 | the order is the three strategies, stably rearranged with the remembered mode first |
| NegotiationProofs.FirstAnswerWins | packages/llm-providers/src/soulmate_llm_providers/adapters.py:300-316 | a call succeeds at a mode exactly when it answers and all before it failed negotiably; then it is remembered and nothing more is sent |
| NegotiationProofs.FailureKeepsMode | packages/llm-providers/src/soulmate_llm_providers/adapters.py:300-317 | a failing call keeps the remembered mode; all modes are exhausted exactly when all failed negotiably, and any other failure ends the call at once |
| NegotiationProofs.TransientStopsAtOnce | packages/llm-providers/src/soulmate_llm_providers/adapters.py:17-20 | a transient failure ends the call at once and leaves the mode unchanged |
| NegotiationProofs.StatusDecides | packages/llm-providers/src/soulmate_llm_providers/adapters.py:17-20 | a status for the first mode: after 400, 404, 415, 422, 500, 501 or 502 the next mode is asked and its answer returned and remembered, after any other status the call ends with it |
| NegotiationProofs.OllamaCallExactly | packages/llm-providers/src/soulmate_llm_providers/adapters.py:170-200 | what an Ollama call comes to for every endpoint and remembered mode, down to the statuses by which it falls back |
| NegotiationProofs.ProviderSettles | packages/llm-providers/src/soulmate_llm_providers/adapters.py:269-317 | against an endpoint with fixed abilities the first call finds the strongest supported mode, and every later call of any run succeeds with one request |
| NegotiationProofs.OllamaModeOnlyWeakens | packages/llm-providers/src/soulmate_llm_providers/adapters.py:170-200 | over any run the mode only moves from none to schema to prompted, and prompted is absorbing |
| NegotiationProofs.MalformedSchemaOutputIsFinal | packages/llm-providers/src/soulmate_llm_providers/adapters.py:178-194 | malformed output of the schema attempt ends an Ollama call, while the OpenAI-compatible call goes on |
| NegotiationProofs.WrappedAnswersNeverRecover | packages/llm-providers/src/soulmate_llm_providers/adapters.py:178-200 | a concrete model that spoils schema answers: no run of Ollama calls gets an answer out of it, the other provider's first call does |
| NegotiationService.OpenAICompatibleProvider.GenerateStructured | packages/llm-providers/src/soulmate_llm_providers/adapters.py:269-317 | the loop returns the outcome, the remembered mode and the number of requests of the call |
| NegotiationService.OllamaProvider.GenerateStructured | packages/llm-providers/src/soulmate_llm_providers/adapters.py:170-200 | the method returns the outcome, the remembered mode and the number of requests of the call |
| Base64Url.EncodeBase64Url | packages/sdk-typescript/src/pairing.ts:44-54 | the encoder with its loops over bytes and trailing padding |
| Base64UrlProofs.GroupsLawful | packages/sdk-typescript/src/pairing.ts:34-54 | the bit arithmetic on three bytes and four sextets is inverse both ways, up to left-over bits |
| Base64UrlProofs.EncodeIsUrlAlphabet | apps/daemon/src/soulmate_daemon/pairing.py:36-41 | both encoders' way through the standard alphabet and padding is section 5 of RFC 4648 without padding |
| Base64UrlProofs.GroupsInOrder | packages/sdk-typescript/src/pairing.ts:44-54 | group by group and in order, the sextets are the bits of the bytes, short groups filled with zero bits |
| Base64UrlProofs.CodeIsListed | packages/sdk-typescript/src/pairing.ts:44-54 | every character of a code is the one that section 5 of RFC 4648 lists for its sextet |
| Base64UrlProofs.PadFormulaRestores | packages/sdk-typescript/src/pairing.ts:35-38 | the pad formula restores exactly the stripped padding |
| Base64UrlProofs.DecodeAcceptsExactly | packages/sdk-typescript/src/pairing.ts:34-42 | any text decodes exactly when, without spaces and padding signs at its end, it is in one of the two alphabets and of a possible length, and is followed by no padding sign or by those that complete its last group, counting its own and the appended ones; the result is the bytes of its sextets |
| Base64UrlProofs.PlainTextDecodesExactly | packages/sdk-typescript/src/pairing.ts:34-42 | text without spaces and padding signs decodes exactly when its length is possible and its characters are known |
| Base64UrlProofs.SpaceSpoilsPadding | packages/sdk-typescript/src/pairing.ts:34-42 | a valid text that a single space makes invalid, because the appended padding counts the space |
| Base64UrlProofs.FourSpacesIgnored | packages/sdk-typescript/src/pairing.ts:34-42 | a multiple of four ASCII white space characters does no harm, wherever it stands |
| Base64UrlProofs.DecodeOfEncode | packages/sdk-typescript/src/pairing.ts:34-54 | decoding what was encoded returns the bytes, for every length |
| Base64UrlProofs.EncodeOfDecodeExactly | packages/sdk-typescript/src/pairing.ts:34-54 | encoding what was decoded returns the text exactly when its left-over bits are zero |
| Base64UrlProofs.TwoTextsOneByte | packages/sdk-typescript/src/pairing.ts:34-42 | two different texts decode to the same byte |
| PairingProofs.ParseOfEncodeExactly | packages/sdk-typescript/src/pairing.ts:65-118 | parsing an encoded payload returns it if and only if it is a complete invitation over TLS with a well-formed fingerprint, and is refused otherwise, for either encoder |
| PairingProofs.EncodersAgree | apps/daemon/src/soulmate_daemon/pairing.py:26-41 | codes of the daemon's and the phone's encoder for one payload are read alike |
| PairingProofs.SpaceAroundIgnored | packages/sdk-typescript/src/pairing.ts:65-118 | white space and line ends around any text do not change what is read from it |
| PairingProofs.PastedCodeIsRead | packages/sdk-typescript/src/pairing.ts:65-118 | a code pasted with blanks and a line end around it is read as the invitation it encodes |
| PairingProofs.ReadAnswersExactly | packages/sdk-typescript/src/pairing.ts:74-118 | each refusal of an object is given exactly when its condition is the first that holds, key by key |
| PairingProofs.ScanAnswersExactly | packages/sdk-typescript/src/pairing.ts:65-90 | a text is no pairing code exactly without the prefix; one with it is damaged if it does not decode to an object |
| BackoffProofs.DelayMonotone | apps/daemon/src/soulmate_daemon/jobs.py:43-50 | the delay never decreases with the attempts and never exceeds the cap |
| BackoffProofs.TotalDelayClosedForm | apps/daemon/src/soulmate_daemon/jobs.py:43-50 | the sum of the first n delays is a doubling part plus a capped part |
| BackoffProofs.SevenWaits | apps/daemon/src/soulmate_daemon/conversation.py:44-47 | the seven waits of eight attempts sum to 2730 seconds |
| BackoffProofs.AttemptsSpanTheWaits | packages/storage-sqlite/src/soulmate_storage_sqlite/repositories.py:1282-1356 | however a job keeps failing, by exceptions or by dying, its attempts are within its limit and span at least the waits between them: the delay after one that raised, the lease after one that died |
| BackoffProofs.FastestRun | packages/storage-sqlite/src/soulmate_storage_sqlite/repositories.py:1282-1356 | for every pattern of dying within the limit there is a failing run that takes exactly the waits of the pattern |
| BackoffProofs.SpansExactly | packages/storage-sqlite/src/soulmate_storage_sqlite/repositories.py:1282-1356 | whatever the bound, every failing run of a pattern spans at least it if and only if the waits of the pattern add up to it |
| BackoffProofs.RaisingWaitsAreDelays | apps/daemon/src/soulmate_daemon/jobs.py:43-50 | if all attempts raise, these waits are exactly the delays of the backoff |
| BackoffProofs.LearningRidesOut | apps/daemon/src/soulmate_daemon/conversation.py:44-47 | eight failing extraction attempts span at least 2730 seconds if all of them raise, and at least 1353 seconds however many of them die |
| LearningProofs.LearningRidesOutExactly | apps/daemon/src/soulmate_daemon/conversation.py:44-47 | whatever the bound and whichever of the eight attempts die, a queued message is sure to ride it out if and only if 2730 seconds, plus what early deaths add, minus what late deaths take away, reach it |
| LearningProofs.FortyFiveMinutesExactly | apps/daemon/src/soulmate_daemon/conversation.py:44-47 | the promised 45 minutes hold exactly when the late deaths take away at most 30 seconds more than the early ones add, in particular when no attempt dies |
| LearningProofs.ShortestRide | apps/daemon/src/soulmate_daemon/conversation.py:44-47 | from a queued message: a run of eight failing attempts, three of which die, that is over in exactly 1353 seconds |
| WorkerProofs.TurnHandlesBest | packages/storage-sqlite/src/soulmate_storage_sqlite/repositories.py:1282-1334 | a turn handles at most one job and changes no other row, except giving up an interrupted final attempt |
| WorkerProofs.TurnSettlesExactly | apps/daemon/src/soulmate_daemon/jobs.py:31-59 | a turn handles a job if and only if one waits, one that no waiting job comes before, and leaves it succeeded, queued again, failed or running as its handler ended |
| WorkerProofs.OthersGivenUpExactly | packages/storage-sqlite/src/soulmate_storage_sqlite/repositories.py:1318-1332 | a row that is not handled changes if and only if it is interrupted in its final attempt, and is failed then |
| WorkerProofs.HandledWithinLimit | apps/daemon/src/soulmate_daemon/jobs.py:31-59 | in any run with failures and crashes a job is handled exactly as often as its attempts count, within its limit |
| WorkerProofs.SettledJobsRest | packages/storage-sqlite/src/soulmate_storage_sqlite/repositories.py:1287-1294 | a job that succeeded or failed for good is never handled again |
| Worker.DurableJobWorker.ExpireStale | packages/storage-sqlite/src/soulmate_storage_sqlite/repositories.py:1318-1332 | gives up exactly the interrupted final attempts |
| Worker.DurableJobWorker.FindBest | packages/storage-sqlite/src/soulmate_storage_sqlite/repositories.py:1287-1305 | finds the first claimable row in claim order, or none exactly when there is none |
| Worker.DurableJobWorker.ClaimNext | packages/storage-sqlite/src/soulmate_storage_sqlite/repositories.py:1282-1334 | claims that row with one more attempt and a lock |
| Worker.DurableJobWorker.ProcessOnce | apps/daemon/src/soulmate_daemon/jobs.py:31-59 | the whole table after one turn |
| Worker.DurableJobWorker.Run | apps/daemon/src/soulmate_daemon/jobs.py:61-67 | the worker's loop leaves exactly the table of its turns |
| LearningProofs.LearnsFromOneExtraction | apps/daemon/src/soulmate_daemon/conversation.py:205-238 | after any run of claims, failures, crashes between writes, re-claims and requeues, the Evidence of a message is a prefix of one single extraction's accepted list |
| LearningProofs.AttemptExactly | apps/daemon/src/soulmate_daemon/conversation.py:205-238 | a claimed attempt settles its job as it ended, asks the provider exactly if nothing was learned yet, and takes no item back |
| LearningProofs.LearnedStays | apps/daemon/src/soulmate_daemon/conversation.py:216-220 | once one item is stored no run asks the provider again or adds anything |
| LearningProofs.NoDuplicateEvidence | apps/daemon/src/soulmate_daemon/conversation.py:166-175 | the Evidence has no duplicates if no extraction has |
| LearningProofs.CutShortIsFinalExactly | apps/daemon/src/soulmate_daemon/conversation.py:166-220 | a message keeps a proper part of an extraction in every later run exactly when the attempt raised or died after the first item and before the last; in every other case some run goes on to learn the whole list |
| LearningProofs.NothingStoredIsLearnedLater | apps/daemon/src/soulmate_daemon/conversation.py:205-238 | an attempt that stored nothing leaves the whole list to a later attempt, after a requeue if it was the last one |
| LearningProofs.HalfLearned | apps/daemon/src/soulmate_daemon/conversation.py:166-220 | from a queued message: the first attempt dies after one of two items, and no run learns the other |
| LearningProofs.ProviderCallsBounded | apps/daemon/src/soulmate_daemon/conversation.py:44-47 | from the moment a message is queued the provider is asked at most eight times, and eight more for each time the owner requeues the job |
| Learning.ConversationLearning.Accept | apps/daemon/src/soulmate_daemon/conversation.py:166-168 | the loop adds accepted items in order, cut anywhere |
| Learning.ConversationLearning.RetryLearning | apps/daemon/src/soulmate_daemon/conversation.py:205-238 | the whole effect of one attempt for every course it can take |
| BackupScheduleProofs.EnqueuesAreSpaced | apps/daemon/src/soulmate_daemon/remote_backup.py:257-294 | without a crash between the two writes, consecutive scheduled backups are at least one interval apart in every run |
| BackupScheduleProofs.EnqueuesAgainExactly | apps/daemon/src/soulmate_daemon/remote_backup.py:277-294 | whatever happens in between without enqueuing, successes and checks that are not due: a check within the interval enqueues again if and only if the first one died between its writes and no success recorded by then covers the check |
| BackupScheduleProofs.TwoBackupsAfterCrash | apps/daemon/src/soulmate_daemon/remote_backup.py:277-294 | from the empty schedule: a crash in the first check, and a second backup one second later |
| BackupScheduleProofs.SuccessCoversCrash | apps/daemon/src/soulmate_daemon/remote_backup.py:257-294 | from the empty schedule: after such a crash a backup that ran keeps the next check from being due |
| BackupScheduleProofs.WindowHoldsAtMost | apps/daemon/src/soulmate_daemon/remote_backup.py:257-294 | over every crash-free run from the empty schedule, any window of length L holds at most L / interval + 1 scheduled backups |
| BackupScheduleProofs.GapsStayBelow | apps/daemon/src/soulmate_daemon/remote_backup.py:201-221 | with checks at most d apart every event comes less than interval + d after the newest activity, with crashes and in whatever order backups are recorded |
| BackupSchedule.RemoteBackupScheduler.EnqueueIfDue | apps/daemon/src/soulmate_daemon/remote_backup.py:257-294 | enqueues exactly when neither a success nor an enqueue covers the interval, with the crash between its writes |
| BackupSchedule.RemoteBackupScheduler.Loop | apps/daemon/src/soulmate_daemon/app.py:764-777 | the hourly loop with the successes in between leaves exactly the schedule of its events |
| BackupListing.Latest | apps/daemon/src/soulmate_daemon/remote_backup.py:120-159 | over a paged listing the answer is the first of the newest archives of all pages, and an error exactly when the listing breaks off |
| OptionFeaturesProofs.ExactlyOnceIsPermutation | apps/daemon/src/soulmate_daemon/decisions.py:172-179 | the check on the returned list accepts it if and only if its indices are a permutation of the option indices |
| OptionFeaturesProofs.NoEntryLost | apps/daemon/src/soulmate_daemon/decisions.py:173 | without repeated indices no entry is lost in the dictionary |
| OptionFeaturesProofs.EachOptionItsOwn | apps/daemon/src/soulmate_daemon/decisions.py:192-208 | every option without features receives those of the one entry returned for it; the confidence is the owner's or the entry's |
| OptionFeaturesProofs.EveryOptionHasAnEntry | apps/daemon/src/soulmate_daemon/decisions.py:172-179 | an accepted list has an entry for every option |
| OptionFeaturesProofs.CreatedExactly | apps/daemon/src/soulmate_daemon/decisions.py:109-208 | a decision is created exactly when nothing was missing, or a provider answered with valid entries that are such a permutation; a missing provider and an invalid entry are told apart; without extraction options keep what they have, no provider is needed and confidence defaults to one |
| OptionFeaturesProofs.OneEntryExactly | apps/daemon/src/soulmate_daemon/decisions.py:172-208 | one option and one entry: created exactly when the entry is for that option, with nonempty features of nonblank names between -1 and 1 and a confidence between 0 and 1, which the option then has |
| OptionFeaturesProofs.ExtractedFeaturesAreGood | apps/daemon/src/soulmate_daemon/decisions.py:172-208 | features by extraction are nonblank names with values between -1 and 1, and their confidence is between 0 and 1 |
| OptionFeaturesProofs.CreatedHaveFeatures | apps/daemon/src/soulmate_daemon/decisions.py:57-60 | every option of a created decision has features |
| OptionFeaturesProofs.OrderOfEntriesIrrelevant | apps/daemon/src/soulmate_daemon/decisions.py:172-208 | the order in which the entries are returned does not matter |

## Left out

- File-system errors other than losing power: a failing write acts like a stop at that effect; the program's clean-up of temporary files after such an error is not modelled.
- Directories, permissions and file times; a target that is a directory counts as different content.
- Stage directories, and temporary files beside the database or the marker, left behind by a crash: nothing removes them, and no archive contains them.
- The randomness of identifiers: a start draws such as name no file yet, which always exist.
- The text of messages, audit records, HTTP status codes and response bodies.
- SQLite itself: one repository call is one atomic step, and identifiers are fresh.
- JSON, UTF-8, ZIP containers, AES-GCM, scrypt, SHA-256: functions with the laws named above. That an altered sealed archive is refused follows from the law of the cipher only.
- Snapshot sanitising before an archive is written, and the checks on the output path.
- The supervisor assumes what the desktop runtime gives: synchronous commands run one at a time, and the system does not reuse the pid of an earlier child.
- What makes an owner's reported choice promotable, and which Evidence a choice yields, are inputs: the kernel's classification and derivation are not part of this model, except that a choice yields a fixed number of items.
- Removing a source with everything it reported.
- Rebuilding the personal model and proposing aliases after a resolution or a refresh.
- White space around an external event identifier, which the program trims, and white space beyond ASCII in feature names.
- Notes of an outcome, and advice deleted with it.
- DownloadAll.ServedDownloadInstallsAll: speaks of servers that serve each missing file once; when no response is left the model fails the download.
- HTTP redirects, what the egress policy decides, and the file name of a partial colliding with another file of the artifact.
- Vectors are exact; storing them as 32-bit floats is not modelled.
- Query scores and merge suggestions computed from the vectors.
- The messages sent in each structured-output mode, and the search for a JSON object inside a reply.
- Expiry of an invitation, and the comparison of fingerprints after pairing.
- Several worker processes on one job table; one worker takes one job after the other.
- Uploading and downloading remote backups, and malformed times in the stored metadata.
- Access control, network and policy tables, configuration, chat import and the user interfaces, which would add only easy members.
