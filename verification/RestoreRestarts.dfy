/** Any number of power losses and restarts while a staged restore is applied. */
module RestoreRestarts {
  import opened Prelude
  import opened ArchivePaths
  import opened Restore
  import opened RestoreSafety
  import opened RestoreApply
  import opened RestoreLeftovers

  /** One attempt per start of the daemon, each cut after `ticks` effects. */
  datatype Start = Start(ticks: nat, serial: nat)

  ghost function Restarts(env: Environment, fs: Files, starts: seq<Start>): Files
    requires Lawful(env)
    decreases |starts|
  {
    if starts == [] then fs
    else Restarts(env, CutApply(env, fs, starts[0].serial, starts[0].ticks), starts[1..])
  }

  /** Each start draws identifiers that name no file yet. */
  ghost predicate FreshStarts(env: Environment, fs: Files, starts: seq<Start>)
    requires Lawful(env)
    decreases |starts|
  {
    starts == [] ||
    (UnusedFrom(fs, starts[0].serial)
     && FreshStarts(env, CutApply(env, fs, starts[0].serial, starts[0].ticks), starts[1..]))
  }

  /** The begun copies the cut attempts leave behind, one after the other. */
  ghost function Leftovers(env: Environment, fs: Files, starts: seq<Start>): Files
    requires Lawful(env)
    decreases |starts|
  {
    if starts == [] then map[]
    else LeftByAttempt(env, fs, starts[0].serial, starts[0].ticks)
         + Leftovers(env, CutApply(env, fs, starts[0].serial, starts[0].ticks), starts[1..])
  }

  /** What an apply needs besides an intact stage to go through. */
  ghost predicate Acceptable(env: Environment, fs: Files, rec: Record) {
    && (DatabaseMatches(fs, rec) || InspectInstallation(env, fs) == Fresh)
    && NoConflict(fs, StageOf(fs, rec.stage))
  }

  ghost predicate NoConflict(fs: Files, staged: map<Name, Bytes>) {
    forall n :: n in staged && IsTreeName(n) && Data(n) in fs ==> fs[Data(n)] == staged[n]
  }

  /** The guard of the risky case: the database is still fresh once its log file is gone. */
  ghost predicate FreshWithoutLog(env: Environment, fs: Files, rec: Record) {
    DatabaseMatches(fs, rec) || Database !in fs || env.inspect(fs[Database], None) == Fresh
  }

  lemma {:induction false} PlanOkExactly(fs: Files, staged: map<Name, Bytes>, names: seq<Name>, serial: nat)
    requires forall n :: n in names ==> n in staged && IsTreeName(n)
    requires Unmet({}, staged, serial) && Undrawn(fs, serial)
    ensures PlanCopies(fs, staged, names, serial).ok
      <==> forall n :: n in names && Data(n) in fs ==> fs[Data(n)] == staged[n]
    decreases |names|
  {
    if names != [] {
      var n := names[0];
      if Data(n) in fs {
        PlanOkExactly(fs, staged, names[1..], serial);
      } else {
        TreeCopyAdds(fs, staged, n, serial);
        PlanOkExactly(fs[Data(n) := staged[n]], staged, names[1..], serial + 1);
      }
    }
  }

  lemma CopiesOkExactly(env: Environment, fs: Files, rec: Record, serial: nat)
    requires Lawful(env) && UnusedFrom(fs, serial)
    ensures CopyEffects(env, fs, rec, serial).ok <==> NoConflict(fs, StageOf(fs, rec.stage))
  {
    UnusedIsUnmet(fs, rec.stage, serial);
    PlanOkExactly(fs, StageOf(fs, rec.stage), CopyOrder(env, fs, rec.stage), serial);
  }

  /** An apply succeeds exactly when it is acceptable: a check the caller can make first. */
  lemma AcceptedExactly(env: Environment, fs: Files, rec: Record, serial: nat)
    requires Lawful(env) && Pending(env, fs, rec) && UnusedFrom(fs, serial)
    ensures ApplyAttempt(env, fs, serial).result.Ok? <==> Acceptable(env, fs, rec)
  {
    AttemptHasForm(env, fs, rec, serial);
    CopiesOkExactly(env, fs, rec, serial);
  }

  lemma {:induction false} SafeMonotone(
      fs: Files, effects: seq<Effect>, staged: map<Name, Bytes>, taken: set<Name>, swap: bool, swap': bool)
    requires Safe(fs, effects, staged, taken, swap) && (swap ==> swap')
    ensures Safe(fs, effects, staged, taken, swap')
    decreases |effects|
  {
    if effects != [] {
      SafeMonotone(Perform(fs, effects[0]), effects[1..], staged, taken, swap, swap');
    }
  }

  /** A cut apply that has not removed the marker left the stage as it was. */
  lemma StillPending(env: Environment, fs0: Files, fs: Files, rec: Record, swap: bool)
    requires Pending(env, fs0, rec) && Marker in fs && Between(fs0, fs, StageOf(fs0, rec.stage), swap)
    ensures Pending(env, fs, rec) && StageOf(fs, rec.stage) == StageOf(fs0, rec.stage)
  {
    forall n ensures Lookup(StageOf(fs, rec.stage), n) == Lookup(StageOf(fs0, rec.stage), n) {
      assert Lookup(fs, Staged(rec.stage, n)) == Lookup(fs0, Staged(rec.stage, n));
    }
    var a, b := StageOf(fs, rec.stage), StageOf(fs0, rec.stage);
    forall n ensures (n in a <==> n in b) && (n in a ==> a[n] == b[n]) {
      assert Lookup(a, n) == Lookup(b, n);
    }
    assert Lookup(a, DATABASE) == Lookup(b, DATABASE);
  }

  lemma CutKeepsBetween(env: Environment, fs0: Files, fs: Files, rec: Record, serial: nat, ticks: nat)
    requires Lawful(env) && Pending(env, fs0, rec) && UnusedFrom(fs, serial)
    requires Between(fs0, fs, StageOf(fs0, rec.stage), !DatabaseMatches(fs0, rec))
    ensures Between(fs0, CutApply(env, fs, serial, ticks), StageOf(fs0, rec.stage), !DatabaseMatches(fs0, rec))
  {
    if Marker in fs {
      var staged, swap := StageOf(fs0, rec.stage), !DatabaseMatches(fs0, rec);
      StillPending(env, fs0, fs, rec, swap);
      AttemptSafe(env, fs, rec, serial);
      var effects := ApplyAttempt(env, fs, serial).effects;
      SafeMonotone(fs, effects, staged, TreeFiles(fs), !DatabaseMatches(fs, rec), swap);
      forall n | n in TreeFiles(fs0) ensures n in TreeFiles(fs) {
        assert Data(n) in fs0;
        assert Data(n) in fs;
      }
      SafePrefixKeepsBetween(fs0, fs, effects, Min(ticks, |effects|), staged, TreeFiles(fs), swap);
    }
  }

  lemma {:induction false} RestartsKeepBetween(
      env: Environment, fs0: Files, fs: Files, rec: Record, starts: seq<Start>)
    requires Lawful(env) && Pending(env, fs0, rec) && FreshStarts(env, fs, starts)
    requires Between(fs0, fs, StageOf(fs0, rec.stage), !DatabaseMatches(fs0, rec))
    ensures Between(fs0, Restarts(env, fs, starts), StageOf(fs0, rec.stage), !DatabaseMatches(fs0, rec))
    decreases |starts|
  {
    if starts != [] {
      CutKeepsBetween(env, fs0, fs, rec, starts[0].serial, starts[0].ticks);
      RestartsKeepBetween(env, fs0, CutApply(env, fs, starts[0].serial, starts[0].ticks), rec, starts[1..]);
    }
  }

  // ---------- What the cuts leave in the tree ----------

  lemma UnmarkedCutDoesNothing(env: Environment, fs: Files, serial: nat, ticks: nat)
    requires Lawful(env) && Marker !in fs
    ensures CutApply(env, fs, serial, ticks) == fs && LeftByAttempt(env, fs, serial, ticks) == map[]
  {
    assert ApplyAttempt(env, fs, serial).effects[..0] == [];
  }

  lemma {:induction false} UnmarkedRestartsDoNothing(env: Environment, fs: Files, starts: seq<Start>)
    requires Lawful(env) && Marker !in fs
    ensures Restarts(env, fs, starts) == fs && Leftovers(env, fs, starts) == map[]
    decreases |starts|
  {
    if starts != [] {
      UnmarkedCutDoesNothing(env, fs, starts[0].serial, starts[0].ticks);
      UnmarkedRestartsDoNothing(env, fs, starts[1..]);
    }
  }

  /** After any restarts the tree holds its old files, staged files, and exactly the leftovers. */
  lemma {:induction false} LeftoversExact(env: Environment, fs: Files, rec: Record, starts: seq<Start>)
    requires Lawful(env) && Pending(env, fs, rec) && FreshStarts(env, fs, starts)
    ensures var staged := StageOf(fs, rec.stage); var left := Leftovers(env, fs, starts);
      DataExactly(fs, Restarts(env, fs, starts), staged, left) && AreBegun(fs, left, staged)
    decreases |starts|
  {
    if starts != [] {
      var (serial, ticks) := (starts[0].serial, starts[0].ticks);
      var fs1 := CutApply(env, fs, serial, ticks);
      CutAttemptExact(env, fs, rec, serial, ticks);
      CutKeepsBetween(env, fs, fs, rec, serial, ticks);
      if Marker in fs1 {
        StillPending(env, fs, fs1, rec, !DatabaseMatches(fs, rec));
        LeftoversExact(env, fs1, rec, starts[1..]);
      } else {
        UnmarkedRestartsDoNothing(env, fs1, starts[1..]);
      }
      ExactThen(fs, fs1, Restarts(env, fs1, starts[1..]), StageOf(fs, rec.stage),
                LeftByAttempt(env, fs, serial, ticks), Leftovers(env, fs1, starts[1..]));
    }
  }

  /** The attempt was cut inside a copy: after its first write, before its rename. */
  ghost predicate CutInsideCopy(env: Environment, fs: Files, start: Start)
    requires Lawful(env)
  {
    var effects := ApplyAttempt(env, fs, start.serial).effects;
    var n := EffectsDone(env, fs, start.serial, start.ticks);
    n > 0 && effects[n - 1].Write? && effects[n - 1].path.Data?
  }

  ghost predicate SomeCutInsideCopy(env: Environment, fs: Files, starts: seq<Start>)
    requires Lawful(env)
  {
    exists i :: 0 <= i < |starts| && CutInsideCopy(env, Restarts(env, fs, starts[..i]), starts[i])
  }

  lemma RestartsAfterFirst(env: Environment, fs: Files, starts: seq<Start>, i: nat)
    requires Lawful(env) && i < |starts| - 1
    ensures var fs1 := CutApply(env, fs, starts[0].serial, starts[0].ticks);
      Restarts(env, fs, starts[..i + 1]) == Restarts(env, fs1, starts[1..][..i]) && starts[i + 1] == starts[1..][i]
  {
    assert starts[..i + 1][1..] == starts[1..][..i];
  }

  lemma SomeCutIsFirstOrLater(env: Environment, fs: Files, starts: seq<Start>)
    requires Lawful(env) && starts != []
    ensures var fs1 := CutApply(env, fs, starts[0].serial, starts[0].ticks);
      SomeCutInsideCopy(env, fs, starts) <==>
        CutInsideCopy(env, fs, starts[0]) || SomeCutInsideCopy(env, fs1, starts[1..])
  {
    var fs1 := CutApply(env, fs, starts[0].serial, starts[0].ticks);
    assert Restarts(env, fs, starts[..0]) == fs;
    if i :| 0 <= i < |starts[1..]| && CutInsideCopy(env, Restarts(env, fs1, starts[1..][..i]), starts[1..][i]) {
      RestartsAfterFirst(env, fs, starts, i);
    }
    if i :| 0 < i < |starts| && CutInsideCopy(env, Restarts(env, fs, starts[..i]), starts[i]) {
      RestartsAfterFirst(env, fs, starts, i - 1);
    }
  }

  lemma LeftByMeans(env: Environment, fs: Files, start: Start)
    requires Lawful(env)
    ensures LeftByAttempt(env, fs, start.serial, start.ticks) != map[] <==> CutInsideCopy(env, fs, start)
  {
    var effects := ApplyAttempt(env, fs, start.serial).effects;
    var n := EffectsDone(env, fs, start.serial, start.ticks);
    if CutInsideCopy(env, fs, start) {
      assert effects[n - 1].path in LeftBy(effects, n);
    }
  }

  lemma JoinedIsEmpty(first: Files, rest: Files)
    ensures first + rest != map[] <==> first != map[] || rest != map[]
  {
    assert (first + rest).Keys == first.Keys + rest.Keys;
    if first != map[] { assert first.Keys != {}; }
    if rest != map[] { assert rest.Keys != {}; }
  }

  lemma {:induction false} LeftoversMean(env: Environment, fs: Files, starts: seq<Start>)
    requires Lawful(env)
    ensures Leftovers(env, fs, starts) != map[] <==> SomeCutInsideCopy(env, fs, starts)
    decreases |starts|
  {
    if starts == [] {
      assert Leftovers(env, fs, starts) == map[];
    } else {
      var start := starts[0];
      var fs1 := CutApply(env, fs, start.serial, start.ticks);
      LeftoversMean(env, fs1, starts[1..]);
      SomeCutIsFirstOrLater(env, fs, starts);
      LeftByMeans(env, fs, start);
      JoinedIsEmpty(LeftByAttempt(env, fs, start.serial, start.ticks), Leftovers(env, fs1, starts[1..]));
    }
  }

  /** A new tree file that is not a staged one is left behind if and only if some attempt was cut
  inside a copy, after its first write and before its rename. */
  lemma LeftoverExistsExactly(env: Environment, fs: Files, rec: Record, starts: seq<Start>)
    requires Lawful(env) && Pending(env, fs, rec) && FreshStarts(env, fs, starts)
    ensures var fs' := Restarts(env, fs, starts);
      (exists n :: Data(n) in fs' && Data(n) !in fs && n !in StageOf(fs, rec.stage))
        <==> SomeCutInsideCopy(env, fs, starts)
  {
    var fs', left := Restarts(env, fs, starts), Leftovers(env, fs, starts);
    LeftoversExact(env, fs, rec, starts);
    LeftoversMean(env, fs, starts);
    if left != map[] {
      var p :| p in left;
      assert p == Data(p.name) && Lookup(fs', Data(p.name)) == Some(left[p]);
    }
  }

  /** However often power is lost, the database file is the old one or exactly the staged one, no
  file of the owner changed, no old log file lies beside the staged database, and the only new tree
  files are staged ones and the leftovers: parts of staged ones under hidden names. */
  lemma CrashesKeepOwnerFiles(env: Environment, fs: Files, rec: Record, starts: seq<Start>)
    requires Lawful(env) && Pending(env, fs, rec) && FreshStarts(env, fs, starts)
    ensures var fs' := Restarts(env, fs, starts); var staged := StageOf(fs, rec.stage);
      && (Lookup(fs', Database) == Lookup(fs, Database)
          || (!DatabaseMatches(fs, rec) && DatabaseInPlace(fs', staged)
              && WriteAheadLog !in fs' && SharedMemory !in fs'))
      && (forall n :: Data(n) in fs ==> Data(n) in fs' && fs'[Data(n)] == fs[Data(n)])
      && (forall n :: Data(n) in fs' && Data(n) !in fs ==>
            IsCopied(n, fs'[Data(n)], staged) || Lookup(Leftovers(env, fs, starts), Data(n)) == Some(fs'[Data(n)]))
      && AreBegun(fs, Leftovers(env, fs, starts), staged)
      && (Marker !in fs' ==> CopiesDone(fs', staged) && DatabaseInPlace(fs', staged))
      && (Marker in fs' ==> Pending(env, fs', rec) && StageOf(fs', rec.stage) == staged)
  {
    RestartsKeepBetween(env, fs, fs, rec, starts);
    LeftoversExact(env, fs, rec, starts);
    var fs' := Restarts(env, fs, starts);
    if Marker in fs' {
      StillPending(env, fs, fs', rec, !DatabaseMatches(fs, rec));
    }
  }

  lemma NextAttemptAcceptedExactly(env: Environment, fs0: Files, fs: Files, rec: Record)
    requires Pending(env, fs0, rec) && Acceptable(env, fs0, rec) && Marker in fs
    requires Between(fs0, fs, StageOf(fs0, rec.stage), !DatabaseMatches(fs0, rec))
    ensures Acceptable(env, fs, rec) <==> (DatabaseMatches(fs, rec) || InspectInstallation(env, fs) == Fresh)
    ensures FreshWithoutLog(env, fs0, rec) ==> Acceptable(env, fs, rec)
  {
    var staged := StageOf(fs0, rec.stage);
    StillPending(env, fs0, fs, rec, !DatabaseMatches(fs0, rec));
    assert NoConflict(fs, staged);
    assert LogBetween(fs0, fs, staged, !DatabaseMatches(fs0, rec), WriteAheadLog);
  }

  /** Exactly the restored files and, besides, these leftovers. */
  ghost predicate IsRestoredBut(fs: Files, rec: Record, fs': Files, left: Files) {
    forall p: Path :: Lookup(Visible(fs'), p) ==
      if p in left then Some(left[p]) else RestoredFile(fs, rec, StageOf(fs, rec.stage), p)
  }

  lemma SameRestoredAt(fs0: Files, fs: Files, rec: Record, staged: map<Name, Bytes>, left: Files, p: Path)
    requires DATABASE in staged && Sha256(staged[DATABASE]) == rec.databaseDigest
    requires Between(fs0, fs, staged, !DatabaseMatches(fs0, rec))
    requires DataExactly(fs0, fs, staged, left) && AreBegun(fs0, left, staged)
    ensures RestoredFile(fs, rec, staged, p) == if p in left then Some(left[p]) else RestoredFile(fs0, rec, staged, p)
  {
    if p.Data? { assert p == Data(p.name); }
  }

  lemma SameRestored(env: Environment, fs0: Files, fs: Files, rec: Record, left: Files, fs': Files)
    requires Pending(env, fs0, rec) && Marker in fs
    requires Between(fs0, fs, StageOf(fs0, rec.stage), !DatabaseMatches(fs0, rec))
    requires DataExactly(fs0, fs, StageOf(fs0, rec.stage), left) && AreBegun(fs0, left, StageOf(fs0, rec.stage))
    requires IsRestored(fs, rec, fs')
    ensures IsRestoredBut(fs0, rec, fs', left)
  {
    StillPending(env, fs0, fs, rec, !DatabaseMatches(fs0, rec));
    var staged := StageOf(fs0, rec.stage);
    forall p: Path
      ensures Lookup(Visible(fs'), p) == if p in left then Some(left[p]) else RestoredFile(fs0, rec, staged, p)
    {
      SameRestoredAt(fs0, fs, rec, staged, left, p);
    }
  }

  /** Restarts converge: after any number of cut attempts the next whole attempt succeeds and leaves
  exactly the files that an undisturbed apply would have left, and the leftovers of the cuts. */
  lemma RestartsConverge(env: Environment, fs: Files, rec: Record, starts: seq<Start>, serial: nat)
    requires Lawful(env) && Pending(env, fs, rec) && Acceptable(env, fs, rec)
    requires FreshStarts(env, fs, starts) && UnusedFrom(Restarts(env, fs, starts), serial)
    requires FreshWithoutLog(env, fs, rec)
    ensures var fs' := Restarts(env, fs, starts);
      Marker in fs' ==>
        && ApplyAttempt(env, fs', serial).result == Ok(Some(rec.revision))
        && IsRestoredBut(fs, rec, Execute(fs', ApplyAttempt(env, fs', serial).effects), Leftovers(env, fs, starts))
  {
    var fs' := Restarts(env, fs, starts);
    RestartsKeepBetween(env, fs, fs, rec, starts);
    LeftoversExact(env, fs, rec, starts);
    if Marker in fs' {
      StillPending(env, fs, fs', rec, !DatabaseMatches(fs, rec));
      NextAttemptAcceptedExactly(env, fs, fs', rec);
      AcceptedExactly(env, fs', rec, serial);
      AttemptSafe(env, fs', rec, serial);
      SameRestored(env, fs, fs', rec, Leftovers(env, fs, starts), Execute(fs', ApplyAttempt(env, fs', serial).effects));
    }
  }

  /** The cut right after the log file is removed. */
  ghost function LogRemovedAt(env: Environment, fs: Files, rec: Record, serial: nat): nat
    requires Lawful(env)
  {
    |CopyEffects(env, fs, rec, serial).effects| + 1
  }

  /** Cut after the copies and one more effect, of effects that go on by removing the log. */
  lemma CutAfterCopies(fs: Files, copies: seq<Effect>, finish: seq<Effect>)
    requires finish != [] && finish[0] == Remove(WriteAheadLog)
    requires forall p: Path :: !p.Data? ==> Lookup(Execute(fs, copies), p) == Lookup(fs, p)
    ensures var fs' := Execute(fs, (copies + finish)[..|copies| + 1]);
      && Lookup(fs', Marker) == Lookup(fs, Marker) && Lookup(fs', Database) == Lookup(fs, Database)
      && WriteAheadLog !in fs'
    ensures LeftBy(copies + finish, |copies| + 1) == map[]
  {
    assert (copies + finish)[..|copies| + 1] == copies + [Remove(WriteAheadLog)];
    ExecuteSnoc(fs, copies, Remove(WriteAheadLog));
    var fs1 := Execute(fs, copies);
    assert Lookup(fs1, Database) == Lookup(fs, Database) && Lookup(fs1, Marker) == Lookup(fs, Marker);
  }

  /** Cut there, the apply left the old database without its log, and no begun copy. */
  lemma LogRemoved(env: Environment, fs: Files, rec: Record, serial: nat)
    requires Lawful(env) && Pending(env, fs, rec) && UnusedFrom(fs, serial)
    requires Acceptable(env, fs, rec) && !DatabaseMatches(fs, rec)
    ensures var n := LogRemovedAt(env, fs, rec, serial); var fs' := CutApply(env, fs, serial, n);
      && Marker in fs' && Lookup(fs', Database) == Lookup(fs, Database) && WriteAheadLog !in fs'
      && LeftByAttempt(env, fs, serial, n) == map[]
  {
    var copies, finish := CopyEffects(env, fs, rec, serial).effects, LastEffects(env, fs, rec, serial);
    CopiesThenLogRemoval(env, fs, rec, serial);
    CutAfterCopies(fs, copies, finish);
    assert Min(|copies| + 1, |copies + finish|) == |copies| + 1;
  }

  lemma CopiesThenLogRemoval(env: Environment, fs: Files, rec: Record, serial: nat)
    requires Lawful(env) && Pending(env, fs, rec) && UnusedFrom(fs, serial)
    requires Acceptable(env, fs, rec) && !DatabaseMatches(fs, rec)
    ensures var copies := CopyEffects(env, fs, rec, serial).effects; var finish := LastEffects(env, fs, rec, serial);
      && ApplyAttempt(env, fs, serial).effects == copies + finish
      && finish != [] && finish[0] == Remove(WriteAheadLog)
      && forall p: Path :: !p.Data? ==> Lookup(Execute(fs, copies), p) == Lookup(fs, p)
  {
    AttemptHasForm(env, fs, rec, serial);
    CopiesOkExactly(env, fs, rec, serial);
    CopiesSafe(fs, rec.stage, CopyOrder(env, fs, rec.stage), serial, true);
  }

  /** Identifiers unused before an attempt that left no begun copy are unused after it. */
  lemma StaysUnused(env: Environment, fs: Files, rec: Record, serial: nat, ticks: nat)
    requires Lawful(env) && Pending(env, fs, rec) && UnusedFrom(fs, serial)
    requires LeftByAttempt(env, fs, serial, ticks) == map[] && Marker in CutApply(env, fs, serial, ticks)
    ensures UnusedFrom(CutApply(env, fs, serial, ticks), serial)
  {
    var fs' := CutApply(env, fs, serial, ticks);
    CutAttemptExact(env, fs, rec, serial, ticks);
    CutKeepsBetween(env, fs, fs, rec, serial, ticks);
    forall m: Name, k: nat | m != [] && k >= serial
      ensures Data(CopyName(m, k)) !in fs' && forall stage :: Staged(stage, CopyName(m, k)) !in fs'
    {
      var n := CopyName(m, k);
      assert Staged(rec.stage, n) !in fs && n !in StageOf(fs, rec.stage);
      forall stage ensures Staged(stage, n) !in fs' {
        assert Lookup(fs', Staged(stage, n)) == Lookup(fs, Staged(stage, n));
      }
    }
  }

  /** After a cut at `n` the next start, whatever fresh identifiers it draws, finishes the restore. */
  ghost predicate NextStartFinishes(env: Environment, fs: Files, serial: nat, n: nat)
    requires Lawful(env)
  {
    var fs' := CutApply(env, fs, serial, n);
    Marker in fs' ==> forall serial' :: UnusedFrom(fs', serial') ==> ApplyAttempt(env, fs', serial').result.Ok?
  }

  lemma CutThenFinishes(env: Environment, fs: Files, rec: Record, serial: nat, n: nat)
    requires Lawful(env) && Pending(env, fs, rec) && Acceptable(env, fs, rec) && UnusedFrom(fs, serial)
    requires FreshWithoutLog(env, fs, rec)
    ensures NextStartFinishes(env, fs, serial, n)
  {
    var fs' := CutApply(env, fs, serial, n);
    CutKeepsBetween(env, fs, fs, rec, serial, n);
    if Marker in fs' {
      StillPending(env, fs, fs', rec, !DatabaseMatches(fs, rec));
      NextAttemptAcceptedExactly(env, fs, fs', rec);
      forall serial' | UnusedFrom(fs', serial') ensures ApplyAttempt(env, fs', serial').result.Ok? {
        AcceptedExactly(env, fs', rec, serial');
      }
    }
  }

  lemma LogRemovedThenStuck(env: Environment, fs: Files, rec: Record, serial: nat)
    requires Lawful(env) && Pending(env, fs, rec) && Acceptable(env, fs, rec) && UnusedFrom(fs, serial)
    requires !FreshWithoutLog(env, fs, rec)
    ensures !NextStartFinishes(env, fs, serial, LogRemovedAt(env, fs, rec, serial))
  {
    var n := LogRemovedAt(env, fs, rec, serial);
    var fs' := CutApply(env, fs, serial, n);
    LogRemoved(env, fs, rec, serial);
    CutKeepsBetween(env, fs, fs, rec, serial, n);
    StillPending(env, fs, fs', rec, true);
    NextAttemptAcceptedExactly(env, fs, fs', rec);
    assert fs'[Database] == fs[Database] && Lookup(fs', WriteAheadLog) == None;
    assert !Acceptable(env, fs', rec);
    StaysUnused(env, fs, rec, serial, n);
    AcceptedExactly(env, fs', rec, serial);
  }

  /** Every crash point lets the next start finish the restore if and only if the fresh
  database stays fresh without its log file. */
  lemma EveryCrashRecoversExactly(env: Environment, fs: Files, rec: Record, serial: nat)
    requires Lawful(env) && Pending(env, fs, rec) && Acceptable(env, fs, rec) && UnusedFrom(fs, serial)
    ensures (forall n: nat :: NextStartFinishes(env, fs, serial, n)) <==> FreshWithoutLog(env, fs, rec)
  {
    if FreshWithoutLog(env, fs, rec) {
      forall n: nat ensures NextStartFinishes(env, fs, serial, n) {
        CutThenFinishes(env, fs, rec, serial, n);
      }
    } else {
      LogRemovedThenStuck(env, fs, rec, serial);
    }
  }
}
