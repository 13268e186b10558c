/** Crash safety of applying a staged restore: one attempt, and any number of restarts. */
module RestoreApply {
  import opened Prelude
  import opened ArchivePaths
  import opened Restore
  import opened RestoreSafety

  /** What the owner's data directory shows: everything but stages and temporaries. */
  function Visible(fs: Files): Files {
    map p | p in fs && !p.Staged? && !p.Temporary? :: fs[p]
  }

  /** What must stand at `p` after a completed apply that began in `fs`. */
  function RestoredFile(fs: Files, rec: Record, staged: map<Name, Bytes>, p: Path): Option<Bytes> {
    if p == Marker || p.Staged? || p.Temporary? then None
    else if p == Database then Lookup(staged, DATABASE)
    else if !DatabaseMatches(fs, rec) && (p == WriteAheadLog || p == SharedMemory) then None
    else if p.Data? && p.name in staged && IsTreeName(p.name) then Some(staged[p.name])
    else Lookup(fs, p)
  }

  /** `fs'` shows exactly the restored files: stated without mentioning any effect. */
  ghost predicate IsRestored(fs: Files, rec: Record, fs': Files) {
    forall p: Path :: Lookup(Visible(fs'), p) == RestoredFile(fs, rec, StageOf(fs, rec.stage), p)
  }

  /** The state after `n` effects of an attempt. */
  ghost function CutApply(env: Environment, fs: Files, serial: nat, ticks: nat): Files
    requires Lawful(env)
  {
    var effects := ApplyAttempt(env, fs, serial).effects;
    Execute(fs, effects[..Min(ticks, |effects|)])
  }

  ghost predicate Pending(env: Environment, fs: Files, rec: Record) {
    Marker in fs && env.decode(fs[Marker]) == Some(rec) && StageMatches(fs, rec)
  }

  /** The copies of an attempt that begins now. */
  lemma CopiesSafe(fs: Files, stage: nat, names: seq<Name>, serial: nat, swap: bool)
    requires UnusedFrom(fs, serial) && Enumerates(names, TreeNames(StageOf(fs, stage)))
    ensures var staged := StageOf(fs, stage); var plan := PlanCopies(fs, staged, names, serial);
      var fs' := Execute(fs, plan.effects);
      && Safe(fs, plan.effects, staged, TreeFiles(fs), swap)
      && DataCopied(fs, fs', staged)
      && (forall p: Path :: !p.Data? ==> Lookup(fs', p) == Lookup(fs, p))
      && (plan.ok ==> CopiesDone(fs', staged))
  {
    UnusedIsUnmet(fs, stage, serial);
    PlanCopiesSafe(fs, StageOf(fs, stage), names, serial, TreeFiles(fs), swap);
  }

  /** A whole apply: all copies, then the final effects. */
  lemma WholeApplySafe(env: Environment, fs: Files, rec: Record, names: seq<Name>, serial: nat)
    requires Lawful(env) && Pending(env, fs, rec) && UnusedFrom(fs, serial)
    requires Enumerates(names, TreeNames(StageOf(fs, rec.stage)))
    requires PlanCopies(fs, StageOf(fs, rec.stage), names, serial).ok
    ensures var staged := StageOf(fs, rec.stage);
      var effects := PlanCopies(fs, staged, names, serial).effects + FinishEffects(env, fs, rec, serial + |names|);
      && Safe(fs, effects, staged, TreeFiles(fs), !DatabaseMatches(fs, rec))
      && IsRestored(fs, rec, Execute(fs, effects))
      && forall n :: Staged(rec.stage, n) !in Execute(fs, effects)
  {
    var staged := StageOf(fs, rec.stage);
    var swap := !DatabaseMatches(fs, rec);
    CopiesSafe(fs, rec.stage, names, serial, swap);
    var copies := PlanCopies(fs, staged, names, serial).effects;
    var finish := FinishEffects(env, fs, rec, serial + |names|);
    FinishSafe(env, fs, Execute(fs, copies), rec, serial + |names|, TreeFiles(fs));
    SafeConcat(fs, copies, finish, staged, TreeFiles(fs), swap);
    ExecuteConcat(fs, copies, finish);
  }

  /** What an attempt must meet: every effect is allowed, a completed attempt leaves exactly the
  restored files and no stage, and a refused one leaves the database alone. */
  ghost predicate AttemptMeets(fs: Files, rec: Record, a: Attempt<Option<Revision>>) {
    && Safe(fs, a.effects, StageOf(fs, rec.stage), TreeFiles(fs), !DatabaseMatches(fs, rec))
    && (a.result.Ok? ==>
          && a.result.value == Some(rec.revision)
          && IsRestored(fs, rec, Execute(fs, a.effects))
          && forall n :: Staged(rec.stage, n) !in Execute(fs, a.effects))
    && (a.result.Err? ==> DatabaseUntouched(fs, Execute(fs, a.effects)))
  }

  lemma RefusalMeets(fs: Files, rec: Record, a: Attempt<Option<Revision>>)
    requires a.effects == [] && a.result.Err?
    ensures AttemptMeets(fs, rec, a)
  {
  }

  lemma ConflictMeets(fs: Files, rec: Record, names: seq<Name>, serial: nat, a: Attempt<Option<Revision>>)
    requires UnusedFrom(fs, serial) && Enumerates(names, TreeNames(StageOf(fs, rec.stage)))
    requires a == Attempt(PlanCopies(fs, StageOf(fs, rec.stage), names, serial).effects, Err(FilesConflict))
    ensures AttemptMeets(fs, rec, a)
  {
    CopiesSafe(fs, rec.stage, names, serial, !DatabaseMatches(fs, rec));
  }

  lemma WholeMeets(env: Environment, fs: Files, rec: Record, names: seq<Name>, serial: nat,
                   a: Attempt<Option<Revision>>)
    requires Lawful(env) && Pending(env, fs, rec) && UnusedFrom(fs, serial)
    requires Enumerates(names, TreeNames(StageOf(fs, rec.stage)))
    requires PlanCopies(fs, StageOf(fs, rec.stage), names, serial).ok
    requires a.effects == PlanCopies(fs, StageOf(fs, rec.stage), names, serial).effects
                          + FinishEffects(env, fs, rec, serial + |names|)
    requires a.result == Ok(Some(rec.revision))
    ensures AttemptMeets(fs, rec, a)
  {
    WholeApplySafe(env, fs, rec, names, serial);
  }

  /** The names an attempt copies, in the order of the walk. */
  ghost function CopyOrder(env: Environment, fs: Files, stage: nat): (names: seq<Name>)
    requires Lawful(env)
    ensures Enumerates(names, TreeNames(StageOf(fs, stage)))
  {
    env.walk(TreeNames(StageOf(fs, stage)))
  }

  ghost predicate Refused(env: Environment, fs: Files, rec: Record) {
    !DatabaseMatches(fs, rec) && InspectInstallation(env, fs) != Fresh
  }

  ghost function CopyEffects(env: Environment, fs: Files, rec: Record, serial: nat): CopyPlan
    requires Lawful(env)
  {
    PlanCopies(fs, StageOf(fs, rec.stage), CopyOrder(env, fs, rec.stage), serial)
  }

  ghost function LastEffects(env: Environment, fs: Files, rec: Record, serial: nat): seq<Effect>
    requires Lawful(env) && StageMatches(fs, rec)
  {
    FinishEffects(env, fs, rec, serial + |CopyOrder(env, fs, rec.stage)|)
  }

  /** The three forms of an attempt with an intact stage. */
  lemma AttemptHasForm(env: Environment, fs: Files, rec: Record, serial: nat)
    requires Lawful(env) && Pending(env, fs, rec)
    ensures var a := ApplyAttempt(env, fs, serial); var copies := CopyEffects(env, fs, rec, serial);
      if Refused(env, fs, rec) then a.effects == [] && a.result.Err?
      else if !copies.ok then a == Attempt(copies.effects, Err(FilesConflict))
      else a == Attempt(copies.effects + LastEffects(env, fs, rec, serial), Ok(Some(rec.revision)))
  {
    assert ApplyAttempt(env, fs, serial) == ApplyRecord(env, fs, rec, serial);
  }

  lemma ConflictSafe(env: Environment, fs: Files, rec: Record, serial: nat, a: Attempt<Option<Revision>>)
    requires Lawful(env) && Pending(env, fs, rec) && UnusedFrom(fs, serial)
    requires a == Attempt(CopyEffects(env, fs, rec, serial).effects, Err(FilesConflict))
    ensures AttemptMeets(fs, rec, a)
  {
    ConflictMeets(fs, rec, CopyOrder(env, fs, rec.stage), serial, a);
  }

  lemma WholeSafe(env: Environment, fs: Files, rec: Record, serial: nat, a: Attempt<Option<Revision>>)
    requires Lawful(env) && Pending(env, fs, rec) && UnusedFrom(fs, serial) && CopyEffects(env, fs, rec, serial).ok
    requires a.effects == CopyEffects(env, fs, rec, serial).effects + LastEffects(env, fs, rec, serial)
    requires a.result == Ok(Some(rec.revision))
    ensures AttemptMeets(fs, rec, a)
  {
    WholeMeets(env, fs, rec, CopyOrder(env, fs, rec.stage), serial, a);
  }

  /** Every effect of an attempt is allowed, and a completed attempt leaves exactly the restored files. */
  lemma AttemptSafe(env: Environment, fs: Files, rec: Record, serial: nat)
    requires Lawful(env) && Pending(env, fs, rec) && UnusedFrom(fs, serial)
    ensures AttemptMeets(fs, rec, ApplyAttempt(env, fs, serial))
  {
    var a := ApplyAttempt(env, fs, serial);
    AttemptHasForm(env, fs, rec, serial);
    if Refused(env, fs, rec) {
      RefusalMeets(fs, rec, a);
    } else if CopyEffects(env, fs, rec, serial).ok {
      WholeSafe(env, fs, rec, serial, a);
    } else {
      ConflictSafe(env, fs, rec, serial, a);
    }
  }

  ghost predicate DatabaseUntouched(fs: Files, fs': Files) {
    && (forall p: Path :: !p.Data? ==> Lookup(fs', p) == Lookup(fs, p))
    && (forall n :: Data(n) in fs ==> Data(n) in fs' && fs'[Data(n)] == fs[Data(n)])
  }

  /** What stands at `p` after the final effects of an apply that copied its files into `fs1`. */
  function FinishedAt(fs1: Files, rec: Record, staged: map<Name, Bytes>, swap: bool, serial: nat,
                      p: Path): Option<Bytes>
    requires DATABASE in staged
  {
    if p == Marker || (p.Staged? && p.stage == rec.stage && p.name in staged) then None
    else if swap && (p == WriteAheadLog || p == SharedMemory || p == Temporary(serial)) then None
    else if swap && p == Database then Some(staged[DATABASE])
    else Lookup(fs1, p)
  }

  lemma SwapStepSafe(fs1: Files, serial: nat, staged: map<Name, Bytes>, taken: set<Name>, swap: bool,
                     swapping: seq<Effect>)
    requires DATABASE in staged && CopiesDone(fs1, staged)
    requires DatabaseInPlace(fs1, staged) == !swap
    requires swapping == if swap then SwapDatabase(staged[DATABASE], serial) else []
    ensures Safe(fs1, swapping, staged, taken, swap)
    ensures CopiesDone(Execute(fs1, swapping), staged) && DatabaseInPlace(Execute(fs1, swapping), staged)
    ensures Execute(fs1, swapping) == if swap
      then (fs1 - {WriteAheadLog, SharedMemory, Temporary(serial)})[Database := staged[DATABASE]] else fs1
  {
    if swap {
      SwapSafe(fs1, serial, staged, taken);
    }
  }

  lemma EndingSafe(fs2: Files, stage: nat, names: seq<Name>, staged: map<Name, Bytes>, taken: set<Name>, swap: bool)
    requires CopiesDone(fs2, staged) && DatabaseInPlace(fs2, staged)
    requires forall n :: n in names <==> n in staged
    ensures var ending := [Remove(Marker)] + Removals(stage, names);
      && Safe(fs2, ending, staged, taken, swap)
      && (forall p: Path :: Lookup(Execute(fs2, ending), p) ==
            if p == Marker || (p.Staged? && p.stage == stage && p.name in staged) then None else Lookup(fs2, p))
  {
    var ending := [Remove(Marker)] + Removals(stage, names);
    assert ending[1..] == Removals(stage, names);
    RemovalsSafe(fs2 - {Marker}, stage, names, staged, taken, swap);
  }

  lemma SwapThenEndSafe(
      fs1: Files, rec: Record, serial: nat, staged: map<Name, Bytes>, taken: set<Name>, swap: bool, names: seq<Name>,
      swapping: seq<Effect>, ending: seq<Effect>)
    requires DATABASE in staged && CopiesDone(fs1, staged)
    requires DatabaseInPlace(fs1, staged) == !swap
    requires swapping == if swap then SwapDatabase(staged[DATABASE], serial) else []
    requires ending == [Remove(Marker)] + Removals(rec.stage, names)
    requires forall n :: n in names <==> n in staged
    ensures Safe(fs1, swapping + ending, staged, taken, swap)
    ensures forall p: Path ::
      Lookup(Execute(fs1, swapping + ending), p) == FinishedAt(fs1, rec, staged, swap, serial, p)
  {
    SwapStepSafe(fs1, serial, staged, taken, swap, swapping);
    var fs2 := Execute(fs1, swapping);
    EndingSafe(fs2, rec.stage, names, staged, taken, swap);
    SafeConcat(fs1, swapping, ending, staged, taken, swap);
    ExecuteConcat(fs1, swapping, ending);
    forall p: Path
      ensures Lookup(Execute(fs2, ending), p) == FinishedAt(fs1, rec, staged, swap, serial, p)
    {
      SwappedAt(fs1, fs2, serial, staged, swap, p);
    }
  }

  lemma SwappedAt(fs1: Files, fs2: Files, serial: nat, staged: map<Name, Bytes>, swap: bool, p: Path)
    requires DATABASE in staged
    requires fs2 == if swap
      then (fs1 - {WriteAheadLog, SharedMemory, Temporary(serial)})[Database := staged[DATABASE]] else fs1
    ensures Lookup(fs2, p) ==
      if swap && (p == WriteAheadLog || p == SharedMemory || p == Temporary(serial)) then None
      else if swap && p == Database then Some(staged[DATABASE])
      else Lookup(fs1, p)
  {
  }

  lemma FinishEffectsSafe(env: Environment, fs: Files, fs1: Files, rec: Record, serial: nat, taken: set<Name>)
    requires Lawful(env) && Pending(env, fs, rec) && CopiesDone(fs1, StageOf(fs, rec.stage))
    requires Lookup(fs1, Database) == Lookup(fs, Database)
    ensures var finish := FinishEffects(env, fs, rec, serial); var staged := StageOf(fs, rec.stage);
      var swap := !DatabaseMatches(fs, rec);
      && Safe(fs1, finish, staged, taken, swap)
      && forall p: Path :: Lookup(Execute(fs1, finish), p) == FinishedAt(fs1, rec, staged, swap, serial, p)
  {
    var staged := StageOf(fs, rec.stage);
    var swap := !DatabaseMatches(fs, rec);
    assert staged[DATABASE] == fs[Staged(rec.stage, DATABASE)];
    var swapping := if swap then SwapDatabase(staged[DATABASE], serial) else [];
    var names := env.walk(staged.Keys);
    assert Enumerates(names, staged.Keys);
    var ending := [Remove(Marker)] + Removals(rec.stage, names);
    SwapThenEndSafe(fs1, rec, serial, staged, taken, swap, names, swapping, ending);
    assert FinishEffects(env, fs, rec, serial) == swapping + ending;
  }

  lemma RestoredAt(fs: Files, fs1: Files, fs': Files, rec: Record, serial: nat, p: Path)
    requires StageMatches(fs, rec)
    requires var staged := StageOf(fs, rec.stage);
      Lookup(fs', p) == FinishedAt(fs1, rec, staged, !DatabaseMatches(fs, rec), serial, p)
    requires DataCopied(fs, fs1, StageOf(fs, rec.stage)) && CopiesDone(fs1, StageOf(fs, rec.stage))
    requires !p.Data? ==> Lookup(fs1, p) == Lookup(fs, p)
    ensures Lookup(Visible(fs'), p) == RestoredFile(fs, rec, StageOf(fs, rec.stage), p)
  {
    if p.Data? {
      assert Lookup(fs', p) == Lookup(fs1, p);
    }
  }

  lemma FinishSafe(env: Environment, fs: Files, fs1: Files, rec: Record, serial: nat, taken: set<Name>)
    requires Lawful(env) && Pending(env, fs, rec)
    requires DataCopied(fs, fs1, StageOf(fs, rec.stage)) && CopiesDone(fs1, StageOf(fs, rec.stage))
    requires forall p: Path :: !p.Data? ==> Lookup(fs1, p) == Lookup(fs, p)
    ensures var finish := FinishEffects(env, fs, rec, serial); var fs' := Execute(fs1, finish);
      && Safe(fs1, finish, StageOf(fs, rec.stage), taken, !DatabaseMatches(fs, rec))
      && IsRestored(fs, rec, fs')
      && forall n :: Staged(rec.stage, n) !in fs'
  {
    var staged := StageOf(fs, rec.stage);
    assert Lookup(fs1, Database) == Lookup(fs, Database);
    FinishEffectsSafe(env, fs, fs1, rec, serial, taken);
    var fs' := Execute(fs1, FinishEffects(env, fs, rec, serial));
    forall n ensures Staged(rec.stage, n) !in fs' {
      var p := Staged(rec.stage, n);
      assert Lookup(fs', p) == FinishedAt(fs1, rec, staged, !DatabaseMatches(fs, rec), serial, p);
      assert Lookup(fs1, p) == Lookup(fs, p);
      assert n in staged <==> p in fs;
    }
    forall p: Path ensures Lookup(Visible(fs'), p) == RestoredFile(fs, rec, staged, p) {
      assert Lookup(fs', p) == FinishedAt(fs1, rec, staged, !DatabaseMatches(fs, rec), serial, p);
      RestoredAt(fs, fs1, fs', rec, serial, p);
    }
  }
}
