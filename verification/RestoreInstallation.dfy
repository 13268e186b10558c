/** The data directory as the daemon changes it: one effect at a time, until power is lost. */
module RestoreInstallation {
  import opened Prelude
  import opened ArchivePaths
  import opened Restore
  import opened RestoreApply
  import opened RestoreRuns
  import opened RestoreAnswers

  /** With `ticks` effects left, running `effects` in `fs` ends in `fs'` with `ticks'` left. */
  ghost predicate Ran(fs: Files, ticks: nat, effects: seq<Effect>, fs': Files, ticks': nat, alive: bool) {
    && alive == (|effects| <= ticks)
    && fs' == Execute(fs, effects[..Min(|effects|, ticks)])
    && ticks' == ticks - Min(|effects|, ticks)
  }

  lemma RanThen(fs0: Files, t0: nat, a: seq<Effect>, fs1: Files, t1: nat, b: seq<Effect>, fs2: Files, t2: nat,
                alive: bool)
    requires Ran(fs0, t0, a, fs1, t1, true) && Ran(fs1, t1, b, fs2, t2, alive)
    ensures Ran(fs0, t0, a + b, fs2, t2, alive)
  {
    var n := Min(|b|, t1);
    assert a[..|a|] == a;
    assert (a + b)[..|a| + n] == a + b[..n];
    ExecuteConcat(fs0, a, b[..n]);
  }

  lemma RanOut(fs0: Files, t0: nat, a: seq<Effect>, fs1: Files, t1: nat, b: seq<Effect>)
    requires Ran(fs0, t0, a, fs1, t1, false)
    ensures Ran(fs0, t0, a + b, fs1, t1, false)
  {
    assert (a + b)[..t0] == a[..t0];
  }

  lemma RanNothing(fs: Files, ticks: nat)
    ensures Ran(fs, ticks, [], fs, ticks, true)
  {
    var none: seq<Effect> := [];
    assert none[..0] == [];
  }

  /** One turn of the copy loop. */
  lemma PlanCopiesStep(fs: Files, staged: map<Name, Bytes>, names: seq<Name>, i: nat, serial: nat)
    requires i < |names| && IsTreeName(names[i]) && forall n :: n in names ==> n in staged && IsTreeName(n)
    ensures PlanCopies(fs, staged, names[i..], serial) ==
      if Data(names[i]) !in fs then
        var head := CopyOver(staged[names[i]], Data(CopyName(names[i], serial)), Data(names[i]));
        var tail := PlanCopies(Execute(fs, head), staged, names[i + 1..], serial + 1);
        CopyPlan(head + tail.effects, tail.ok)
      else if fs[Data(names[i])] != staged[names[i]] then CopyPlan([], false)
      else PlanCopies(fs, staged, names[i + 1..], serial)
  {
    assert names[i..][0] == names[i] && names[i..][1..] == names[i + 1..];
  }

  /** After these effects the rest of the plan copies the names from the i-th on. */
  ghost predicate CopiesLeft(plan: CopyPlan, done: seq<Effect>, fs: Files, staged: map<Name, Bytes>, names: seq<Name>,
                             i: nat, uuid: nat)
    requires i <= |names| && forall n :: n in names ==> n in staged && IsTreeName(n)
  {
    var rest := PlanCopies(fs, staged, names[i..], uuid);
    plan == CopyPlan(done + rest.effects, rest.ok)
  }

  lemma NoneLeft(plan: CopyPlan, done: seq<Effect>, fs: Files, staged: map<Name, Bytes>, names: seq<Name>, uuid: nat)
    requires forall n :: n in names ==> n in staged && IsTreeName(n)
    requires CopiesLeft(plan, done, fs, staged, names, |names|, uuid)
    ensures plan == CopyPlan(done, true)
  {
    assert names[|names|..] == [] && done + [] == done;
  }

  lemma NextPresent(plan: CopyPlan, done: seq<Effect>, fs: Files, staged: map<Name, Bytes>, names: seq<Name>, i: nat,
                    uuid: nat)
    requires i < |names| && forall n :: n in names ==> n in staged && IsTreeName(n)
    requires CopiesLeft(plan, done, fs, staged, names, i, uuid) && Data(names[i]) in fs
    ensures if fs[Data(names[i])] == staged[names[i]] then CopiesLeft(plan, done, fs, staged, names, i + 1, uuid)
            else plan == CopyPlan(done, false)
  {
    PlanCopiesStep(fs, staged, names, i, uuid);
    assert done + [] == done;
  }

  /** A file copied after the effects so far, or power lost on the way. */
  lemma NextCopied(plan: CopyPlan, done: seq<Effect>, fs: Files, staged: map<Name, Bytes>, names: seq<Name>, i: nat,
                   uuid: nat,
                   fs0: Files, t0: nat, t: nat, fs': Files, t': nat, alive: bool)
    requires i < |names| && IsTreeName(names[i]) && forall n :: n in names ==> n in staged && IsTreeName(n)
    requires CopiesLeft(plan, done, fs, staged, names, i, uuid) && Data(names[i]) !in fs
    requires Ran(fs0, t0, done, fs, t, true)
    requires Ran(fs, t, CopyOver(staged[names[i]], Data(CopyName(names[i], uuid)), Data(names[i])), fs', t', alive)
    ensures var head := CopyOver(staged[names[i]], Data(CopyName(names[i], uuid)), Data(names[i]));
      if alive then
        && Ran(fs0, t0, done + head, fs', t', true)
        && CopiesLeft(plan, done + head, fs', staged, names, i + 1, uuid + 1)
      else Ran(fs0, t0, plan.effects, fs', t', false)
  {
    var head := CopyOver(staged[names[i]], Data(CopyName(names[i], uuid)), Data(names[i]));
    PlanCopiesStep(fs, staged, names, i, uuid);
    var rest := PlanCopies(Execute(fs, head), staged, names[i + 1..], uuid + 1);
    assert done + (head + rest.effects) == (done + head) + rest.effects;
    RanThen(fs0, t0, done, fs, t, head, fs', t', alive);
    if alive {
      assert head[..|head|] == head;
    } else {
      RanOut(fs0, t0, done + head, fs', t', rest.effects);
    }
  }

  class Installation {
    const env: Environment
    var files: Files
    var ticks: nat

    constructor (env: Environment, files: Files, ticks: nat)
      ensures this.env == env && this.files == files && this.ticks == ticks
    {
      this.env, this.files, this.ticks := env, files, ticks;
    }

    method Do(e: Effect) returns (alive: bool)
      modifies this
      ensures Ran(old(files), old(ticks), [e], files, ticks, alive)
    {
      alive := ticks > 0;
      if alive {
        files := match e
          case Write(p, b) => files[p := b]
          case Replace(s, t) => if s in files then (files - {s})[t := files[s]] else files
          case Remove(p) => files - {p};
        ticks := ticks - 1;
        assert [e][..1] == [e] && [e][1..] == [];
      } else {
        assert [e][..0] == [];
      }
    }

    method WriteFile(path: Path, content: Bytes) returns (alive: bool)
      modifies this
      ensures Ran(old(files), old(ticks), Writes(path, content), files, ticks, alive)
    {
      ghost var all := Writes(path, content);
      alive := true;
      RanNothing(files, ticks);
      assert all[..0] == [];
      var i := 0;
      while alive && i <= |content|
        invariant i <= |content| + 1
        invariant Ran(old(files), old(ticks), all[..i], files, ticks, alive)
        decreases alive, |content| + 1 - i
      {
        ghost var fs, t := files, ticks;
        alive := Do(Write(path, content[..i]));
        assert all[..i + 1] == all[..i] + [Write(path, content[..i])];
        RanThen(old(files), old(ticks), all[..i], fs, t, [Write(path, content[..i])], files, ticks, alive);
        i := i + 1;
      }
      if alive {
        assert all[..i] == all;
      } else {
        assert all == all[..i] + all[i..];
        RanOut(old(files), old(ticks), all[..i], files, ticks, all[i..]);
      }
    }

    /** Copy to a temporary file, then rename it into place. */
    method CopyFile(content: Bytes, temporary: Path, target: Path) returns (alive: bool)
      modifies this
      ensures Ran(old(files), old(ticks), CopyOver(content, temporary, target), files, ticks, alive)
    {
      alive := WriteFile(temporary, content);
      ghost var ws := Writes(temporary, content);
      if !alive {
        RanOut(old(files), old(ticks), ws, files, ticks, [Replace(temporary, target)]);
        return;
      }
      ghost var fs, t := files, ticks;
      alive := Do(Replace(temporary, target));
      RanThen(old(files), old(ticks), ws, fs, t, [Replace(temporary, target)], files, ticks, alive);
    }

    /** Copy one staged file unless it is there already; `ok` is false when its place is taken. */
    method CopyIfMissing(staged: map<Name, Bytes>, n: Name, serial: nat) returns (alive: bool, ok: bool)
      requires n in staged && IsTreeName(n)
      modifies this
      ensures Data(n) !in old(files) ==>
        Ran(old(files), old(ticks), CopyOver(staged[n], Data(CopyName(n, serial)), Data(n)), files, ticks, alive) && ok
      ensures Data(n) in old(files) ==>
        files == old(files) && ticks == old(ticks) && alive && ok == (files[Data(n)] == staged[n])
    {
      if Data(n) in files { return true, files[Data(n)] == staged[n]; }
      alive := CopyFile(staged[n], Data(CopyName(n, serial)), Data(n));
      ok := true;
    }

    /** One turn of the copy loop; each copy draws a new identifier. */
    method CopyNext(staged: map<Name, Bytes>, names: seq<Name>, i: nat, uuid: nat,
                    ghost plan: CopyPlan, ghost done: seq<Effect>, ghost fs0: Files, ghost t0: nat)
        returns (alive: bool, ok: bool, next: nat, ghost more: seq<Effect>)
      requires i < |names| && forall n :: n in names ==> n in staged && IsTreeName(n)
      requires CopiesLeft(plan, done, files, staged, names, i, uuid) && Ran(fs0, t0, done, files, ticks, true)
      modifies this
      ensures alive && ok ==>
        Ran(fs0, t0, more, files, ticks, true) && CopiesLeft(plan, more, files, staged, names, i + 1, next)
      ensures alive && !ok ==> Ran(fs0, t0, plan.effects, files, ticks, true) && !plan.ok
      ensures !alive ==> Ran(fs0, t0, plan.effects, files, ticks, false)
    {
      assert names[i] in names;
      ghost var fs, t := files, ticks;
      var missing := Data(names[i]) !in files;
      alive, ok := CopyIfMissing(staged, names[i], uuid);
      if missing {
        NextCopied(plan, done, fs, staged, names, i, uuid, fs0, t0, t, files, ticks, alive);
        next, more := uuid + 1, done + CopyOver(staged[names[i]], Data(CopyName(names[i], uuid)), Data(names[i]));
      } else {
        NextPresent(plan, done, files, staged, names, i, uuid);
        next, more := uuid, done;
      }
    }

    /** The copy loop over the staged tree; `ok` is false at the first conflict. */
    method CopyAll(staged: map<Name, Bytes>, names: seq<Name>, serial: nat, ghost plan: CopyPlan)
        returns (alive: bool, ok: bool)
      requires forall n :: n in names ==> n in staged && IsTreeName(n)
      requires CopiesLeft(plan, [], files, staged, names, 0, serial)
      modifies this
      ensures Ran(old(files), old(ticks), plan.effects, files, ticks, alive) && (alive ==> ok == plan.ok)
    {
      ghost var done := [];
      RanNothing(files, ticks);
      var i, uuid := 0, serial;
      while i < |names|
        invariant i <= |names| && Ran(old(files), old(ticks), done, files, ticks, true)
        invariant CopiesLeft(plan, done, files, staged, names, i, uuid)
      {
        alive, ok, uuid, done := CopyNext(staged, names, i, uuid, plan, done, old(files), old(ticks));
        if !alive || !ok { return; }
        i := i + 1;
      }
      NoneLeft(plan, done, files, staged, names, uuid);
      return true, true;
    }

    method CopyRestoreFiles(staged: map<Name, Bytes>, names: seq<Name>, serial: nat) returns (alive: bool, ok: bool)
      requires forall n :: n in names ==> n in staged && IsTreeName(n)
      modifies this
      ensures var plan := PlanCopies(old(files), staged, names, serial);
        Ran(old(files), old(ticks), plan.effects, files, ticks, alive) && (alive ==> ok == plan.ok)
    {
      ghost var plan := PlanCopies(files, staged, names, serial);
      assert names[0..] == names && [] + plan.effects == plan.effects;
      alive, ok := CopyAll(staged, names, serial, plan);
    }

    method RemoveStage(stage: nat, names: seq<Name>) returns (alive: bool)
      modifies this
      ensures Ran(old(files), old(ticks), Removals(stage, names), files, ticks, alive)
    {
      ghost var all := Removals(stage, names);
      alive := true;
      RanNothing(files, ticks);
      assert all[..0] == [];
      var i := 0;
      while alive && i < |names|
        invariant i <= |names|
        invariant Ran(old(files), old(ticks), all[..i], files, ticks, alive)
        decreases alive, |names| - i
      {
        ghost var fs, t := files, ticks;
        alive := Do(Remove(Staged(stage, names[i])));
        assert all[..i + 1] == all[..i] + [Remove(Staged(stage, names[i]))];
        RanThen(old(files), old(ticks), all[..i], fs, t, [Remove(Staged(stage, names[i]))], files, ticks, alive);
        i := i + 1;
      }
      if alive {
        assert all[..i] == all;
      } else {
        assert all == all[..i] + all[i..];
        RanOut(old(files), old(ticks), all[..i], files, ticks, all[i..]);
      }
    }

    method SwapInDatabase(database: Bytes, serial: nat) returns (alive: bool)
      modifies this
      ensures Ran(old(files), old(ticks), SwapDatabase(database, serial), files, ticks, alive)
    {
      ghost var copy := CopyOver(database, Temporary(serial), Database);
      ghost var a, b := [Remove(WriteAheadLog)], [Remove(SharedMemory)];
      assert SwapDatabase(database, serial) == a + (b + copy);
      alive := Do(Remove(WriteAheadLog));
      if !alive {
        RanOut(old(files), old(ticks), a, files, ticks, b + copy);
        return;
      }
      ghost var fs, t := files, ticks;
      alive := Do(Remove(SharedMemory));
      RanThen(old(files), old(ticks), a, fs, t, b, files, ticks, alive);
      assert SwapDatabase(database, serial) == (a + b) + copy;
      if !alive {
        RanOut(old(files), old(ticks), a + b, files, ticks, copy);
        return;
      }
      fs, t := files, ticks;
      alive := CopyFile(database, Temporary(serial), Database);
      RanThen(old(files), old(ticks), a + b, fs, t, copy, files, ticks, alive);
    }

    method Finish(before: Files, rec: Record, serial: nat) returns (alive: bool)
      requires StageMatches(before, rec)
      modifies this
      ensures Ran(old(files), old(ticks), FinishEffects(env, before, rec, serial), files, ticks, alive)
    {
      var database := before[Staged(rec.stage, DATABASE)];
      var names := env.walk(StageOf(before, rec.stage).Keys);
      ghost var swapping := if DatabaseMatches(before, rec) then [] else SwapDatabase(database, serial);
      ghost var rest := [Remove(Marker)] + Removals(rec.stage, names);
      assert FinishEffects(env, before, rec, serial) == swapping + rest;
      alive := true;
      RanNothing(files, ticks);
      if !DatabaseMatches(before, rec) {
        alive := SwapInDatabase(database, serial);
        if !alive {
          RanOut(old(files), old(ticks), swapping, files, ticks, rest);
          return;
        }
      }
      ghost var fs, t := files, ticks;
      alive := Do(Remove(Marker));
      RanThen(old(files), old(ticks), swapping, fs, t, [Remove(Marker)], files, ticks, alive);
      assert swapping + rest == (swapping + [Remove(Marker)]) + Removals(rec.stage, names);
      if !alive {
        RanOut(old(files), old(ticks), swapping + [Remove(Marker)], files, ticks, Removals(rec.stage, names));
        return;
      }
      fs, t := files, ticks;
      alive := RemoveStage(rec.stage, names);
      RanThen(old(files), old(ticks), swapping + [Remove(Marker)], fs, t,
              Removals(rec.stage, names), files, ticks, alive);
    }

    /** The checks before the first effect: nothing pending, a refusal, or the record to apply. */
    method CheckPending() returns (pending: Result<Option<Record>, ApplyError>)
      requires Lawful(env)
      ensures pending.Err? ==> forall serial :: ApplyAttempt(env, files, serial) == Attempt([], Err(pending.error))
      ensures pending == Ok(None) ==> forall serial :: ApplyAttempt(env, files, serial) == Attempt([], Ok(None))
      ensures pending == Ok(None) <==> Marker !in files
      ensures pending.Ok? && pending.value.Some? ==>
        && Pending(env, files, pending.value.value)
        && (DatabaseMatches(files, pending.value.value) || InspectInstallation(env, files) == Fresh)
    {
      if Marker !in files { return Ok(None); }
      var record := env.decode(files[Marker]);
      if record.None? { return Err(InvalidMarker); }
      if !StageMatches(files, record.value) { return Err(StageMissingOrModified); }
      if !DatabaseMatches(files, record.value) {
        var inspection := InspectInstallation(env, files);
        if inspection == HasOwnerData { return Err(NotFresh); }
        if inspection == Unreadable { return Err(CannotInspect); }
      }
      return Ok(record);
    }

    method ApplyRecord(rec: Record, serial: nat) returns (alive: bool, outcome: Result<Option<Revision>, ApplyError>)
      requires Lawful(env) && Pending(env, files, rec)
      requires DatabaseMatches(files, rec) || InspectInstallation(env, files) == Fresh
      modifies this
      ensures var a := Restore.ApplyRecord(env, old(files), rec, serial);
        Ran(old(files), old(ticks), a.effects, files, ticks, alive) && (alive ==> outcome == a.result)
    {
      var before := files;
      var staged := StageOf(files, rec.stage);
      var names := env.walk(TreeNames(staged));
      assert Enumerates(names, TreeNames(staged));
      ghost var plan := PlanCopies(files, staged, names, serial);
      ghost var finish := if plan.ok then FinishEffects(env, before, rec, serial + |names|) else [];
      assert plan.effects + [] == plan.effects;
      var ok;
      alive, ok := CopyRestoreFiles(staged, names, serial);
      if !alive {
        RanOut(old(files), old(ticks), plan.effects, files, ticks, finish);
        return alive, Err(FilesConflict);
      }
      if !ok {
        return alive, Err(FilesConflict);
      }
      ghost var fs, t := files, ticks;
      alive := Finish(before, rec, serial + |names|);
      RanThen(old(files), old(ticks), plan.effects, fs, t, finish, files, ticks, alive);
      return alive, Ok(Some(rec.revision));
    }

    /** `alive` is false when power was lost on the way; the outcome is the attempt's own. */
    method ApplyPendingRestore(serial: nat) returns (alive: bool, outcome: Result<Option<Revision>, ApplyError>)
      requires Lawful(env)
      modifies this
      ensures var a := ApplyAttempt(env, old(files), serial);
        && Ran(old(files), old(ticks), a.effects, files, ticks, alive)
        && files == CutApply(env, old(files), serial, old(ticks))
        && (alive ==> outcome == a.result)
      ensures Marker !in old(files) ==> alive && outcome == Ok(None) && files == old(files)
      ensures forall rec :: alive && Records(env, old(files), rec) && UnusedFrom(old(files), serial) ==>
        AnswersFor(env, old(files), rec, outcome)
    {
      forall rec | Records(env, files, rec) && UnusedFrom(files, serial)
        ensures AnswersFor(env, files, rec, ApplyAttempt(env, files, serial).result)
      {
        AnswersExactly(env, files, rec, serial);
      }
      NothingPendingExactly(env, files, serial);
      RanNothing(files, ticks);
      var pending := CheckPending();
      if pending.Err? { return true, Err(pending.error); }
      if pending.value.None? { return true, Ok(None); }
      alive, outcome := ApplyRecord(pending.value.value, serial);
    }

    method ExtractMembers(stage: nat, members: seq<(Name, Bytes)>) returns (alive: bool)
      modifies this
      ensures Ran(old(files), old(ticks), ExtractEffects(stage, members), files, ticks, alive)
    {
      ghost var done: seq<Effect> := [];
      alive := true;
      RanNothing(files, ticks);
      var i := 0;
      while alive && i < |members|
        invariant i <= |members|
        invariant done == ExtractEffects(stage, members[..i])
        invariant Ran(old(files), old(ticks), done, files, ticks, alive)
        decreases alive, |members| - i
      {
        ghost var fs, t := files, ticks;
        ghost var ws := Writes(Staged(stage, members[i].0), members[i].1);
        alive := WriteFile(Staged(stage, members[i].0), members[i].1);
        RanThen(old(files), old(ticks), done, fs, t, ws, files, ticks, alive);
        assert members[..i + 1][..i] == members[..i];
        done := done + ws;
        i := i + 1;
      }
      if alive {
        assert members[..i] == members;
      } else {
        ExtractPrefix(stage, members, i);
        assert ExtractEffects(stage, members) == done + ExtractEffects(stage, members)[|done|..];
        RanOut(old(files), old(ticks), done, files, ticks, ExtractEffects(stage, members)[|done|..]);
      }
    }

    method StageRestore(stage: nat, payload: Payload,
                        serial: nat) returns (alive: bool, outcome: Result<Revision, StageError>)
      modifies this
      ensures var a := StageAttempt(env, old(files), stage, payload, serial);
        && Ran(old(files), old(ticks), a.effects, files, ticks, alive)
        && files == CutStage(env, old(files), stage, payload, serial, old(ticks))
        && (alive ==> outcome == a.result)
      ensures alive ==> StagingAnswers(env, old(files), payload, outcome)
    {
      StagingAnswersExactly(env, files, stage, payload, serial);
      RanNothing(files, ticks);
      if Marker in files {
        return true, Err(AlreadyWaiting);
      }
      var inspection := InspectInstallation(env, files);
      if inspection != Fresh {
        return true, Err(if inspection == HasOwnerData then NotFreshInstallation else CannotInspectInstallation);
      }
      outcome := Judge(env, payload);
      ghost var extract := ExtractEffects(stage, payload.members);
      ghost var rest := if outcome.Err? then Removals(stage, env.walk(Extracted(payload.members).Keys))
                        else CopyOver(MarkerFor(env, stage, payload), Temporary(serial), Marker);
      alive := ExtractMembers(stage, payload.members);
      if !alive {
        RanOut(old(files), old(ticks), extract, files, ticks, rest);
        return;
      }
      ghost var fs, t := files, ticks;
      if outcome.Err? {
        alive := RemoveStage(stage, env.walk(Extracted(payload.members).Keys));
      } else {
        alive := CopyFile(MarkerFor(env, stage, payload), Temporary(serial), Marker);
      }
      RanThen(old(files), old(ticks), extract, fs, t, rest, files, ticks, alive);
    }
  }

  lemma {:induction false} ExtractPrefix(stage: nat, members: seq<(Name, Bytes)>, i: nat)
    requires i <= |members|
    ensures ExtractEffects(stage, members[..i]) <= ExtractEffects(stage, members)
    decreases |members| - i
  {
    if i < |members| {
      assert members[..i + 1][..i] == members[..i];
      ExtractPrefix(stage, members, i + 1);
    } else {
      assert members[..i] == members;
    }
  }
}
