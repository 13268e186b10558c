/** Begun copies that a power loss leaves in the tree: exactly which, after one cut attempt. */
module RestoreLeftovers {
  import opened Prelude
  import opened ArchivePaths
  import opened Restore
  import opened RestoreSafety
  import opened RestoreApply

  /** The begun copy on disk after n effects: the last one wrote to a hidden file of the tree, and
  the rename that follows was not reached. */
  function LeftBy(effects: seq<Effect>, n: nat): Files
    requires n <= |effects|
  {
    if n > 0 && effects[n - 1].Write? && effects[n - 1].path.Data?
    then map[effects[n - 1].path := effects[n - 1].bytes] else map[]
  }

  /** Tree files stay; what is new is left behind in part or copied whole, nothing else. */
  ghost predicate DataExactly(fs0: Files, fs: Files, staged: map<Name, Bytes>, left: Files) {
    && (forall n :: Data(n) in fs0 ==> Lookup(fs, Data(n)) == Lookup(fs0, Data(n)))
    && (forall n :: Data(n) in left ==> Lookup(fs, Data(n)) == Some(left[Data(n)]))
    && (forall n :: Data(n) in fs && Data(n) !in fs0 && Data(n) !in left ==> IsCopied(n, fs[Data(n)], staged))
  }

  /** Hidden files of the tree that were not there before: parts of staged files under copy names. */
  ghost predicate AreBegun(fs0: Files, left: Files, staged: map<Name, Bytes>) {
    forall p <- left :: p.Data? && p !in fs0 && IsBegunCopy(p.name, left[p], staged)
  }

  /** Cut after i effects, the list leaves exactly the begun copy of the cut. */
  ghost predicate CutExact(fs: Files, effects: seq<Effect>, i: nat, staged: map<Name, Bytes>)
    requires i <= |effects|
  {
    && DataExactly(fs, Execute(fs, effects[..i]), staged, LeftBy(effects, i))
    && AreBegun(fs, LeftBy(effects, i), staged)
  }

  // ---------- Putting cuts together ----------

  lemma LeftStays(fs0: Files, fs1: Files, fs2: Files, staged: map<Name, Bytes>, left1: Files, left2: Files)
    requires DataExactly(fs0, fs1, staged, left1) && AreBegun(fs0, left1, staged)
    requires DataExactly(fs1, fs2, staged, left2) && AreBegun(fs1, left2, staged)
    ensures AreBegun(fs0, left1 + left2, staged)
    ensures forall n :: Data(n) in left1 + left2 ==> Lookup(fs2, Data(n)) == Some((left1 + left2)[Data(n)])
  {
    forall p | p in left1 ensures Lookup(fs1, Data(p.name)) == Some(left1[p]) {
      assert p == Data(p.name);
    }
    forall p | p in left2 ensures p !in fs0 {
      assert p == Data(p.name) && (p in fs0 ==> Lookup(fs1, Data(p.name)) == Lookup(fs0, Data(p.name)));
    }
    forall n | Data(n) in left1 + left2 ensures Lookup(fs2, Data(n)) == Some((left1 + left2)[Data(n)]) {
      assert Data(n) in left1 ==> Lookup(fs2, Data(n)) == Lookup(fs1, Data(n));
    }
  }

  lemma ExactThen(fs0: Files, fs1: Files, fs2: Files, staged: map<Name, Bytes>, left1: Files, left2: Files)
    requires DataExactly(fs0, fs1, staged, left1) && AreBegun(fs0, left1, staged)
    requires DataExactly(fs1, fs2, staged, left2) && AreBegun(fs1, left2, staged)
    ensures DataExactly(fs0, fs2, staged, left1 + left2) && AreBegun(fs0, left1 + left2, staged)
  {
    LeftStays(fs0, fs1, fs2, staged, left1, left2);
    forall n | Data(n) in fs2 && Data(n) !in fs0 && Data(n) !in left1 + left2
      ensures IsCopied(n, fs2[Data(n)], staged)
    {
      assert Data(n) in fs1 ==> Lookup(fs2, Data(n)) == Lookup(fs1, Data(n));
    }
  }

  lemma LeftShifts(a: seq<Effect>, b: seq<Effect>, i: nat)
    requires i <= |a + b|
    ensures i <= |a| ==> (a + b)[..i] == a[..i] && LeftBy(a + b, i) == LeftBy(a, i)
    ensures i > |a| ==> (a + b)[..i] == a + b[..i - |a|] && LeftBy(a + b, i) == LeftBy(b, i - |a|)
  {
  }

  lemma CutConcat(fs: Files, a: seq<Effect>, b: seq<Effect>, i: nat, staged: map<Name, Bytes>)
    requires i <= |a + b|
    requires i <= |a| ==> CutExact(fs, a, i, staged)
    requires i > |a| ==> DataExactly(fs, Execute(fs, a), staged, map[]) && CutExact(Execute(fs, a), b, i - |a|, staged)
    ensures CutExact(fs, a + b, i, staged)
  {
    LeftShifts(a, b, i);
    if i > |a| {
      var fs1, left := Execute(fs, a), LeftBy(b, i - |a|);
      ExecuteConcat(fs, a, b[..i - |a|]);
      ExactThen(fs, fs1, Execute(fs1, b[..i - |a|]), staged, map[], left);
      assert map[] + left == left;
    }
  }

  // ---------- Cutting the copies ----------

  /** Cut while one file is copied: before, within, or right after it. */
  lemma CutOneCopy(fs: Files, staged: map<Name, Bytes>, n: Name, serial: nat, i: nat)
    requires n in staged && IsTreeName(n) && Data(n) !in fs
    requires Unmet({}, staged, serial) && Undrawn(fs, serial)
    requires i <= |staged[n]| + 2
    ensures var head := CopyOver(staged[n], Data(CopyName(n, serial)), Data(n));
      |head| == |staged[n]| + 2 && CutExact(fs, head, i, staged)
  {
    var p := Data(CopyName(n, serial));
    var content := staged[n];
    var head := CopyOver(content, p, Data(n));
    assert p !in fs && CopyName(n, serial) !in staged;
    if i == |content| + 2 {
      assert head[..i] == head;
      ExecuteCopyOver(fs, content, p, Data(n));
      assert fs - {p} == fs;
    } else if i > 0 {
      assert head[..i] == Writes(p, content)[..i - 1 + 1];
      ExecuteWritesUpTo(fs, p, content, i - 1);
      assert head[i - 1] == Write(p, content[..i - 1]);
      assert content[..i - 1] <= staged[n];
      assert IsBegunCopy(p.name, content[..i - 1], staged);
    } else {
      assert head[..0] == [];
    }
  }

  lemma CutNext(fs: Files, staged: map<Name, Bytes>, n: Name, serial: nat, tail: seq<Effect>, i: nat)
    requires n in staged && IsTreeName(n) && Data(n) !in fs
    requires Unmet({}, staged, serial) && Undrawn(fs, serial)
    requires i <= |staged[n]| + 2 + |tail|
    requires i > |staged[n]| + 2 ==> CutExact(fs[Data(n) := staged[n]], tail, i - |staged[n]| - 2, staged)
    ensures CutExact(fs, CopyOver(staged[n], Data(CopyName(n, serial)), Data(n)) + tail, i, staged)
  {
    var head := CopyOver(staged[n], Data(CopyName(n, serial)), Data(n));
    CutOneCopy(fs, staged, n, serial, Min(i, |head|));
    if i > |head| { TreeCopyAdds(fs, staged, n, serial); }
    CutConcat(fs, head, tail, i, staged);
  }

  lemma TreeCopyAdds(fs: Files, staged: map<Name, Bytes>, n: Name, serial: nat)
    requires n in staged && IsTreeName(n) && Data(n) !in fs
    requires Unmet({}, staged, serial) && Undrawn(fs, serial)
    ensures Execute(fs, CopyOver(staged[n], Data(CopyName(n, serial)), Data(n))) == fs[Data(n) := staged[n]]
    ensures Undrawn(fs[Data(n) := staged[n]], serial + 1)
    ensures DataExactly(fs, fs[Data(n) := staged[n]], staged, map[])
  {
    TreeCopySafe(fs, n, serial, staged, {}, false);
  }

  /** The copy loop cut anywhere leaves the begun copy of the cut and nothing else of its own. */
  lemma {:induction false} CutCopiesExact(fs: Files, staged: map<Name, Bytes>, names: seq<Name>, serial: nat, i: nat)
    requires forall n :: n in names ==> n in staged && IsTreeName(n)
    requires Unmet({}, staged, serial) && Undrawn(fs, serial)
    requires i <= |PlanCopies(fs, staged, names, serial).effects|
    ensures CutExact(fs, PlanCopies(fs, staged, names, serial).effects, i, staged)
    decreases |names|
  {
    if names == [] || (Data(names[0]) in fs && fs[Data(names[0])] != staged[names[0]]) {
      AvoidingCut(fs, [], i, staged);
    } else if Data(names[0]) in fs {
      CutCopiesExact(fs, staged, names[1..], serial, i);
    } else {
      var n := names[0];
      TreeCopyAdds(fs, staged, n, serial);
      var fs1 := fs[Data(n) := staged[n]];
      if i > |staged[n]| + 2 {
        CutCopiesExact(fs1, staged, names[1..], serial + 1, i - |staged[n]| - 2);
      }
      CutNext(fs, staged, n, serial, PlanCopies(fs1, staged, names[1..], serial + 1).effects, i);
    }
  }

  // ---------- Cutting an attempt ----------

  predicate AvoidsTree(e: Effect) {
    match e
    case Write(p, _) => !p.Data?
    case Replace(s, t) => !s.Data? && !t.Data?
    case Remove(p) => !p.Data?
  }

  lemma {:induction false} AvoidingKeepsTree(fs: Files, effects: seq<Effect>)
    requires forall e :: e in effects ==> AvoidsTree(e)
    ensures forall n :: Lookup(Execute(fs, effects), Data(n)) == Lookup(fs, Data(n))
    decreases |effects|
  {
    if effects != [] {
      assert AvoidsTree(effects[0]);
      AvoidingKeepsTree(Perform(fs, effects[0]), effects[1..]);
    }
  }

  lemma AvoidingCut(fs: Files, effects: seq<Effect>, i: nat, staged: map<Name, Bytes>)
    requires forall e :: e in effects ==> AvoidsTree(e)
    requires i <= |effects|
    ensures CutExact(fs, effects, i, staged)
  {
    AvoidingKeepsTree(fs, effects[..i]);
    if i > 0 { assert AvoidsTree(effects[i - 1]); }
    forall n ensures Lookup(Execute(fs, effects[..i]), Data(n)) == Lookup(fs, Data(n)) {}
  }

  lemma FinishAvoidsTree(env: Environment, fs: Files, rec: Record, serial: nat)
    requires StageMatches(fs, rec)
    ensures forall e :: e in FinishEffects(env, fs, rec, serial) ==> AvoidsTree(e)
  {
  }

  ghost function EffectsDone(env: Environment, fs: Files, serial: nat, ticks: nat): nat
    requires Lawful(env)
  {
    Min(ticks, |ApplyAttempt(env, fs, serial).effects|)
  }

  /** What one cut attempt leaves behind. */
  ghost function LeftByAttempt(env: Environment, fs: Files, serial: nat, ticks: nat): Files
    requires Lawful(env)
  {
    LeftBy(ApplyAttempt(env, fs, serial).effects, EffectsDone(env, fs, serial, ticks))
  }

  lemma CutFinishExact(fs: Files, copies: seq<Effect>, finish: seq<Effect>, staged: map<Name, Bytes>, i: nat)
    requires i <= |copies + finish| && forall e :: e in finish ==> AvoidsTree(e)
    requires i <= |copies| ==> CutExact(fs, copies, i, staged)
    requires DataCopied(fs, Execute(fs, copies), staged)
    ensures CutExact(fs, copies + finish, i, staged)
  {
    if i > |copies| { AvoidingCut(Execute(fs, copies), finish, i - |copies|, staged); }
    CutConcat(fs, copies, finish, i, staged);
  }

  lemma CutPlanExact(env: Environment, fs: Files, rec: Record, serial: nat, i: nat)
    requires Lawful(env) && UnusedFrom(fs, serial)
    ensures var staged := StageOf(fs, rec.stage); var copies := CopyEffects(env, fs, rec, serial).effects;
      && DataCopied(fs, Execute(fs, copies), staged)
      && (i <= |copies| ==> CutExact(fs, copies, i, staged))
  {
    UnusedIsUnmet(fs, rec.stage, serial);
    var staged, names := StageOf(fs, rec.stage), CopyOrder(env, fs, rec.stage);
    PlanCopiesSafe(fs, staged, names, serial, {}, false);
    if i <= |PlanCopies(fs, staged, names, serial).effects| { CutCopiesExact(fs, staged, names, serial, i); }
  }

  lemma CutWholeExact(env: Environment, fs: Files, rec: Record, serial: nat, i: nat)
    requires Lawful(env) && StageMatches(fs, rec) && UnusedFrom(fs, serial)
    requires i <= |CopyEffects(env, fs, rec, serial).effects + LastEffects(env, fs, rec, serial)|
    ensures CutExact(fs, CopyEffects(env, fs, rec, serial).effects + LastEffects(env, fs, rec, serial), i,
                     StageOf(fs, rec.stage))
  {
    CutPlanExact(env, fs, rec, serial, i);
    FinishAvoidsTree(env, fs, rec, serial + |CopyOrder(env, fs, rec.stage)|);
    CutFinishExact(fs, CopyEffects(env, fs, rec, serial).effects, LastEffects(env, fs, rec, serial),
                   StageOf(fs, rec.stage), i);
  }

  lemma CutEffectsExact(env: Environment, fs: Files, rec: Record, serial: nat, i: nat)
    requires Lawful(env) && Pending(env, fs, rec) && UnusedFrom(fs, serial)
    requires i <= |ApplyAttempt(env, fs, serial).effects|
    ensures CutExact(fs, ApplyAttempt(env, fs, serial).effects, i, StageOf(fs, rec.stage))
  {
    AttemptHasForm(env, fs, rec, serial);
    if Refused(env, fs, rec) {
      AvoidingCut(fs, [], i, StageOf(fs, rec.stage));
    } else if CopyEffects(env, fs, rec, serial).ok {
      CutWholeExact(env, fs, rec, serial, i);
    } else {
      CutPlanExact(env, fs, rec, serial, i);
    }
  }

  /** One attempt, cut anywhere: the tree keeps its files and gains staged files and the begun copy
  of the cut. */
  lemma CutAttemptExact(env: Environment, fs: Files, rec: Record, serial: nat, ticks: nat)
    requires Lawful(env) && Pending(env, fs, rec) && UnusedFrom(fs, serial)
    ensures var left := LeftByAttempt(env, fs, serial, ticks); var staged := StageOf(fs, rec.stage);
      DataExactly(fs, CutApply(env, fs, serial, ticks), staged, left) && AreBegun(fs, left, staged)
  {
    CutEffectsExact(env, fs, rec, serial, EffectsDone(env, fs, serial, ticks));
  }
}
