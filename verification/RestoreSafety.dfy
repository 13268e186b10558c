/** What no effect of an apply may do, at whatever point power is lost. */
module RestoreSafety {
  import opened Prelude
  import opened ArchivePaths
  import opened Restore

  /** Every staged tree file stands at its place in the data directory. */
  ghost predicate CopiesDone(fs: Files, staged: map<Name, Bytes>) {
    forall n :: n in staged && IsTreeName(n) ==> Data(n) in fs && fs[Data(n)] == staged[n]
  }

  predicate DatabaseInPlace(fs: Files, staged: map<Name, Bytes>) {
    DATABASE in staged && Database in fs && fs[Database] == staged[DATABASE]
  }

  /** `Between(fs0, fs, staged, swap)`: what an apply that began in `fs0`, possibly cut
  short and restarted, may have turned it into. `swap` says that the database
  did not match at the beginning and was found fresh. */
  ghost predicate Between(fs0: Files, fs: Files, staged: map<Name, Bytes>, swap: bool) {
    && DataBetween(fs0, fs, staged)
    && (Lookup(fs, Database) == Lookup(fs0, Database) ||
        (swap && DatabaseInPlace(fs, staged) && CopiesDone(fs, staged) && WriteAheadLog !in fs && SharedMemory !in fs))
    && LogBetween(fs0, fs, staged, swap, WriteAheadLog)
    && LogBetween(fs0, fs, staged, swap, SharedMemory)
    && (if Marker in fs then Lookup(fs0, Marker) == Some(fs[Marker]) && StagesKept(fs0, fs)
        else Marker in fs0 ==> CopiesDone(fs, staged) && DatabaseInPlace(fs, staged))
  }

  /** A copy of a staged tree file that was begun and not renamed. */
  ghost predicate IsBegunCopy(n: Name, content: Bytes, staged: map<Name, Bytes>) {
    && n !in staged
    && exists m: Name, k: nat :: m in staged && IsTreeName(m) && n == CopyName(m, k) && content <= staged[m]
  }

  ghost predicate IsCopied(n: Name, content: Bytes, staged: map<Name, Bytes>) {
    n in staged && IsTreeName(n) && content == staged[n]
  }

  /** Tree files stay, and new ones are staged files or begun copies of them. */
  ghost predicate DataBetween(fs0: Files, fs: Files, staged: map<Name, Bytes>) {
    && (forall n :: Data(n) in fs0 ==> Data(n) in fs && fs[Data(n)] == fs0[Data(n)])
    && (forall n :: Data(n) in fs && Data(n) !in fs0 ==>
          IsCopied(n, fs[Data(n)], staged) || IsBegunCopy(n, fs[Data(n)], staged))
  }

  /** The same without begun copies. */
  ghost predicate DataCopied(fs0: Files, fs: Files, staged: map<Name, Bytes>) {
    && (forall n :: Data(n) in fs0 ==> Data(n) in fs && fs[Data(n)] == fs0[Data(n)])
    && (forall n :: Data(n) in fs && Data(n) !in fs0 ==> IsCopied(n, fs[Data(n)], staged))
  }

  function TreeFiles(fs: Files): set<Name> {
    set p | p in fs && p.Data? :: p.name
  }

  /** Copies with identifiers from `serial` on meet no file of the tree and no staged file. */
  ghost predicate Unmet(taken: set<Name>, staged: map<Name, Bytes>, serial: nat) {
    forall m: Name, k: nat :: m != [] && k >= serial ==> CopyName(m, k) !in taken && CopyName(m, k) !in staged
  }

  lemma UnusedIsUnmet(fs: Files, stage: nat, serial: nat)
    requires UnusedFrom(fs, serial)
    ensures Unmet(TreeFiles(fs), StageOf(fs, stage), serial)
  {
    forall m: Name, k: nat | m != [] && k >= serial
      ensures CopyName(m, k) !in TreeFiles(fs) && CopyName(m, k) !in StageOf(fs, stage)
    {
      assert Data(CopyName(m, k)) !in fs && Staged(stage, CopyName(m, k)) !in fs;
    }
  }

  ghost predicate LogBetween(fs0: Files, fs: Files, staged: map<Name, Bytes>, swap: bool, log: Path) {
    Lookup(fs, log) == Lookup(fs0, log) || (swap && CopiesDone(fs, staged) && log !in fs)
  }

  ghost predicate StagesKept(fs0: Files, fs: Files) {
    forall s, n :: Lookup(fs, Staged(s, n)) == Lookup(fs0, Staged(s, n))
  }

  /** Where a copy may be written: beside the database, or hidden in the tree under a name that is
  neither staged nor `taken` when the apply began. */
  predicate IsScratch(p: Path, staged: map<Name, Bytes>, taken: set<Name>) {
    p.Temporary? || (p.Data? && p.name !in staged && p.name !in taken)
  }

  /** The effects an apply is allowed to perform in state `fs`. */
  ghost predicate Allowed(fs: Files, e: Effect, staged: map<Name, Bytes>, taken: set<Name>, swap: bool) {
    match e
    case Write(p, b) => IsScratch(p, staged, taken) && (p.Data? ==> IsBegunCopy(p.name, b, staged))
    case Replace(s, t) =>
      && IsScratch(s, staged, taken) && s in fs
      && ((t.Data? && t !in fs && IsCopied(t.name, fs[s], staged))
          || (t == Database && swap && DATABASE in staged && fs[s] == staged[DATABASE] && CopiesDone(fs, staged)
              && WriteAheadLog !in fs && SharedMemory !in fs))
    case Remove(p) =>
      || ((p == WriteAheadLog || p == SharedMemory) && swap && CopiesDone(fs, staged) && !DatabaseInPlace(fs, staged))
      || (p == Marker && CopiesDone(fs, staged) && DatabaseInPlace(fs, staged))
      || (p.Staged? && Marker !in fs)
  }

  ghost predicate Safe(fs: Files, effects: seq<Effect>, staged: map<Name, Bytes>, taken: set<Name>, swap: bool)
    decreases |effects|
  {
    effects == [] ||
    (Allowed(fs, effects[0], staged, taken, swap) && Safe(Perform(fs, effects[0]), effects[1..], staged, taken, swap))
  }

  lemma CopiesStayDone(fs: Files, e: Effect, staged: map<Name, Bytes>, taken: set<Name>, swap: bool)
    requires CopiesDone(fs, staged) && Allowed(fs, e, staged, taken, swap)
    ensures CopiesDone(Perform(fs, e), staged)
  {
  }

  lemma AllowedKeepsData(fs0: Files, fs: Files, e: Effect, staged: map<Name, Bytes>, taken: set<Name>, swap: bool)
    requires DataBetween(fs0, fs, staged) && Allowed(fs, e, staged, taken, swap) && TreeFiles(fs0) <= taken
    ensures DataBetween(fs0, Perform(fs, e), staged)
  {
    assert forall n :: Data(n) in fs0 ==> n in TreeFiles(fs0);
  }

  /** One allowed effect keeps the relation to the state in which the apply began. */
  lemma AllowedKeepsBetween(fs0: Files, fs: Files, e: Effect, staged: map<Name, Bytes>, taken: set<Name>, swap: bool)
    requires Between(fs0, fs, staged, swap) && Allowed(fs, e, staged, taken, swap) && TreeFiles(fs0) <= taken
    ensures Between(fs0, Perform(fs, e), staged, swap)
  {
    if CopiesDone(fs, staged) {
      CopiesStayDone(fs, e, staged, taken, swap);
    }
    AllowedKeepsData(fs0, fs, e, staged, taken, swap);
    var fs' := Perform(fs, e);
    if Marker in fs' {
      assert StagesKept(fs0, fs');
    }
  }

  /** A safe list of effects keeps it wherever the list is cut. */
  lemma {:induction false} SafePrefixKeepsBetween(
      fs0: Files, fs: Files, effects: seq<Effect>, n: nat, staged: map<Name, Bytes>, taken: set<Name>, swap: bool)
    requires Between(fs0, fs, staged, swap) && Safe(fs, effects, staged, taken, swap) && n <= |effects|
    requires TreeFiles(fs0) <= taken
    ensures Between(fs0, Execute(fs, effects[..n]), staged, swap)
    decreases n
  {
    if n > 0 {
      AllowedKeepsBetween(fs0, fs, effects[0], staged, taken, swap);
      SafePrefixKeepsBetween(fs0, Perform(fs, effects[0]), effects[1..], n - 1, staged, taken, swap);
      assert effects[..n][1..] == effects[1..][..n - 1];
    }
  }

  lemma {:induction false} SafeConcat(fs: Files, a: seq<Effect>, b: seq<Effect>, staged: map<Name, Bytes>,
                                      taken: set<Name>, swap: bool)
    requires Safe(fs, a, staged, taken, swap) && Safe(Execute(fs, a), b, staged, taken, swap)
    ensures Safe(fs, a + b, staged, taken, swap)
    decreases |a|
  {
    if a == [] {
      assert a + b == b;
    } else {
      SafeConcat(Perform(fs, a[0]), a[1..], b, staged, taken, swap);
      assert (a + b)[1..] == a[1..] + b;
    }
  }

  lemma {:induction false} WritesAreSafe(
      fs: Files, p: Path, content: Bytes, i: nat, staged: map<Name, Bytes>, taken: set<Name>, swap: bool)
    requires i <= |content| + 1 && IsScratch(p, staged, taken) && (p.Data? ==> IsBegunCopy(p.name, content, staged))
    ensures Safe(fs, Writes(p, content)[i..], staged, taken, swap)
    decreases |content| + 1 - i
  {
    if i <= |content| {
      var e := Write(p, content[..i]);
      if p.Data? { PartIsBegun(p.name, content, i, staged); }
      assert Writes(p, content)[i..][0] == e && Writes(p, content)[i..][1..] == Writes(p, content)[i + 1..];
      WritesAreSafe(Perform(fs, e), p, content, i + 1, staged, taken, swap);
    }
  }

  lemma PartIsBegun(n: Name, content: Bytes, i: nat, staged: map<Name, Bytes>)
    requires IsBegunCopy(n, content, staged) && i <= |content|
    ensures IsBegunCopy(n, content[..i], staged)
  {
    var m: Name, k: nat :| m in staged && IsTreeName(m) && n == CopyName(m, k) && content <= staged[m];
    assert content[..i] <= staged[m];
  }

  lemma CopyOverSafe(fs: Files, content: Bytes, p: Path, target: Path, staged: map<Name, Bytes>, taken: set<Name>,
                     swap: bool)
    requires IsScratch(p, staged, taken) && (p.Data? ==> IsBegunCopy(p.name, content, staged))
    requires Allowed(fs[p := content], Replace(p, target), staged, taken, swap)
    ensures Safe(fs, CopyOver(content, p, target), staged, taken, swap)
  {
    var ws := Writes(p, content);
    WritesAreSafe(fs, p, content, 0, staged, taken, swap);
    assert ws[0..] == ws;
    ExecuteWrites(fs, p, content);
    var e := Replace(p, target);
    assert Safe(Execute(fs, ws), [e], staged, taken, swap) by {
      assert [e][1..] == [];
    }
    SafeConcat(fs, ws, [e], staged, taken, swap);
  }

  /** One file copied into the tree under an unmet identifier. */
  lemma TreeCopySafe(fs: Files, n: Name, serial: nat, staged: map<Name, Bytes>, taken: set<Name>, swap: bool)
    requires n in staged && IsTreeName(n) && Data(n) !in fs && Unmet(taken, staged, serial)
    requires Data(CopyName(n, serial)) !in fs
    ensures var head := CopyOver(staged[n], Data(CopyName(n, serial)), Data(n));
      Safe(fs, head, staged, taken, swap) && Execute(fs, head) == fs[Data(n) := staged[n]]
  {
    var p := Data(CopyName(n, serial));
    assert CopyName(n, serial) !in taken && CopyName(n, serial) !in staged;
    assert IsBegunCopy(p.name, staged[n], staged);
    CopyOverSafe(fs, staged[n], p, Data(n), staged, taken, swap);
    ExecuteCopyOver(fs, staged[n], p, Data(n));
    assert fs - {p} == fs;
  }

  /** The tree of an apply under way holds no copy with an identifier still to be drawn. */
  ghost predicate Undrawn(fs: Files, serial: nat) {
    forall m: Name, k: nat :: m != [] && k >= serial ==> Data(CopyName(m, k)) !in fs
  }

  lemma CopyThenSafe(fs: Files, n: Name, serial: nat, tail: seq<Effect>, staged: map<Name, Bytes>, taken: set<Name>,
                     swap: bool)
    requires n in staged && IsTreeName(n) && Data(n) !in fs && Unmet(taken, staged, serial)
    requires Data(CopyName(n, serial)) !in fs && Safe(fs[Data(n) := staged[n]], tail, staged, taken, swap)
    ensures var head := CopyOver(staged[n], Data(CopyName(n, serial)), Data(n));
      && Safe(fs, head + tail, staged, taken, swap)
      && Execute(fs, head) == fs[Data(n) := staged[n]]
      && Execute(fs, head + tail) == Execute(fs[Data(n) := staged[n]], tail)
  {
    var head := CopyOver(staged[n], Data(CopyName(n, serial)), Data(n));
    TreeCopySafe(fs, n, serial, staged, taken, swap);
    SafeConcat(fs, head, tail, staged, taken, swap);
    ExecuteConcat(fs, head, tail);
  }

  /** What the effects of a copy loop do: each is allowed, only the tree changes, and unless a
  conflict stops the loop every listed file is in place afterwards. */
  ghost predicate CopiesWell(
      fs: Files, plan: CopyPlan, names: seq<Name>, staged: map<Name, Bytes>, taken: set<Name>, swap: bool)
    requires forall n :: n in names ==> n in staged
  {
    var fs' := Execute(fs, plan.effects);
    && Safe(fs, plan.effects, staged, taken, swap)
    && DataCopied(fs, fs', staged)
    && (forall p: Path :: !p.Data? ==> Lookup(fs', p) == Lookup(fs, p))
    && (plan.ok ==> forall n :: n in names ==> Data(n) in fs' && fs'[Data(n)] == staged[n])
  }

  lemma PresentThenWell(fs: Files, plan: CopyPlan, names: seq<Name>, staged: map<Name, Bytes>, taken: set<Name>,
                        swap: bool)
    requires names != [] && forall n :: n in names ==> n in staged
    requires Data(names[0]) in fs && fs[Data(names[0])] == staged[names[0]]
    requires CopiesWell(fs, plan, names[1..], staged, taken, swap)
    ensures CopiesWell(fs, plan, names, staged, taken, swap)
  {
    assert forall n :: n in names ==> n == names[0] || n in names[1..];
  }

  lemma CopyThenWell(fs: Files, tail: CopyPlan, names: seq<Name>, serial: nat, staged: map<Name, Bytes>,
                     taken: set<Name>, swap: bool)
    requires names != [] && IsTreeName(names[0]) && forall n :: n in names ==> n in staged && IsTreeName(n)
    requires Data(names[0]) !in fs && Data(CopyName(names[0], serial)) !in fs && Unmet(taken, staged, serial)
    requires CopiesWell(fs[Data(names[0]) := staged[names[0]]], tail, names[1..], staged, taken, swap)
    ensures var head := CopyOver(staged[names[0]], Data(CopyName(names[0], serial)), Data(names[0]));
      CopiesWell(fs, CopyPlan(head + tail.effects, tail.ok), names, staged, taken, swap)
  {
    CopyThenSafe(fs, names[0], serial, tail.effects, staged, taken, swap);
    assert forall n :: n in names ==> n == names[0] || n in names[1..];
  }

  lemma {:induction false} PlanCopiesSafe(
      fs: Files, staged: map<Name, Bytes>, names: seq<Name>, serial: nat, taken: set<Name>, swap: bool)
    requires forall n :: n in names ==> n in staged && IsTreeName(n)
    requires Unmet(taken, staged, serial) && Undrawn(fs, serial)
    ensures CopiesWell(fs, PlanCopies(fs, staged, names, serial), names, staged, taken, swap)
    decreases |names|
  {
    if names != [] {
      var n := names[0];
      if Data(n) !in fs {
        var fs1 := fs[Data(n) := staged[n]];
        assert Undrawn(fs1, serial + 1);
        PlanCopiesSafe(fs1, staged, names[1..], serial + 1, taken, swap);
        CopyThenWell(fs, PlanCopies(fs1, staged, names[1..], serial + 1), names, serial, staged, taken, swap);
        TreeCopySafe(fs, n, serial, staged, taken, swap);
      } else if fs[Data(n)] == staged[n] {
        PlanCopiesSafe(fs, staged, names[1..], serial, taken, swap);
        PresentThenWell(fs, PlanCopies(fs, staged, names[1..], serial), names, staged, taken, swap);
      }
    }
  }

  lemma {:induction false} RemovalsSafe(fs: Files, stage: nat, names: seq<Name>, staged: map<Name, Bytes>,
                                        taken: set<Name>, swap: bool)
    requires Marker !in fs
    ensures Safe(fs, Removals(stage, names), staged, taken, swap)
    ensures var fs' := Execute(fs, Removals(stage, names));
      forall p: Path :: Lookup(fs', p) ==
        if p.Staged? && p.stage == stage && p.name in names then None else Lookup(fs, p)
    decreases |names|
  {
    if names != [] {
      assert Removals(stage, names)[1..] == Removals(stage, names[1..]);
      RemovalsSafe(fs - {Staged(stage, names[0])}, stage, names[1..], staged, taken, swap);
    }
  }

  lemma LogRemovalsSafe(fs: Files, staged: map<Name, Bytes>, taken: set<Name>)
    requires CopiesDone(fs, staged) && !DatabaseInPlace(fs, staged)
    ensures var removals := [Remove(WriteAheadLog), Remove(SharedMemory)];
      Safe(fs, removals, staged, taken, true) && Execute(fs, removals) == fs - {WriteAheadLog} - {SharedMemory}
  {
    var removals := [Remove(WriteAheadLog), Remove(SharedMemory)];
    var fs1 := fs - {WriteAheadLog};
    var fs2 := fs1 - {SharedMemory};
    assert removals[1..] == [Remove(SharedMemory)] && removals[1..][1..] == [];
    assert Execute(fs1, removals[1..]) == Execute(fs2, removals[1..][1..]) == fs2;
    assert Safe(fs1, removals[1..], staged, taken, true) by {
      assert Safe(fs2, removals[1..][1..], staged, taken, true);
    }
  }

  lemma SwapSafe(fs: Files, serial: nat, staged: map<Name, Bytes>, taken: set<Name>)
    requires DATABASE in staged && CopiesDone(fs, staged) && !DatabaseInPlace(fs, staged)
    ensures var effects := SwapDatabase(staged[DATABASE], serial);
      && Safe(fs, effects, staged, taken, true)
      && Execute(fs, effects)
         == (fs - {WriteAheadLog, SharedMemory, Temporary(serial)})[Database := staged[DATABASE]]
  {
    var removals := [Remove(WriteAheadLog), Remove(SharedMemory)];
    var fs2 := fs - {WriteAheadLog} - {SharedMemory};
    LogRemovalsSafe(fs, staged, taken);
    var copy := CopyOver(staged[DATABASE], Temporary(serial), Database);
    CopyOverSafe(fs2, staged[DATABASE], Temporary(serial), Database, staged, taken, true);
    ExecuteCopyOver(fs2, staged[DATABASE], Temporary(serial), Database);
    SafeConcat(fs, removals, copy, staged, taken, true);
    ExecuteConcat(fs, removals, copy);
    assert fs2 - {Temporary(serial)} == fs - {WriteAheadLog, SharedMemory, Temporary(serial)};
  }
}
