/** Concrete runs of the restore: a copy left behind, and a restore that stays refused. */
module RestoreExamples {
  import opened Prelude
  import opened ArchivePaths
  import opened Restore
  import opened RestoreApply
  import opened RestoreLeftovers
  import opened RestoreRestarts

  // ---------- Random identifiers ----------

  predicate IsHex(c: char) {
    c in HEX
  }

  lemma {:induction false} IdentifierIsHex(k: nat)
    ensures Identifier(k) != "" && forall c :: c in Identifier(k) ==> IsHex(c)
  {
    if k >= 16 {
      IdentifierIsHex(k / 16);
    }
  }

  lemma HexDigitsDiffer(i: nat, j: nat)
    requires i < 16 && j < 16 && HEX[i] == HEX[j]
    ensures i == j
  {
    assert HEX[..10] == "0123456789" && HEX[10..] == "abcdef";
    assert forall k :: 0 <= k < 10 ==> HEX[k] as int == 48 + k;
    assert forall k :: 10 <= k < 16 ==> HEX[k] as int == 87 + k;
  }

  lemma IdentifierParts(k: nat)
    ensures var s := Identifier(k);
      && s != "" && s[|s| - 1] == HEX[k % 16]
      && s[..|s| - 1] == if k < 16 then "" else Identifier(k / 16)
  {
    IdentifierIsHex(k);
  }

  /** The spelling in hexadecimal tells identifiers apart. */
  lemma {:induction false} IdentifiersDiffer(j: nat, k: nat)
    requires Identifier(j) == Identifier(k)
    ensures j == k
  {
    IdentifierParts(j);
    IdentifierParts(k);
    HexDigitsDiffer(j % 16, k % 16);
    IdentifierIsHex(j / 16);
    IdentifierIsHex(k / 16);
    if j >= 16 && k >= 16 {
      IdentifiersDiffer(j / 16, k / 16);
    }
  }

  /** No dot comes after the one before a text without dots. */
  lemma NoLaterDot(a: string, x: string, i: nat)
    requires '.' !in x && i < |a + "." + x| && (a + "." + x)[i] == '.'
    ensures i <= |a|
  {
    assert (a + "." + x)[|a| + 1..] == x;
  }

  lemma LastDot(a: string, x: string, b: string, y: string)
    requires a + "." + x == b + "." + y && '.' !in x && '.' !in y
    ensures x == y
  {
    NoLaterDot(a, x, |b|);
    NoLaterDot(b, y, |a|);
    assert (a + "." + x)[|a| + 1..] == x && (b + "." + y)[|b| + 1..] == y;
  }

  /** Copies under different identifiers never meet. */
  lemma CopyNamesDiffer(m: Name, j: nat, n: Name, k: nat)
    requires m != [] && n != []
    ensures CopyName(m, j) == CopyName(n, k) ==> j == k
  {
    var a, b := "." + m[|m| - 1], "." + n[|n| - 1];
    var s, t := a + "." + Identifier(j), b + "." + Identifier(k);
    if CopyName(m, j) == CopyName(n, k) {
      assert CopyName(m, j)[|m| - 1] == s + ".tmp" && CopyName(n, k)[|n| - 1] == t + ".tmp";
      assert (s + ".tmp")[..|s|] == s && (t + ".tmp")[..|t|] == t;
      IdentifierIsHex(j);
      IdentifierIsHex(k);
      LastDot(a, Identifier(j), b, Identifier(k));
      IdentifiersDiffer(j, k);
    }
  }

  function NamesIn(fs: Files): set<Name> {
    set p | p in fs && (p.Data? || p.Staged?) :: p.name
  }

  lemma {:induction false} FreshForNames(names: set<Name>) returns (serial: nat)
    ensures forall m: Name, k: nat :: m != [] && k >= serial ==> CopyName(m, k) !in names
  {
    if names == {} {
      serial := 0;
    } else {
      var n :| n in names;
      serial := FreshForNames(names - {n});
      if m: Name, k: nat :| m != [] && n == CopyName(m, k) {
        serial := if k < serial then serial else k + 1;
        forall m': Name, k': nat | m' != [] && k' >= serial ensures CopyName(m', k') != n {
          CopyNamesDiffer(m', k', m, k);
        }
      }
    }
  }

  /** Whatever files there are, some identifiers are still unused. */
  lemma UnusedExists(fs: Files) returns (serial: nat)
    ensures UnusedFrom(fs, serial)
  {
    serial := FreshForNames(NamesIn(fs));
    forall m: Name, k: nat | m != [] && k >= serial
      ensures Data(CopyName(m, k)) !in fs && forall stage :: Staged(stage, CopyName(m, k)) !in fs
    {
      assert CopyName(m, k) !in NamesIn(fs);
    }
  }

  // ---------- A leftover ----------

  const PHOTO: Name := ["objects", "a"]

  /** A new installation with a staged archive: a database and one file of two bytes. */
  function OnePhotoStaged(marker: Bytes): Files {
    map[Marker := marker, Staged(0, DATABASE) := [1], Staged(0, PHOTO) := [7, 8]]
  }

  lemma OnePhotoIsUnused(marker: Bytes)
    ensures UnusedFrom(OnePhotoStaged(marker), 0)
  {
    forall m: Name, k: nat | m != []
      ensures Data(CopyName(m, k)) !in OnePhotoStaged(marker)
      ensures forall stage :: Staged(stage, CopyName(m, k)) !in OnePhotoStaged(marker)
    {
      CopyNameIsHidden(m, k);
    }
  }

  lemma CopyNameIsHidden(m: Name, k: nat)
    requires m != []
    ensures CopyName(m, k) != DATABASE && CopyName(m, k) != MANIFEST && CopyName(m, k) != PHOTO
  {
    assert CopyName(m, k)[|m| - 1][0] == '.';
    if |m| == 2 { assert PHOTO[|m| - 1][0] == 'a'; }
  }

  lemma OnePhotoAcceptable(env: Environment, rec: Record)
    requires Lawful(env) && rec.stage == 0 && rec.databaseDigest == Sha256([1])
    ensures var fs := OnePhotoStaged(env.encode(rec));
      Pending(env, fs, rec) && Acceptable(env, fs, rec) && FreshWithoutLog(env, fs, rec)
  {
  }

  lemma OnePhotoEffects(env: Environment, rec: Record)
    requires Lawful(env) && rec.stage == 0 && rec.databaseDigest == Sha256([1])
    ensures var effects := ApplyAttempt(env, OnePhotoStaged(env.encode(rec)), 0).effects;
      var hidden := Data(CopyName(PHOTO, 0));
      |effects| > 2 && effects[..2] == [Write(hidden, []), Write(hidden, [7])]
  {
    var fs := OnePhotoStaged(env.encode(rec));
    AttemptHasForm(env, fs, rec, 0);
    var names := CopyOrder(env, fs, 0);
    var staged := StageOf(fs, 0);
    assert IsTreeName(PHOTO) && PHOTO in TreeNames(staged);
    assert names[0] in TreeNames(staged);
    assert names[0] == PHOTO && staged[PHOTO] == [7, 8];
    var writes := Writes(Data(CopyName(PHOTO, 0)), [7, 8]);
    assert [7, 8][..0] == [] && [7, 8][..1] == [7];
    assert writes[..2] == [Write(Data(CopyName(PHOTO, 0)), []), Write(Data(CopyName(PHOTO, 0)), [7])];
    assert CopyEffects(env, fs, rec, 0).effects[..2] == writes[..2];
  }

  lemma CutAfterTwoWrites(env: Environment, fs: Files, hidden: Path, part: Bytes)
    requires Lawful(env) && hidden.Data?
    requires var effects := ApplyAttempt(env, fs, 0).effects;
      |effects| > 2 && effects[..2] == [Write(hidden, []), Write(hidden, part)]
    ensures CutApply(env, fs, 0, 2) == fs[hidden := part] && LeftByAttempt(env, fs, 0, 2) == map[hidden := part]
  {
    var effects := ApplyAttempt(env, fs, 0).effects;
    assert effects[..2][1] == effects[1] && effects[..2][1..] == [Write(hidden, part)];
    assert effects[..2][1..][1..] == [];
    var fs1 := fs[hidden := []];
    assert Execute(fs1, effects[..2][1..]) == Execute(fs1[hidden := part], effects[..2][1..][1..]);
  }

  /** One cut and one whole start. */
  lemma CutThenRestored(env: Environment, fs: Files, rec: Record, start: Start, serial: nat)
    requires Lawful(env) && Pending(env, fs, rec) && Acceptable(env, fs, rec) && FreshWithoutLog(env, fs, rec)
    requires UnusedFrom(fs, start.serial) && Marker in CutApply(env, fs, start.serial, start.ticks)
    requires UnusedFrom(CutApply(env, fs, start.serial, start.ticks), serial)
    ensures var fs1 := CutApply(env, fs, start.serial, start.ticks);
      var a := ApplyAttempt(env, fs1, serial);
      && a.result == Ok(Some(rec.revision))
      && IsRestoredBut(fs, rec, Execute(fs1, a.effects), LeftByAttempt(env, fs, start.serial, start.ticks))
  {
    var fs1, left := CutApply(env, fs, start.serial, start.ticks), LeftByAttempt(env, fs, start.serial, start.ticks);
    var starts := [start];
    assert starts[1..] == [];
    assert FreshStarts(env, fs1, []) && Restarts(env, fs1, []) == fs1 && Leftovers(env, fs1, []) == map[];
    assert left + map[] == left;
    RestartsConverge(env, fs, rec, starts, serial);
  }

  /** Power lost after the first byte of the copy: the next start restores everything, and half of
  the hidden copy stays beside the restored file. */
  lemma LeftoverExample(env: Environment, rec: Record)
    requires Lawful(env) && rec.stage == 0 && rec.databaseDigest == Sha256([1])
    ensures var fs1 := CutApply(env, OnePhotoStaged(env.encode(rec)), 0, 2);
      var a := ApplyAttempt(env, fs1, 1); var fs2 := Execute(fs1, a.effects);
      && UnusedFrom(fs1, 1) && a.result == Ok(Some(rec.revision))
      && Lookup(fs2, Data(PHOTO)) == Some([7, 8])
      && Lookup(fs2, Data(CopyName(PHOTO, 0))) == Some([7])
  {
    var fs, hidden := OnePhotoStaged(env.encode(rec)), Data(CopyName(PHOTO, 0));
    OnePhotoIsUnused(env.encode(rec));
    OnePhotoAcceptable(env, rec);
    OnePhotoEffects(env, rec);
    CutAfterTwoWrites(env, fs, hidden, [7]);
    StillUnused(fs, PHOTO, 0, [7]);
    CutThenRestored(env, fs, rec, Start(2, 0), 1);
    CopyNameIsHidden(PHOTO, 0);
    var fs1 := CutApply(env, fs, 0, 2);
    PhotoRestored(fs, rec, Execute(fs1, ApplyAttempt(env, fs1, 1).effects), hidden);
  }

  lemma StillUnused(fs: Files, n: Name, serial: nat, part: Bytes)
    requires n != [] && UnusedFrom(fs, serial)
    ensures UnusedFrom(fs[Data(CopyName(n, serial)) := part], serial + 1)
  {
    forall m: Name, k: nat | m != [] && k >= serial + 1
      ensures Data(CopyName(m, k)) !in fs[Data(CopyName(n, serial)) := part]
    {
      CopyNamesDiffer(m, k, n, serial);
    }
  }

  lemma PhotoRestored(fs: Files, rec: Record, fs2: Files, hidden: Path)
    requires rec.stage == 0 && hidden.Data? && hidden.name != PHOTO && Lookup(fs, Staged(0, PHOTO)) == Some([7, 8])
    requires IsRestoredBut(fs, rec, fs2, map[hidden := [7]])
    ensures Lookup(fs2, Data(PHOTO)) == Some([7, 8]) && Lookup(fs2, hidden) == Some([7])
  {
    assert Lookup(Visible(fs2), hidden) == Some([7]);
    assert IsTreeName(PHOTO) && StageOf(fs, 0)[PHOTO] == [7, 8];
    assert Lookup(Visible(fs2), Data(PHOTO)) == Some([7, 8]);
  }

  // ---------- A restore that stays refused ----------

  /** Two files, a database and its log, the marker and a stage of one file. */
  function Stranded(marker: Bytes): Files {
    map[Marker := marker, Database := [0], WriteAheadLog := [2], Staged(0, DATABASE) := [1]]
  }

  lemma StrandedIsUnused(marker: Bytes)
    ensures UnusedFrom(Stranded(marker), 0)
  {
    forall m: Name, k: nat | m != []
      ensures Data(CopyName(m, k)) !in Stranded(marker)
      ensures forall stage :: Staged(stage, CopyName(m, k)) !in Stranded(marker)
    {
      assert CopyName(m, k)[|m| - 1][0] == '.';
      assert CopyName(m, k) != DATABASE;
    }
  }

  /** The failing family is not empty: this fresh database had its owner's rows deleted only in
  the log file, and a crash after the log is removed refuses every later apply.
  `inspect` is a function of the two files. The program asks SQLite, which opens them and may move
  the log into the database and remove it when it closes; where it does, the log is gone before
  the apply gets to removing it, and the case above does not arise. */
  lemma StrandedExample(env: Environment, rec: Record)
    requires Lawful(env) && rec.stage == 0 && rec.databaseDigest == Sha256([1])
    requires env.inspect([0], Some([2])) == Fresh && env.inspect([0], None) == HasOwnerData
    ensures exists n: nat :: var fs' := CutApply(env, Stranded(env.encode(rec)), 0, n);
      Marker in fs' && forall serial :: ApplyAttempt(env, fs', serial) == Attempt([], Err(NotFresh))
  {
    var fs := Stranded(env.encode(rec));
    StrandedIsUnused(env.encode(rec));
    assert TreeNames(StageOf(fs, 0)) == {};
    assert Pending(env, fs, rec) && Acceptable(env, fs, rec) && !DatabaseMatches(fs, rec);
    var n := LogRemovedAt(env, fs, rec, 0);
    LogRemoved(env, fs, rec, 0);
    CutKeepsBetween(env, fs, fs, rec, 0, n);
    var fs' := CutApply(env, fs, 0, n);
    StillPending(env, fs, fs', rec, true);
    assert Lookup(fs', Database) == Some([0]);
    assert fs'[Database] == [0];
    RefusedForever(env, fs', rec);
  }

  lemma RefusedForever(env: Environment, fs: Files, rec: Record)
    requires Lawful(env) && Pending(env, fs, rec) && !DatabaseMatches(fs, rec)
    requires InspectInstallation(env, fs) == HasOwnerData
    ensures forall serial :: ApplyAttempt(env, fs, serial) == Attempt([], Err(NotFresh))
  {
  }
}
