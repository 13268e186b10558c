/** Staged restore of a portable archive (portability.py).

The data directory is a map from paths to contents. Every change of it is one
`Effect`; a copy is one effect per byte, so a power loss may leave any prefix of
a file behind, while a rename is a single effect. An attempt to stage or apply a
restore is the list of effects it performs, and losing power means performing
only a prefix of that list. */
module Restore {
  import opened Prelude
  import opened ArchivePaths

  type Revision = string

  datatype Path =
    | Marker
    | Database
    | WriteAheadLog
    | SharedMemory
    | Staged(stage: nat, name: Name)
    | Data(name: Name)
    | Temporary(serial: nat)      // beside the database or the marker

  type Files = map<Path, Bytes>

  const HEX: string := "0123456789abcdef"

  /** The spelling of the random identifier that is drawn as the k-th one. */
  function Identifier(k: nat): string {
    if k < 16 then [HEX[k]] else Identifier(k / 16) + [HEX[k % 16]]
  }

  /** Where a copy of a tree file is written before it is renamed: a hidden file in the same directory. */
  function CopyName(n: Name, serial: nat): Name
    requires n != []
  {
    n[..|n| - 1] + ["." + n[|n| - 1] + "." + Identifier(serial) + ".tmp"]
  }

  /** Identifiers drawn from here on name no file of the tree and none of a stage. */
  ghost predicate UnusedFrom(fs: Files, serial: nat) {
    forall m: Name, k: nat :: m != [] && k >= serial ==>
      Data(CopyName(m, k)) !in fs && forall stage :: Staged(stage, CopyName(m, k)) !in fs
  }

  /** What the pending-restore marker records. */
  datatype Record = Record(stage: nat, databaseDigest: Digest, revision: Revision)

  datatype Inspection = Fresh | HasOwnerData | Unreadable

  /** Code that is not part of this model: SQLite, the JSON text of the marker,
  and the order in which a directory walk lists files. */
  datatype Environment = Environment(
    inspect: (Bytes, Option<Bytes>) -> Inspection,
    revisionOf: Bytes -> Option<Revision>,
    encode: Record -> Bytes,
    decode: Bytes -> Option<Record>,
    walk: set<Name> -> seq<Name>)

  ghost predicate Enumerates(names: seq<Name>, s: set<Name>) {
    && (forall n :: n in names <==> n in s)
    && (forall i, j :: 0 <= i < j < |names| ==> names[i] != names[j])
  }

  ghost predicate Lawful(env: Environment) {
    && (forall r :: env.decode(env.encode(r)) == Some(r))
    && (forall s :: Enumerates(env.walk(s), s))
  }

  // ---------- Effects ----------

  datatype Effect =
    | Write(path: Path, bytes: Bytes)
    | Replace(source: Path, target: Path)
    | Remove(path: Path)

  function Perform(fs: Files, e: Effect): Files {
    match e
    case Write(p, b) => fs[p := b]
    case Replace(s, t) => if s in fs then (fs - {s})[t := fs[s]] else fs
    case Remove(p) => fs - {p}
  }

  function Execute(fs: Files, effects: seq<Effect>): Files
    decreases |effects|
  {
    if effects == [] then fs else Execute(Perform(fs, effects[0]), effects[1..])
  }

  /** Writing a file: it is created empty and then grows byte by byte. */
  function Writes(p: Path, content: Bytes): seq<Effect> {
    seq(|content| + 1, i requires 0 <= i <= |content| => Write(p, content[..i]))
  }

  /** Copy to a temporary place, then rename. */
  function CopyOver(content: Bytes, temporary: Path, target: Path): seq<Effect> {
    Writes(temporary, content) + [Replace(temporary, target)]
  }

  function Removals(stage: nat, names: seq<Name>): seq<Effect> {
    seq(|names|, i requires 0 <= i < |names| => Remove(Staged(stage, names[i])))
  }

  lemma {:induction false} ExecuteConcat(fs: Files, a: seq<Effect>, b: seq<Effect>)
    ensures Execute(fs, a + b) == Execute(Execute(fs, a), b)
    decreases |a|
  {
    if a == [] {
      assert a + b == b;
    } else {
      assert (a + b)[1..] == a[1..] + b;
      ExecuteConcat(Perform(fs, a[0]), a[1..], b);
    }
  }

  lemma {:induction false} ExecuteSnoc(fs: Files, a: seq<Effect>, e: Effect)
    ensures Execute(fs, a + [e]) == Perform(Execute(fs, a), e)
  {
    ExecuteConcat(fs, a, [e]);
    assert Execute(Execute(fs, a), [e]) == Execute(Perform(Execute(fs, a), e), [e][1..]);
  }

  lemma {:induction false} ExecuteWritesUpTo(fs: Files, p: Path, content: Bytes, n: nat)
    requires n <= |content|
    ensures Execute(fs, Writes(p, content)[..n + 1]) == fs[p := content[..n]]
  {
    var ws := Writes(p, content);
    assert ws[..n + 1] == ws[..n] + [ws[n]];
    ExecuteSnoc(fs, ws[..n], ws[n]);
    if n > 0 {
      ExecuteWritesUpTo(fs, p, content, n - 1);
    }
  }

  lemma ExecuteWrites(fs: Files, p: Path, content: Bytes)
    ensures Execute(fs, Writes(p, content)) == fs[p := content]
  {
    ExecuteWritesUpTo(fs, p, content, |content|);
    assert Writes(p, content)[..|content| + 1] == Writes(p, content);
    assert content[..|content|] == content;
  }

  lemma ExecuteCopyOver(fs: Files, content: Bytes, temporary: Path, target: Path)
    requires temporary != target
    ensures Execute(fs, CopyOver(content, temporary, target)) == (fs - {temporary})[target := content]
  {
    ExecuteSnoc(fs, Writes(temporary, content), Replace(temporary, target));
    ExecuteWrites(fs, temporary, content);
    assert fs[temporary := content] - {temporary} == fs - {temporary};
  }

  // ---------- Applying a staged restore ----------

  datatype ApplyError = InvalidMarker | StageMissingOrModified | NotFresh | CannotInspect | FilesConflict

  datatype Attempt<T> = Attempt(effects: seq<Effect>, result: Result<T, ApplyError>)

  datatype CopyPlan = CopyPlan(effects: seq<Effect>, ok: bool)

  /** The files extracted below one stage directory. */
  function StageOf(fs: Files, stage: nat): map<Name, Bytes> {
    map p | p in fs && p.Staged? && p.stage == stage :: p.name := fs[p]
  }

  function TreeNames(staged: map<Name, Bytes>): set<Name> {
    set n | n in staged && IsTreeName(n)
  }

  /** A missing database counts as fresh, whatever log file lies beside it. */
  function InspectInstallation(env: Environment, fs: Files): Inspection {
    if Database !in fs then Fresh else env.inspect(fs[Database], Lookup(fs, WriteAheadLog))
  }

  /** Copy every staged tree file that is not there yet; stop at the first one
  whose place is taken by different content. */
  function PlanCopies(fs: Files, staged: map<Name, Bytes>, names: seq<Name>, serial: nat): CopyPlan
    requires forall n :: n in names ==> n in staged && IsTreeName(n)
    decreases |names|
  {
    if names == [] then CopyPlan([], true)
    else if Data(names[0]) in fs then
      if fs[Data(names[0])] != staged[names[0]] then CopyPlan([], false)
      else PlanCopies(fs, staged, names[1..], serial)
    else
      assert IsTreeName(names[0]);
      var head := CopyOver(staged[names[0]], Data(CopyName(names[0], serial)), Data(names[0]));
      var tail := PlanCopies(Execute(fs, head), staged, names[1..], serial + 1);
      CopyPlan(head + tail.effects, tail.ok)
  }

  /** Drop the log files of the fresh database, then move the staged one into its place. */
  function SwapDatabase(database: Bytes, serial: nat): seq<Effect> {
    [Remove(WriteAheadLog), Remove(SharedMemory)] + CopyOver(database, Temporary(serial), Database)
  }

  predicate DatabaseMatches(fs: Files, rec: Record) {
    Database in fs && Sha256(fs[Database]) == rec.databaseDigest
  }

  predicate StageMatches(fs: Files, rec: Record) {
    Staged(rec.stage, DATABASE) in fs && Sha256(fs[Staged(rec.stage, DATABASE)]) == rec.databaseDigest
  }

  function FinishEffects(env: Environment, fs: Files, rec: Record, serial: nat): seq<Effect>
    requires StageMatches(fs, rec)
  {
    (if DatabaseMatches(fs, rec) then [] else SwapDatabase(fs[Staged(rec.stage, DATABASE)], serial))
    + [Remove(Marker)]
    + Removals(rec.stage, env.walk(StageOf(fs, rec.stage).Keys))
  }

  ghost function ApplyAttempt(env: Environment, fs: Files, serial: nat): Attempt<Option<Revision>>
    requires Lawful(env)
  {
    if Marker !in fs then Attempt([], Ok(None))
    else match env.decode(fs[Marker])
      case None => Attempt([], Err(InvalidMarker))
      case Some(rec) => ApplyRecord(env, fs, rec, serial)
  }

  ghost function ApplyRecord(env: Environment, fs: Files, rec: Record, serial: nat): Attempt<Option<Revision>>
    requires Lawful(env)
  {
    if !StageMatches(fs, rec) then Attempt([], Err(StageMissingOrModified))
    else if !DatabaseMatches(fs, rec) && InspectInstallation(env, fs) == HasOwnerData then Attempt([], Err(NotFresh))
    else if !DatabaseMatches(fs, rec) && InspectInstallation(env, fs) == Unreadable then Attempt([], Err(CannotInspect))
    else
      var staged := StageOf(fs, rec.stage);
      var names := env.walk(TreeNames(staged));
      assert Enumerates(names, TreeNames(staged));
      var copies := PlanCopies(fs, staged, names, serial);
      if !copies.ok then Attempt(copies.effects, Err(FilesConflict))
      else Attempt(copies.effects + FinishEffects(env, fs, rec, serial + |names|), Ok(Some(rec.revision)))
  }
}
