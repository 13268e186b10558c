/** From one installation to another: the archive writer, the envelope, the reader, the staging and
the next start, put together. */
module Portability {
  import opened Prelude
  import opened ArchivePaths
  import A = Archive
  import Env = Envelope
  import opened Restore
  import opened RestoreSafety
  import opened RestoreApply
  import opened RestoreLeftovers
  import opened RestoreRestarts
  import opened RestoreRuns

  /** The ZIP container: entries in order, and the bytes they are packed into. */
  datatype Container = Container(pack: seq<A.Entry> -> Bytes, unpack: Bytes -> Option<seq<A.Entry>>)

  /** Unpacking undoes packing, and a container never begins with the magic bytes of an envelope. */
  ghost predicate LawfulContainer(z: Container) {
    forall entries :: z.unpack(z.pack(entries)) == Some(entries) && !(Env.MAGIC <= z.pack(entries))
  }

  /** ArchiveService.create after the snapshot: pack the entries, and seal them with a passphrase. */
  ghost function WriteArchive(z: Container, c: Env.Crypto, entries: seq<A.Entry>, passphrase: Option<string>,
                              salt: Bytes, nonce: Bytes): Result<Bytes, Env.EnvelopeError>
    requires Env.Lawful(c) && |salt| == 16 && |nonce| == 12
  {
    if passphrase.None? then Ok(z.pack(entries)) else Env.Encrypt(c, z.pack(entries), passphrase.value, salt, nonce)
  }

  /** stage_restore up to the first file it writes. */
  ghost function ReadArchive(z: Container, c: Env.Crypto, codec: A.ManifestCodec, payload: Bytes,
                             passphrase: Option<string>): Option<Payload> {
    match Env.Decrypt(c, payload, passphrase)
    case Err(_) => None
    case Ok(plain) =>
      match z.unpack(plain)
      case None => None
      case Some(entries) =>
        match A.ExtractPayload(codec, entries)
        case Err(_) => None
        case Ok((manifest, _)) => Some(Payload(A.Targets(entries), manifest.databaseDigest, manifest.revision))
  }

  lemma ReadsWhatWasWritten(z: Container, c: Env.Crypto, codec: A.ManifestCodec, entries: seq<A.Entry>,
                            passphrase: Option<string>, salt: Bytes, nonce: Bytes)
    requires LawfulContainer(z) && Env.Lawful(c) && |salt| == 16 && |nonce| == 12
    requires WriteArchive(z, c, entries, passphrase, salt, nonce).Ok? && A.ExtractPayload(codec, entries).Ok?
    ensures var m := A.ExtractPayload(codec, entries).value.0;
      ReadArchive(z, c, codec, WriteArchive(z, c, entries, passphrase, salt, nonce).value, passphrase)
        == Some(Payload(A.Targets(entries), m.databaseDigest, m.revision))
  {
    assert z.unpack(z.pack(entries)) == Some(entries) && !(Env.MAGIC <= z.pack(entries));
    if passphrase.Some? {
      Env.EncryptThenDecrypt(c, z.pack(entries), passphrase.value, salt, nonce);
    }
  }

  /** The files a restore must leave: the archived database and tree, and what was there besides. */
  ghost predicate Moved(fs: Files, fs2: Files, database: Bytes, found: seq<A.Found>)
    requires A.AllFiles(found)
  {
    && Lookup(fs2, Database) == Some(database)
    && (forall f :: f in found ==> Lookup(fs2, Data(f.name)) == Some(f.content))
    && (forall n :: (forall f :: f in found ==> f.name != n) ==> Lookup(fs2, Data(n)) == Lookup(fs, Data(n)))
    && Marker !in fs2
  }

  lemma ArchiveIsMoved(fs: Files, fs2: Files, contents: map<Name, Bytes>, manifest: Bytes, database: Bytes,
                       found: seq<A.Found>)
    requires A.RealWalk(found) && A.AllFiles(found)
    requires A.HoldsExactly(contents, manifest, database, found) && HoldsArchive(fs, fs2, contents)
    ensures Moved(fs, fs2, database, found)
  {
    assert Lookup(contents, DATABASE) == Some(database);
    forall f | f in found ensures Lookup(fs2, Data(f.name)) == Some(f.content) {
      assert Lookup(contents, f.name) == Some(f.content);
    }
    forall n | forall f :: f in found ==> f.name != n ensures Lookup(fs2, Data(n)) == Lookup(fs, Data(n)) {
      assert !IsTreeName(DATABASE) && !IsTreeName(MANIFEST);
    }
  }

  /** No archived file has the name of a copy with an identifier still to be drawn. */
  ghost predicate NamesNoCopy(found: seq<A.Found>, serial: nat) {
    forall f, m: Name, k: nat :: f in found && m != [] && k >= serial ==> f.name != CopyName(m, k)
  }

  lemma ContentsUnmet(contents: map<Name, Bytes>, manifest: Bytes, database: Bytes, found: seq<A.Found>, serial: nat)
    requires A.AllFiles(found) && A.HoldsExactly(contents, manifest, database, found) && NamesNoCopy(found, serial)
    ensures Unmet({}, contents, serial)
  {
    forall m: Name, k: nat | m != [] && k >= serial ensures CopyName(m, k) !in contents {
      assert CopyName(m, k)[|m| - 1][0] == '.';
      assert CopyName(m, k) != DATABASE && CopyName(m, k) != MANIFEST;
    }
  }

  /** Whatever one installation archives, encrypted or not, a fresh one restores: staging accepts it,
  and after the next start its database and file tree are exactly the archived ones. */
  lemma ArchiveMovesInstallation(
      z: Container, c: Env.Crypto, codec: A.ManifestCodec, env: Environment,
      entries: seq<A.Entry>, database: Bytes, revision: string, found: seq<A.Found>,
      passphrase: Option<string>, salt: Bytes, nonce: Bytes, fs: Files, stage: nat, serial: nat, serial': nat)
    requires LawfulContainer(z) && Env.Lawful(c) && A.RoundTrips(codec) && Restore.Lawful(env)
    requires A.RealWalk(found) && A.AllFiles(found) && A.Accepted(entries)
    requires A.IsArchiveOf(entries, A.ManifestText(codec, database, revision, found), database, found)
    requires |salt| == 16 && |nonce| == 12 && WriteArchive(z, c, entries, passphrase, salt, nonce).Ok?
    requires Marker !in fs && InspectInstallation(env, fs) == Fresh && UnusedStage(fs, stage)
    requires env.revisionOf(database) == Some(revision)
    requires forall f :: f in found && Data(f.name) in fs ==> fs[Data(f.name)] == f.content
    requires UnusedFrom(fs, serial') && NamesNoCopy(found, serial')
    ensures var written := WriteArchive(z, c, entries, passphrase, salt, nonce).value;
      var read := ReadArchive(z, c, codec, written, passphrase);
      && read.Some?
      && var staging := StageAttempt(env, fs, stage, read.value, serial);
         var fs1 := Execute(fs, staging.effects);
         var a := ApplyAttempt(env, fs1, serial');
         && staging.result == Ok(revision) && a.result == Ok(Some(revision))
         && Moved(fs, Execute(fs1, a.effects), database, found)
  {
    A.WriterReaderRoundTrip(codec, entries, database, revision, found);
    ReadsWhatWasWritten(z, c, codec, entries, passphrase, salt, nonce);
    StagesAndMoves(codec, env, entries, database, revision, found, fs, stage, serial, serial');
  }

  /** What the extracted archive holds, and that nothing in the installation stands against it. */
  ghost predicate FitsInto(fs: Files, contents: map<Name, Bytes>, database: Bytes, serial: nat) {
    && Lookup(contents, DATABASE) == Some(database)
    && NoConflict(fs, contents) && Unmet({}, contents, serial)
  }

  lemma FoundStandsBeside(fs: Files, contents: map<Name, Bytes>, manifest: Bytes, database: Bytes,
                          found: seq<A.Found>)
    requires A.AllFiles(found) && A.HoldsExactly(contents, manifest, database, found)
    requires forall f :: f in found && Data(f.name) in fs ==> fs[Data(f.name)] == f.content
    ensures NoConflict(fs, contents)
  {
    forall n | n in contents && IsTreeName(n) && Data(n) in fs ensures fs[Data(n)] == contents[n] {
      var f :| f in found && f.name == n;
      assert Lookup(contents, f.name) == Some(f.content);
    }
  }

  lemma ArchiveFits(codec: A.ManifestCodec, entries: seq<A.Entry>, database: Bytes, revision: string,
                    found: seq<A.Found>, fs: Files, serial: nat)
    requires A.RealWalk(found) && A.AllFiles(found)
    requires A.IsArchiveOf(entries, A.ManifestText(codec, database, revision, found), database, found)
    requires forall f :: f in found && Data(f.name) in fs ==> fs[Data(f.name)] == f.content
    requires NamesNoCopy(found, serial)
    ensures var contents := Extracted(A.Targets(entries));
      && A.HoldsExactly(contents, A.ManifestText(codec, database, revision, found), database, found)
      && FitsInto(fs, contents, database, serial)
  {
    var contents := Extracted(A.Targets(entries));
    var manifest := A.ManifestText(codec, database, revision, found);
    A.WrittenTargets(entries, manifest, database, found);
    A.ExtractedHoldsExactly(A.Targets(entries), manifest, database, found);
    FoundStandsBeside(fs, contents, manifest, database, found);
    ContentsUnmet(contents, manifest, database, found, serial);
  }

  lemma FittingIsStaged(env: Environment, fs: Files, stage: nat, payload: Payload, database: Bytes, revision: string,
                        serial: nat)
    requires Marker !in fs && InspectInstallation(env, fs) == Fresh && env.revisionOf(database) == Some(revision)
    requires Lookup(Extracted(payload.members), DATABASE) == Some(database)
    requires payload.databaseDigest == Some(Sha256(database)) && payload.revision == Some(revision)
    ensures StageAttempt(env, fs, stage, payload, serial).result == Ok(revision)
  {
  }

  lemma StagesAndMoves(codec: A.ManifestCodec, env: Environment, entries: seq<A.Entry>, database: Bytes,
                       revision: string,
                       found: seq<A.Found>, fs: Files, stage: nat, serial: nat, serial': nat)
    requires Restore.Lawful(env) && A.RealWalk(found) && A.AllFiles(found)
    requires A.IsArchiveOf(entries, A.ManifestText(codec, database, revision, found), database, found)
    requires Marker !in fs && InspectInstallation(env, fs) == Fresh && UnusedStage(fs, stage)
    requires env.revisionOf(database) == Some(revision)
    requires forall f :: f in found && Data(f.name) in fs ==> fs[Data(f.name)] == f.content
    requires UnusedFrom(fs, serial') && NamesNoCopy(found, serial')
    ensures var payload := Payload(A.Targets(entries), Some(Sha256(database)), Some(revision));
      var staging := StageAttempt(env, fs, stage, payload, serial);
      var fs1 := Execute(fs, staging.effects);
      var a := ApplyAttempt(env, fs1, serial');
      && staging.result == Ok(revision) && a.result == Ok(Some(revision))
      && Moved(fs, Execute(fs1, a.effects), database, found)
  {
    var payload := Payload(A.Targets(entries), Some(Sha256(database)), Some(revision));
    var contents := Extracted(payload.members);
    ArchiveFits(codec, entries, database, revision, found, fs, serial');
    FittingIsStaged(env, fs, stage, payload, database, revision, serial);
    StageThenStart(env, fs, stage, payload, serial, serial');
    var fs1 := Execute(fs, StageAttempt(env, fs, stage, payload, serial).effects);
    ArchiveIsMoved(fs, Execute(fs1, ApplyAttempt(env, fs1, serial').effects), contents,
                   A.ManifestText(codec, database, revision, found), database, found);
  }

  // ---------- Leftovers travel ----------

  /** The walk over the archived directories finds exactly the files of the tree. */
  ghost predicate Lists(found: seq<A.Found>, fs: Files) {
    && A.AllFiles(found)
    && (forall f :: f in found ==> IsTreeName(f.name) && Lookup(fs, Data(f.name)) == Some(f.content))
    && (forall n :: IsTreeName(n) && Data(n) in fs ==> A.File(n, fs[Data(n)]) in found)
  }

  lemma BegunIsTreeName(n: Name, content: Bytes, staged: map<Name, Bytes>)
    requires IsBegunCopy(n, content, staged)
    ensures IsTreeName(n)
  {
    var m: Name, k: nat :| m in staged && IsTreeName(m) && n == CopyName(m, k) && content <= staged[m];
    assert n[0] == m[0] && |n| == |m|;
  }

  /** Every one of these tree files is an entry. */
  ghost predicate Includes(entries: seq<A.Entry>, left: Files) {
    forall p :: p in left ==> p.Data? && IsTreeName(p.name) && A.Entry(Join(p.name), false, left[p]) in entries
  }

  /** What a power loss left in the tree is an entry of every archive made after any further stagings
  and starts, under its hidden name. */
  lemma LeftoversAreArchived(env: Environment, w: World, rec: Record, starts: seq<Start>, events: seq<Event>,
                             found: seq<A.Found>, entries: seq<A.Entry>, manifest: Bytes, database: Bytes)
    requires Restore.Lawful(env) && LossesThenEvents(env, w, rec, starts, events)
    requires Lists(found, Run(env, AfterLosses(env, w, starts), events).files)
    requires A.IsArchiveOf(entries, manifest, database, found)
    ensures Includes(entries, Leftovers(env, w.files, starts))
  {
    LeftoversStay(env, w, rec, starts, events);
    LeftoversExact(env, w.files, rec, starts);
    BegunAreIncluded(w.files, Leftovers(env, w.files, starts), StageOf(w.files, rec.stage),
                     Run(env, AfterLosses(env, w, starts), events).files, found, entries, manifest, database);
  }

  lemma BegunAreIncluded(fs0: Files, left: Files, staged: map<Name, Bytes>, fs: Files, found: seq<A.Found>,
                         entries: seq<A.Entry>, manifest: Bytes, database: Bytes)
    requires AreBegun(fs0, left, staged) && forall p :: p in left ==> Lookup(fs, p) == Some(left[p])
    requires Lists(found, fs) && A.IsArchiveOf(entries, manifest, database, found)
    ensures Includes(entries, left)
  {
    forall p | p in left ensures p.Data? && IsTreeName(p.name) && A.Entry(Join(p.name), false, left[p]) in entries {
      BegunIsTreeName(p.name, left[p], staged);
      assert p == Data(p.name) && Lookup(fs, p) == Some(left[p]);
      ArchivedEntry(entries, manifest, database, found, A.File(p.name, left[p]));
    }
  }

  lemma ArchivedEntry(entries: seq<A.Entry>, manifest: Bytes, database: Bytes, found: seq<A.Found>, f: A.Found)
    requires A.AllFiles(found) && A.IsArchiveOf(entries, manifest, database, found) && f in found
    ensures A.Entry(Join(f.name), false, f.content) in entries
  {
    var i :| 0 <= i < |found| && found[i] == f;
    assert entries[i + 2] == A.Entry(Join(f.name), false, f.content);
  }
}
