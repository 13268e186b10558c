/** Entry names of a portable archive as POSIX paths (portability.py, PurePosixPath). */
module ArchivePaths {
  import opened Prelude

  /** Path parts below a directory. */
  type Name = seq<string>

  const DATABASE: Name := ["database.sqlite"]
  const MANIFEST: Name := ["manifest.json"]

  predicate IsTreeName(n: Name) {
    |n| >= 2 && (n[0] == "objects" || n[0] == "indexes")
  }

  function FirstSlash(s: string): (k: nat)
    requires '/' in s
    ensures k < |s| && s[k] == '/' && forall i :: 0 <= i < k ==> s[i] != '/'
  {
    if s[0] == '/' then 0 else 1 + FirstSlash(s[1..])
  }

  function Split(s: string): seq<string>
    decreases |s|
  {
    if '/' !in s then [s] else [s[..FirstSlash(s)]] + Split(s[FirstSlash(s) + 1..])
  }

  function Join(parts: seq<string>): string
    requires parts != []
  {
    if |parts| == 1 then parts[0] else parts[0] + "/" + Join(parts[1..])
  }

  function DropEmpty(parts: seq<string>): seq<string> {
    if parts == [] then []
    else if parts[0] == "" || parts[0] == "." then DropEmpty(parts[1..])
    else [parts[0]] + DropEmpty(parts[1..])
  }

  /** The parts PurePosixPath keeps of a relative path: ".." stays, "" and "." go. */
  function Parts(filename: string): Name {
    DropEmpty(Split(filename))
  }

  /** A component a file system can hold. */
  predicate PlainPart(p: string) {
    p != "" && p != "." && p != ".." && '/' !in p
  }

  lemma SplitAfterPart(p: string, rest: string)
    requires '/' !in p
    ensures Split(p + "/" + rest) == [p] + Split(rest)
  {
    var s := p + "/" + rest;
    assert s[|p|] == '/' && forall i :: 0 <= i < |p| ==> s[i] == p[i];
    var k := FirstSlash(s);
    assert k == |p| && s[..k] == p && s[k + 1..] == rest;
  }

  /** Splitting undoes joining. */
  lemma {:induction false} SplitJoin(parts: seq<string>)
    requires parts != [] && forall p :: p in parts ==> '/' !in p
    ensures Split(Join(parts)) == parts
  {
    if |parts| > 1 {
      SplitJoin(parts[1..]);
      SplitAfterPart(parts[0], Join(parts[1..]));
    }
  }

  lemma {:induction false} DropEmptyKeepsPlain(parts: seq<string>)
    requires forall p :: p in parts ==> PlainPart(p)
    ensures DropEmpty(parts) == parts
  {
    if parts != [] {
      assert PlainPart(parts[0]);
      DropEmptyKeepsPlain(parts[1..]);
    }
  }

  lemma PartsOfJoin(parts: Name)
    requires parts != [] && forall p :: p in parts ==> PlainPart(p)
    ensures Parts(Join(parts)) == parts
  {
    SplitJoin(parts);
    DropEmptyKeepsPlain(parts);
  }

  /** How a file system walks components below `base`: "." stays, ".." goes up. */
  function Resolve(base: Name, components: seq<string>): Name
    decreases |components|
  {
    if components == [] then base
    else if components[0] == "" || components[0] == "." then Resolve(base, components[1..])
    else if components[0] == ".." then Resolve(if base == [] then [] else base[..|base| - 1], components[1..])
    else Resolve(base + [components[0]], components[1..])
  }

  lemma {:induction false} ResolveWithoutParents(base: Name, components: seq<string>)
    requires ".." !in DropEmpty(components)
    ensures Resolve(base, components) == base + DropEmpty(components)
    decreases |components|
  {
    if components != [] {
      if components[0] == "" || components[0] == "." {
        ResolveWithoutParents(base, components[1..]);
      } else {
        assert DropEmpty(components)[0] == components[0] && DropEmpty(components)[1..] == DropEmpty(components[1..]);
        ResolveWithoutParents(base + [components[0]], components[1..]);
      }
    }
  }

  /** The tree an extraction leaves: a later entry overwrites an earlier one of the same name. */
  function Extracted(members: seq<(Name, Bytes)>): map<Name, Bytes> {
    if members == [] then map[]
    else
      var last := members[|members| - 1];
      Extracted(members[..|members| - 1])[last.0 := last.1]
  }

  lemma {:induction false} ExtractedAt(members: seq<(Name, Bytes)>, i: nat)
    requires i < |members| && forall j :: i < j < |members| ==> members[j].0 != members[i].0
    ensures members[i].0 in Extracted(members) && Extracted(members)[members[i].0] == members[i].1
    decreases |members|
  {
    if i < |members| - 1 {
      ExtractedAt(members[..|members| - 1], i);
    }
  }

  lemma {:induction false} ExtractedOnly(members: seq<(Name, Bytes)>, n: Name)
    requires n in Extracted(members)
    ensures exists i :: 0 <= i < |members| && members[i].0 == n
    decreases |members|
  {
    var last := |members| - 1;
    if members[last].0 != n {
      ExtractedOnly(members[..last], n);
      var i :| 0 <= i < last && members[..last][i].0 == n;
      assert members[i].0 == n;
    }
  }
}

/** The archive writer and the archive reader (portability.py). The ZIP container and the
JSON text of the manifest are not part of this model. */
module Archive {
  import opened Prelude
  import opened ArchivePaths

  const FORMAT: string := "soulmate-portable-archive"
  const MAX_ARCHIVE_ENTRIES: nat := 100_000
  const MAX_ARCHIVE_SIZE: nat := 512 * 1024 * 1024

  datatype Entry = Entry(filename: string, symlink: bool, content: Bytes)

  datatype Manifest = Manifest(
    format: string, formatVersion: int, credentialsIncluded: bool,
    databaseDigest: Option<Digest>, revision: Option<string>, entries: seq<string>)

  datatype ManifestCodec = ManifestCodec(encode: Manifest -> Bytes, decode: Bytes -> Option<Manifest>)

  ghost predicate RoundTrips(codec: ManifestCodec) {
    forall m :: codec.decode(codec.encode(m)) == Some(m)
  }

  datatype ArchiveError =
    | TooManyEntries | TooLarge | UnsafeEntry | MissingFiles
    | InvalidManifest | Unsupported | PathClash | ChecksumMismatch
    | SymbolicLink | ExceedsLimit

  // ---------- Reader ----------

  function TotalSize(entries: seq<Entry>): nat {
    if entries == [] then 0 else TotalSize(entries[..|entries| - 1]) + |entries[|entries| - 1].content|
  }

  predicate AllowedRoot(part: string) {
    part == MANIFEST[0] || part == DATABASE[0] || part == "objects" || part == "indexes"
  }

  predicate SafeParts(parts: Name) {
    parts != [] && ".." !in parts && AllowedRoot(parts[0])
  }

  /** Not a directory entry, not absolute, never upwards, and under a known root. */
  predicate SafeName(filename: string) {
    && filename != "" && filename[0] != '/' && filename[|filename| - 1] != '/'
    && SafeParts(Parts(filename))
  }

  predicate SafeEntry(e: Entry) {
    SafeName(e.filename) && !e.symlink
  }

  predicate AllSafe(entries: seq<Entry>) {
    forall i :: 0 <= i < |entries| ==> SafeEntry(entries[i])
  }

  predicate DistinctNames(entries: seq<Entry>) {
    forall i, j :: 0 <= i < j < |entries| ==> entries[i].filename != entries[j].filename
  }

  predicate HasEntry(entries: seq<Entry>, filename: string) {
    exists i :: 0 <= i < |entries| && entries[i].filename == filename
  }

  ghost predicate Accepted(entries: seq<Entry>) {
    && |entries| <= MAX_ARCHIVE_ENTRIES
    && TotalSize(entries) <= MAX_ARCHIVE_SIZE
    && AllSafe(entries)
    && DistinctNames(entries)
    && HasEntry(entries, MANIFEST[0])
    && HasEntry(entries, DATABASE[0])
  }

  /** Which check refuses the entries first, if one does. */
  ghost function ValidationAnswer(entries: seq<Entry>): Result<seq<Entry>, ArchiveError> {
    if |entries| > MAX_ARCHIVE_ENTRIES then Err(TooManyEntries)
    else if TotalSize(entries) > MAX_ARCHIVE_SIZE then Err(TooLarge)
    else if !AllSafe(entries) || !DistinctNames(entries) then Err(UnsafeEntry)
    else if !HasEntry(entries, MANIFEST[0]) || !HasEntry(entries, DATABASE[0]) then Err(MissingFiles)
    else Ok(entries)
  }

  method SumSizes(entries: seq<Entry>) returns (total: nat)
    ensures total == TotalSize(entries)
  {
    total := 0;
    for i := 0 to |entries|
      invariant total == TotalSize(entries[..i])
    {
      assert entries[..i + 1][..i] == entries[..i];
      total := total + |entries[i].content|;
    }
    assert entries[..|entries|] == entries;
  }

  method ValidatedMembers(entries: seq<Entry>) returns (r: Result<seq<Entry>, ArchiveError>)
    ensures r.Ok? <==> Accepted(entries)
    ensures r == ValidationAnswer(entries)
  {
    if |entries| > MAX_ARCHIVE_ENTRIES {
      return Err(TooManyEntries);
    }
    var total := SumSizes(entries);
    if total > MAX_ARCHIVE_SIZE {
      return Err(TooLarge);
    }
    var ok, names := CollectNames(entries);
    if !ok {
      return Err(UnsafeEntry);
    }
    if MANIFEST[0] !in names || DATABASE[0] !in names {
      return Err(MissingFiles);
    }
    return Ok(entries);
  }

  /** The loop over the entries: it stops at the first unsafe or repeated one. */
  method CollectNames(entries: seq<Entry>) returns (ok: bool, names: set<string>)
    ensures ok <==> AllSafe(entries) && DistinctNames(entries)
    ensures ok ==> NamesAre(names, entries)
  {
    names := {};
    for i := 0 to |entries|
      invariant Collected(names, entries[..i])
    {
      var e := entries[i];
      if !SafeEntry(e) || e.filename in names {
        NotCollectable(names, entries, i);
        return false, names;
      }
      AddEntry(names, entries, i);
      names := names + {e.filename};
    }
    assert entries[..|entries|] == entries;
    return true, names;
  }

  /** What the loop knows of the entries it has seen. */
  ghost predicate Collected(names: set<string>, entries: seq<Entry>) {
    NamesAre(names, entries) && AllSafe(entries) && DistinctNames(entries)
  }

  lemma NotCollectable(names: set<string>, entries: seq<Entry>, i: nat)
    requires i < |entries| && NamesAre(names, entries[..i])
    requires !SafeEntry(entries[i]) || entries[i].filename in names
    ensures !(AllSafe(entries) && DistinctNames(entries))
  {
    if entries[i].filename in names {
      assert HasEntry(entries[..i], entries[i].filename);
      var j :| 0 <= j < i && entries[..i][j].filename == entries[i].filename;
      assert entries[j].filename == entries[i].filename;
    }
  }

  lemma AddEntry(names: set<string>, entries: seq<Entry>, i: nat)
    requires i < |entries| && Collected(names, entries[..i])
    requires SafeEntry(entries[i]) && entries[i].filename !in names
    ensures Collected(names + {entries[i].filename}, entries[..i + 1])
  {
    var e := entries[i];
    AddName(names, entries[..i], e);
    assert entries[..i] + [e] == entries[..i + 1];
    assert forall j :: 0 <= j < i ==> SafeEntry(entries[..i][j]);
  }

  ghost predicate NamesAre(names: set<string>, entries: seq<Entry>) {
    forall n :: n in names <==> HasEntry(entries, n)
  }

  lemma AddName(names: set<string>, entries: seq<Entry>, e: Entry)
    requires NamesAre(names, entries) && DistinctNames(entries) && e.filename !in names
    ensures NamesAre(names + {e.filename}, entries + [e]) && DistinctNames(entries + [e])
  {
    forall n ensures HasEntry(entries + [e], n) <==> HasEntry(entries, n) || n == e.filename {
      if n == e.filename {
        assert (entries + [e])[|entries|].filename == n;
      }
      if HasEntry(entries, n) {
        var j :| 0 <= j < |entries| && entries[j].filename == n;
        assert (entries + [e])[j].filename == n;
      }
    }
    forall j | 0 <= j < |entries| ensures entries[j].filename != e.filename {
      assert HasEntry(entries, entries[j].filename);
    }
  }

  /** Every entry the reader accepts is written strictly below the destination, as the file
  system itself would resolve the entry's name. */
  lemma AcceptedStaysBelow(entries: seq<Entry>, destination: Name, e: Entry)
    requires Accepted(entries) && e in entries
    ensures Resolve(destination, Split(e.filename)) == destination + Parts(e.filename)
    ensures destination < Resolve(destination, Split(e.filename))
    ensures Parts(e.filename)[0] in {"manifest.json", "database.sqlite", "objects", "indexes"}
  {
    var i :| 0 <= i < |entries| && entries[i] == e;
    ResolveWithoutParents(destination, Split(e.filename));
  }

  function Targets(entries: seq<Entry>): seq<(Name, Bytes)> {
    seq(|entries|, i requires 0 <= i < |entries| => (Parts(entries[i].filename), entries[i].content))
  }

  /** A file cannot be created below another file. */
  predicate Clash(members: seq<(Name, Bytes)>) {
    exists i, j :: 0 <= i < |members| && 0 <= j < |members| && members[i].0 < members[j].0
  }

  function ReadEntry(entries: seq<Entry>, filename: string): Bytes
    requires HasEntry(entries, filename)
  {
    if entries[0].filename == filename then entries[0].content
    else
      assert HasEntry(entries[1..], filename) by {
        var i :| 0 <= i < |entries| && entries[i].filename == filename;
        assert entries[1..][i - 1].filename == filename;
      }
      ReadEntry(entries[1..], filename)
  }

  ghost function ExtractPayload(codec: ManifestCodec, entries: seq<Entry>)
      : Result<(Manifest, map<Name, Bytes>), ArchiveError>
  {
    if !Accepted(entries) then Err(ValidationAnswer(entries).error)
    else match codec.decode(ReadEntry(entries, MANIFEST[0]))
      case None => Err(InvalidManifest)
      case Some(m) =>
        var tree := Extracted(Targets(entries));
        if m.format != FORMAT || m.formatVersion != 1 || m.credentialsIncluded then Err(Unsupported)
        else if Clash(Targets(entries)) then Err(PathClash)
        else if DATABASE !in tree || m.databaseDigest != Some(Sha256(tree[DATABASE])) then Err(ChecksumMismatch)
        else Ok((m, tree))
  }

  lemma {:induction false} ReadsTheEntry(entries: seq<Entry>, i: nat)
    requires DistinctNames(entries) && i < |entries|
    ensures HasEntry(entries, entries[i].filename)
    ensures ReadEntry(entries, entries[i].filename) == entries[i].content
    decreases i
  {
    if i > 0 {
      assert entries[0].filename != entries[i].filename;
      ReadsTheEntry(entries[1..], i - 1);
    }
  }

  /** The manifest reads, is of this format, and holds no credentials. */
  ghost predicate Supports(codec: ManifestCodec, text: Bytes, m: Manifest) {
    && codec.decode(text) == Some(m)
    && m.format == "soulmate-portable-archive" && m.formatVersion == 1 && !m.credentialsIncluded
  }

  /** An archive, with its manifest at entry i, is extracted if and only if it is accepted, its manifest is
  supported, no entry lies below another one's path, and the manifest names the hash of the database
  that the extraction leaves; the result is that manifest and that tree. */
  lemma ExtractionSucceedsExactly(codec: ManifestCodec, entries: seq<Entry>, i: nat, m: Manifest,
                                  tree: map<Name, Bytes>)
    requires i < |entries| && entries[i].filename == "manifest.json"
    ensures ExtractPayload(codec, entries) == Ok((m, tree)) <==>
      && Accepted(entries) && Supports(codec, entries[i].content, m) && !Clash(Targets(entries))
      && tree == Extracted(Targets(entries))
      && DATABASE in tree && m.databaseDigest == Some(Sha256(tree[DATABASE]))
  {
    if Accepted(entries) { ReadsTheEntry(entries, i); }
  }

  /** Each refusal after validation, in the order of the checks. */
  lemma RefusedExactly(codec: ManifestCodec, entries: seq<Entry>, i: nat)
    requires Accepted(entries) && i < |entries| && entries[i].filename == "manifest.json"
    ensures var read := codec.decode(entries[i].content);
      && (ExtractPayload(codec, entries) == Err(InvalidManifest) <==> read.None?)
      && (ExtractPayload(codec, entries) == Err(Unsupported) <==>
            read.Some? && !Supports(codec, entries[i].content, read.value))
      && (ExtractPayload(codec, entries) == Err(PathClash) <==>
            read.Some? && Supports(codec, entries[i].content, read.value) && Clash(Targets(entries)))
  {
    ReadsTheEntry(entries, i);
  }

  // ---------- Writer ----------

  datatype Found = File(name: Name, content: Bytes) | Link(name: Name)

  /** What a walk over the archived directories of a real file system finds. */
  ghost predicate RealWalk(found: seq<Found>) {
    && (forall f :: f in found ==> IsTreeName(f.name) && forall p :: p in f.name ==> PlainPart(p))
    && (forall i, j :: 0 <= i < j < |found| ==> found[i].name != found[j].name)
    && (forall i, j :: 0 <= i < |found| && 0 <= j < |found| ==> !(found[i].name < found[j].name))
  }

  function EntryNames(found: seq<Found>): seq<string>
    requires forall f :: f in found ==> f.name != []
  {
    [DATABASE[0]] + seq(|found|, i requires 0 <= i < |found| => assert found[i] in found; Join(found[i].name))
  }

  function SizeOf(f: Found): nat {
    if f.File? then |f.content| else 0
  }

  function ContentSize(database: Bytes, found: seq<Found>): nat {
    if found == [] then |database| else ContentSize(database, found[..|found| - 1]) + SizeOf(found[|found| - 1])
  }

  function ManifestOf(database: Bytes, revision: string, names: seq<string>): Manifest {
    Manifest(FORMAT, 1, false, Some(Sha256(database)), Some(revision), names)
  }

  /** What the writer puts into the container, in order. */
  ghost predicate IsArchiveOf(entries: seq<Entry>, manifest: Bytes, database: Bytes, found: seq<Found>)
    requires forall f :: f in found ==> f.File? && f.name != []
  {
    && |entries| == |found| + 2
    && entries[0] == Entry(MANIFEST[0], false, manifest)
    && entries[1] == Entry(DATABASE[0], false, database)
    && (forall i :: 0 <= i < |found| ==>
          found[i] in found && entries[i + 2] == Entry(Join(found[i].name), false, found[i].content))
  }

  ghost predicate AllFiles(found: seq<Found>) {
    forall f :: f in found ==> f.File? && f.name != []
  }

  /** The first loop: names and sizes, refusing links. */
  method MeasureFiles(database: Bytes, found: seq<Found>) returns (ok: bool, names: seq<string>, total: nat)
    requires RealWalk(found)
    ensures ok <==> AllFiles(found)
    ensures ok ==> names == EntryNames(found) && total == ContentSize(database, found)
  {
    names := [DATABASE[0]];
    total := |database|;
    for i := 0 to |found|
      invariant AllFiles(found[..i])
      invariant names == EntryNames(found[..i]) && total == ContentSize(database, found[..i])
    {
      var f := found[i];
      assert f in found;
      if f.Link? {
        return false, names, total;
      }
      MeasureNext(database, found, i);
      names := names + [Join(f.name)];
      total := total + |f.content|;
    }
    assert found[..|found|] == found;
    return true, names, total;
  }

  lemma MeasureNext(database: Bytes, found: seq<Found>, i: nat)
    requires i < |found| && AllFiles(found[..i]) && found[i].File? && found[i].name != []
    ensures AllFiles(found[..i + 1])
    ensures EntryNames(found[..i + 1]) == EntryNames(found[..i]) + [Join(found[i].name)]
    ensures ContentSize(database, found[..i + 1]) == ContentSize(database, found[..i]) + |found[i].content|
  {
    assert found[..i + 1] == found[..i] + [found[i]];
    assert found[..i + 1][..i] == found[..i];
  }

  /** The writer, refusing links and counting everything but the manifest against the limit. */
  method ZipPayload(codec: ManifestCodec, database: Bytes, revision: string, found: seq<Found>)
      returns (r: Result<seq<Entry>, ArchiveError>)
    requires RealWalk(found)
    ensures r.Ok? <==>
      AllFiles(found) && |found| + 2 <= MAX_ARCHIVE_ENTRIES && ContentSize(database, found) <= MAX_ARCHIVE_SIZE
    ensures r.Ok? ==> IsArchiveOf(r.value, ManifestText(codec, database, revision, found), database, found)
    ensures r.Err? ==> r.error == if AllFiles(found) then ExceedsLimit else SymbolicLink
  {
    var ok, names, total := MeasureFiles(database, found);
    if !ok {
      return Err(SymbolicLink);
    }
    if |names| + 1 > MAX_ARCHIVE_ENTRIES || total > MAX_ARCHIVE_SIZE {
      return Err(ExceedsLimit);
    }
    var manifest := codec.encode(ManifestOf(database, revision, names));
    var entries := [Entry(MANIFEST[0], false, manifest), Entry(DATABASE[0], false, database)];
    for i := 0 to |found|
      invariant |entries| == i + 2
      invariant entries[0] == Entry(MANIFEST[0], false, manifest) && entries[1] == Entry(DATABASE[0], false, database)
      invariant forall j :: 0 <= j < i ==>
        found[j] in found && entries[j + 2] == Entry(Join(found[j].name), false, found[j].content)
    {
      assert found[i] in found;
      entries := entries + [Entry(Join(found[i].name), false, found[i].content)];
    }
    return Ok(entries);
  }

  function ManifestText(codec: ManifestCodec, database: Bytes, revision: string, found: seq<Found>): Bytes
    requires forall f :: f in found ==> f.name != []
  {
    codec.encode(ManifestOf(database, revision, EntryNames(found)))
  }

  // ---------- Agreement ----------

  lemma {:induction false} TotalSizeConcat(a: seq<Entry>, b: seq<Entry>)
    ensures TotalSize(a + b) == TotalSize(a) + TotalSize(b)
    decreases |b|
  {
    if b == [] {
      assert a + b == a;
    } else {
      assert (a + b)[..|a + b| - 1] == a + b[..|b| - 1];
      TotalSizeConcat(a, b[..|b| - 1]);
    }
  }

  lemma {:induction false} ArchiveSize(entries: seq<Entry>, manifest: Bytes, database: Bytes, found: seq<Found>)
    requires AllFiles(found) && IsArchiveOf(entries, manifest, database, found)
    ensures TotalSize(entries) == |manifest| + ContentSize(database, found)
    decreases |found|
  {
    if found == [] {
      assert entries == [entries[0]] + [entries[1]];
      TotalSizeConcat([entries[0]], [entries[1]]);
      assert TotalSize([entries[0]]) == |manifest|;
      assert TotalSize([entries[1]]) == |database|;
    } else {
      ArchiveSize(entries[..|entries| - 1], manifest, database, found[..|found| - 1]);
    }
  }

  lemma JoinInjective(a: Name, b: Name)
    requires a != [] && b != [] && (forall p :: p in a ==> PlainPart(p)) && (forall p :: p in b ==> PlainPart(p))
    ensures Join(a) == Join(b) ==> a == b
  {
    PartsOfJoin(a);
    PartsOfJoin(b);
  }

  lemma {:induction false} JoinStarts(a: Name)
    requires IsTreeName(a) && forall p :: p in a ==> PlainPart(p)
    ensures SafeName(Join(a)) && Join(a) != MANIFEST[0] && Join(a) != DATABASE[0]
  {
    PartsOfJoin(a);
    assert PlainPart(a[0]) && PlainPart(a[|a| - 1]);
    LastOfJoin(a);
    RootsAreNormal();
  }

  lemma {:induction false} LastOfJoin(a: Name)
    requires a != [] && forall p :: p in a ==> PlainPart(p)
    ensures Join(a) != "" && Join(a)[|Join(a)| - 1] != '/' && Join(a)[0] != '/'
  {
    assert PlainPart(a[0]) && PlainPart(a[|a| - 1]);
    if |a| > 1 {
      LastOfJoin(a[1..]);
    }
  }

  lemma RootsAreNormal()
    ensures SafeName(MANIFEST[0]) && SafeName(DATABASE[0])
    ensures Parts(MANIFEST[0]) == MANIFEST && Parts(DATABASE[0]) == DATABASE
  {
    assert PlainPart(MANIFEST[0]) && PlainPart(DATABASE[0]);
    PartsOfJoin(MANIFEST);
    PartsOfJoin(DATABASE);
  }

  lemma WrittenEntrySafe(entries: seq<Entry>, manifest: Bytes, database: Bytes, found: seq<Found>, i: nat)
    requires RealWalk(found) && AllFiles(found) && IsArchiveOf(entries, manifest, database, found) && i < |entries|
    ensures SafeEntry(entries[i])
    ensures i >= 2 ==> found[i - 2] in found && entries[i].filename != MANIFEST[0] && entries[i].filename != DATABASE[0]
  {
    if i < 2 {
      RootsAreNormal();
    } else {
      assert found[i - 2] in found;
      JoinStarts(found[i - 2].name);
    }
  }

  lemma WrittenAreSafe(entries: seq<Entry>, manifest: Bytes, database: Bytes, found: seq<Found>)
    requires RealWalk(found) && AllFiles(found) && IsArchiveOf(entries, manifest, database, found)
    ensures AllSafe(entries)
  {
    forall i | 0 <= i < |entries| ensures SafeEntry(entries[i]) {
      WrittenEntrySafe(entries, manifest, database, found, i);
    }
  }

  lemma WrittenNamesDistinct(entries: seq<Entry>, manifest: Bytes, database: Bytes, found: seq<Found>)
    requires RealWalk(found) && AllFiles(found) && IsArchiveOf(entries, manifest, database, found)
    ensures DistinctNames(entries)
  {
    forall i, j | 0 <= i < j < |entries| ensures entries[i].filename != entries[j].filename {
      WrittenNamesDiffer(entries, manifest, database, found, i, j);
    }
  }

  lemma WrittenNamesDiffer(entries: seq<Entry>, manifest: Bytes, database: Bytes, found: seq<Found>, i: nat, j: nat)
    requires RealWalk(found) && AllFiles(found) && IsArchiveOf(entries, manifest, database, found)
    requires i < j < |entries|
    ensures entries[i].filename != entries[j].filename
  {
    if j < 2 {
      RootsDiffer(entries, manifest, database, found);
    } else if i < 2 {
      WrittenNotRoot(entries, manifest, database, found, j);
    } else {
      FoundNamesDiffer(found, i - 2, j - 2);
    }
  }

  lemma RootsDiffer(entries: seq<Entry>, manifest: Bytes, database: Bytes, found: seq<Found>)
    requires AllFiles(found) && IsArchiveOf(entries, manifest, database, found)
    ensures entries[0].filename != entries[1].filename
  {
    assert |entries[0].filename| != |entries[1].filename|;
  }

  lemma WrittenNotRoot(entries: seq<Entry>, manifest: Bytes, database: Bytes, found: seq<Found>, j: nat)
    requires RealWalk(found) && AllFiles(found) && IsArchiveOf(entries, manifest, database, found) && 2 <= j < |entries|
    ensures entries[0].filename != entries[j].filename && entries[1].filename != entries[j].filename
  {
    WrittenEntrySafe(entries, manifest, database, found, j);
  }

  lemma FoundNamesDiffer(found: seq<Found>, i: nat, j: nat)
    requires RealWalk(found) && i < j < |found| && found[i].name != [] && found[j].name != []
    ensures Join(found[i].name) != Join(found[j].name)
  {
    assert found[i] in found && found[j] in found;
    JoinInjective(found[i].name, found[j].name);
  }

  /** The reader accepts what the writer wrote if and only if the manifest, which the writer
  does not count, still fits the limit. */
  lemma WriterAcceptedExactly(entries: seq<Entry>, manifest: Bytes, database: Bytes, found: seq<Found>)
    requires RealWalk(found) && AllFiles(found) && IsArchiveOf(entries, manifest, database, found)
    requires |found| + 2 <= MAX_ARCHIVE_ENTRIES && ContentSize(database, found) <= MAX_ARCHIVE_SIZE
    ensures Accepted(entries) <==> |manifest| + ContentSize(database, found) <= MAX_ARCHIVE_SIZE
  {
    ArchiveSize(entries, manifest, database, found);
    WrittenAreSafe(entries, manifest, database, found);
    WrittenNamesDistinct(entries, manifest, database, found);
    assert entries[0].filename == MANIFEST[0] && entries[1].filename == DATABASE[0];
  }

  /** Such archives exist: with a database of exactly the limit and an empty tree, every condition of
  the writer holds, and the reader refuses what it wrote. */
  lemma FullDatabaseIsRefused(codec: ManifestCodec, database: Bytes, revision: string)
    requires |database| == MAX_ARCHIVE_SIZE && ManifestText(codec, database, revision, []) != []
    ensures var manifest := ManifestText(codec, database, revision, []);
      var entries := [Entry(MANIFEST[0], false, manifest), Entry(DATABASE[0], false, database)];
      && RealWalk([]) && AllFiles([]) && ContentSize(database, []) <= MAX_ARCHIVE_SIZE
      && IsArchiveOf(entries, manifest, database, [])
      && ExtractPayload(codec, entries) == Err(TooLarge)
  {
    var manifest := ManifestText(codec, database, revision, []);
    var entries := [Entry(MANIFEST[0], false, manifest), Entry(DATABASE[0], false, database)];
    WriterRefusedAsTooLarge(codec, entries, manifest, database, []);
  }

  lemma WriterRefusedAsTooLarge(codec: ManifestCodec, entries: seq<Entry>, manifest: Bytes, database: Bytes,
                                found: seq<Found>)
    requires RealWalk(found) && AllFiles(found) && IsArchiveOf(entries, manifest, database, found)
    requires |found| + 2 <= MAX_ARCHIVE_ENTRIES && |manifest| + ContentSize(database, found) > MAX_ARCHIVE_SIZE
    ensures ExtractPayload(codec, entries) == Err(TooLarge)
  {
    ArchiveSize(entries, manifest, database, found);
  }

  /** The tree the archive was made from. */
  ghost predicate HoldsExactly(tree: map<Name, Bytes>, manifest: Bytes, database: Bytes, found: seq<Found>)
    requires AllFiles(found)
  {
    && Lookup(tree, DATABASE) == Some(database)
    && Lookup(tree, MANIFEST) == Some(manifest)
    && (forall f :: f in found ==> Lookup(tree, f.name) == Some(f.content))
    && (forall n :: n in tree ==> n == DATABASE || n == MANIFEST || exists f :: f in found && f.name == n)
  }

  lemma WrittenTargets(entries: seq<Entry>, manifest: Bytes, database: Bytes, found: seq<Found>)
    requires RealWalk(found) && AllFiles(found) && IsArchiveOf(entries, manifest, database, found)
    ensures var members := Targets(entries);
      && members[0] == (MANIFEST, manifest) && members[1] == (DATABASE, database)
      && (forall i :: 0 <= i < |found| ==> members[i + 2] == (found[i].name, found[i].content))
  {
    RootsAreNormal();
    forall i | 0 <= i < |found| ensures Targets(entries)[i + 2] == (found[i].name, found[i].content) {
      assert found[i] in found;
      PartsOfJoin(found[i].name);
    }
  }

  lemma MembersAreApart(members: seq<(Name, Bytes)>, manifest: Bytes, database: Bytes, found: seq<Found>)
    requires RealWalk(found) && |members| == |found| + 2
    requires members[0] == (MANIFEST, manifest) && members[1] == (DATABASE, database)
    requires forall k :: 0 <= k < |found| ==> members[k + 2].0 == found[k].name
    ensures !Clash(members)
    ensures forall i, j :: 0 <= i < j < |members| ==> members[i].0 != members[j].0
  {
    forall i, j | 0 <= i < |members| && 0 <= j < |members| && i != j
      ensures members[i].0 != members[j].0 && !(members[i].0 < members[j].0)
    {
      MembersApart(members, manifest, database, found, i, j);
    }
  }

  /** Members with different names extract to exactly themselves. */
  lemma ExtractedExactly(members: seq<(Name, Bytes)>)
    requires forall i, j :: 0 <= i < j < |members| ==> members[i].0 != members[j].0
    ensures forall i :: 0 <= i < |members| ==> Lookup(Extracted(members), members[i].0) == Some(members[i].1)
    ensures forall n :: n in Extracted(members) ==> exists i :: 0 <= i < |members| && members[i].0 == n
  {
    forall i | 0 <= i < |members| ensures Lookup(Extracted(members), members[i].0) == Some(members[i].1) {
      ExtractedAt(members, i);
    }
    forall n | n in Extracted(members) ensures exists i :: 0 <= i < |members| && members[i].0 == n {
      ExtractedOnly(members, n);
    }
  }

  /** Members with the names of a walk below two fixed files. */
  lemma ExtractedHoldsExactly(members: seq<(Name, Bytes)>, manifest: Bytes, database: Bytes, found: seq<Found>)
    requires RealWalk(found) && AllFiles(found) && |members| == |found| + 2
    requires members[0] == (MANIFEST, manifest) && members[1] == (DATABASE, database)
    requires forall i :: 0 <= i < |found| ==> members[i + 2] == (found[i].name, found[i].content)
    ensures HoldsExactly(Extracted(members), manifest, database, found)
    ensures !Clash(members)
  {
    MembersAreApart(members, manifest, database, found);
    ExtractedExactly(members);
    TreeHolds(members, Extracted(members), manifest, database, found);
  }

  lemma TreeHolds(members: seq<(Name, Bytes)>, tree: map<Name, Bytes>, manifest: Bytes, database: Bytes,
                  found: seq<Found>)
    requires AllFiles(found) && |members| == |found| + 2
    requires members[0] == (MANIFEST, manifest) && members[1] == (DATABASE, database)
    requires forall i :: 0 <= i < |found| ==> members[i + 2] == (found[i].name, found[i].content)
    requires forall i :: 0 <= i < |members| ==> Lookup(tree, members[i].0) == Some(members[i].1)
    requires forall n :: n in tree ==> exists i :: 0 <= i < |members| && members[i].0 == n
    ensures HoldsExactly(tree, manifest, database, found)
  {
    forall f | f in found ensures Lookup(tree, f.name) == Some(f.content) {
      var i :| 0 <= i < |found| && found[i] == f;
      assert Lookup(tree, members[i + 2].0) == Some(members[i + 2].1);
    }
    forall n | n in tree ensures n == DATABASE || n == MANIFEST || exists f :: f in found && f.name == n {
      var i :| 0 <= i < |members| && members[i].0 == n;
      if i >= 2 {
        assert found[i - 2] in found && members[i - 2 + 2].0 == found[i - 2].name;
      }
    }
  }

  lemma MembersApart(members: seq<(Name, Bytes)>, manifest: Bytes, database: Bytes, found: seq<Found>, i: nat, j: nat)
    requires RealWalk(found) && |members| == |found| + 2
    requires members[0] == (MANIFEST, manifest) && members[1] == (DATABASE, database)
    requires forall k :: 0 <= k < |found| ==> members[k + 2].0 == found[k].name
    requires i < |members| && j < |members| && i != j
    ensures members[i].0 != members[j].0 && !(members[i].0 < members[j].0)
  {
    assert |MANIFEST[0]| != |DATABASE[0]|;
    if i >= 2 {
      assert members[i - 2 + 2].0 == found[i - 2].name && found[i - 2] in found;
    }
    if j >= 2 {
      assert members[j - 2 + 2].0 == found[j - 2].name && found[j - 2] in found;
    }
    NotBelowRoots(members[i].0, members[j].0);
  }

  lemma NotBelowRoots(a: Name, b: Name)
    ensures (a == MANIFEST || a == DATABASE) && IsTreeName(b) ==> !(a < b) && a != b
    ensures IsTreeName(a) && (b == MANIFEST || b == DATABASE) ==> !(a < b) && a != b
    ensures (a == MANIFEST || a == DATABASE) && (b == MANIFEST || b == DATABASE) ==> !(a < b)
  {
    if (a == MANIFEST || a == DATABASE) && IsTreeName(b) {
      assert |a[0]| > |b[0]|;
    }
  }

  /** Round trip: an accepted archive of the writer extracts to the same database and file tree. */
  lemma WriterReaderRoundTrip(codec: ManifestCodec, entries: seq<Entry>, database: Bytes, revision: string,
                              found: seq<Found>)
    requires RoundTrips(codec) && RealWalk(found) && AllFiles(found)
    requires IsArchiveOf(entries, ManifestText(codec, database, revision, found), database, found) && Accepted(entries)
    ensures var r := ExtractPayload(codec, entries);
      && r.Ok? && r.value.0 == ManifestOf(database, revision, EntryNames(found))
      && HoldsExactly(r.value.1, ManifestText(codec, database, revision, found), database, found)
  {
    var manifest := ManifestText(codec, database, revision, found);
    WrittenTargets(entries, manifest, database, found);
    ExtractedHoldsExactly(Targets(entries), manifest, database, found);
    assert ReadEntry(entries, MANIFEST[0]) == manifest;
    var tree := Extracted(Targets(entries));
    assert Lookup(tree, DATABASE) == Some(database);
  }
}
