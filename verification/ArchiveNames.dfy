/** Entry names that differ as text but not as paths: which entries of an accepted archive have the same
target, and when the extraction loses one. */
module ArchiveNames {
  import opened Prelude
  import opened ArchivePaths
  import opened Archive

  lemma {:induction false} SplitHasNoSlash(s: string)
    ensures forall p :: p in Split(s) ==> '/' !in p
    decreases |s|
  {
    if '/' in s {
      var k := FirstSlash(s);
      SplitHasNoSlash(s[k + 1..]);
      assert '/' !in s[..k];
    }
  }

  lemma {:induction false} DropEmptyLeaves(parts: seq<string>)
    ensures forall p :: p in DropEmpty(parts) ==> p in parts && p != "" && p != "."
  {
    if parts != [] { DropEmptyLeaves(parts[1..]); }
  }

  lemma SafePartsArePlain(filename: string)
    requires SafeName(filename)
    ensures Parts(filename) != [] && forall p :: p in Parts(filename) ==> PlainPart(p)
  {
    SplitHasNoSlash(filename);
    DropEmptyLeaves(Split(filename));
  }

  /** How the writer would spell the path of an entry. */
  function NormalName(filename: string): string {
    if Parts(filename) == [] then "" else Join(Parts(filename))
  }

  lemma SameTargetExactly(entries: seq<Entry>, i: nat, j: nat)
    requires Accepted(entries) && i < |entries| && j < |entries|
    ensures Targets(entries)[i].0 == Targets(entries)[j].0
      <==> NormalName(entries[i].filename) == NormalName(entries[j].filename)
  {
    SafePartsArePlain(entries[i].filename);
    SafePartsArePlain(entries[j].filename);
    JoinInjective(Parts(entries[i].filename), Parts(entries[j].filename));
  }

  ghost predicate DistinctTargets(entries: seq<Entry>) {
    forall i, j :: 0 <= i < j < |entries| ==> Targets(entries)[i].0 != Targets(entries)[j].0
  }

  predicate DistinctNormalNames(entries: seq<Entry>) {
    forall i, j :: 0 <= i < j < |entries| ==> NormalName(entries[i].filename) != NormalName(entries[j].filename)
  }

  /** The entries of an accepted archive have pairwise different targets if and only if their normal
  spellings differ pairwise as text. */
  lemma DistinctTargetsExactly(entries: seq<Entry>)
    requires Accepted(entries)
    ensures DistinctTargets(entries) <==> DistinctNormalNames(entries)
  {
    forall i, j | 0 <= i < j < |entries|
      ensures Targets(entries)[i].0 != Targets(entries)[j].0
        <==> NormalName(entries[i].filename) != NormalName(entries[j].filename)
    {
      SameTargetExactly(entries, i, j);
    }
  }

  /** In particular entries named as the writer names them have pairwise different targets. */
  lemma NormalNamesHaveDistinctTargets(entries: seq<Entry>, i: nat, j: nat)
    requires Accepted(entries) && i < j < |entries|
    requires forall e :: e in entries ==> Parts(e.filename) != [] && e.filename == Join(Parts(e.filename))
    ensures Targets(entries)[i].0 != Targets(entries)[j].0
  {
    assert entries[i] in entries && entries[j] in entries;
    SameTargetExactly(entries, i, j);
  }

  predicate AgreeAt(members: seq<(Name, Bytes)>, i: nat, j: nat)
    requires i < |members| && j < |members|
  {
    members[i].0 == members[j].0 ==> members[i].1 == members[j].1
  }

  ghost predicate SameNameSameContent(members: seq<(Name, Bytes)>) {
    forall i, j :: 0 <= i < |members| && 0 <= j < |members| ==> AgreeAt(members, i, j)
  }

  lemma {:induction false} ExtractedKeeps(members: seq<(Name, Bytes)>, i: nat)
    requires SameNameSameContent(members) && i < |members|
    ensures Lookup(Extracted(members), members[i].0) == Some(members[i].1)
    decreases |members|
  {
    var last := |members| - 1;
    assert AgreeAt(members, i, last);
    if members[i].0 != members[last].0 {
      forall j, k | 0 <= j < last && 0 <= k < last ensures AgreeAt(members[..last], j, k) {
        assert AgreeAt(members, j, k);
      }
      ExtractedKeeps(members[..last], i);
    }
  }

  /** The extracted tree holds the content of this entry at its target. */
  ghost predicate Kept(entries: seq<Entry>, i: nat)
    requires i < |entries|
  {
    Lookup(Extracted(Targets(entries)), Parts(entries[i].filename)) == Some(entries[i].content)
  }

  predicate SpellingsAgree(entries: seq<Entry>, i: nat, j: nat)
    requires i < |entries| && j < |entries|
  {
    NormalName(entries[i].filename) == NormalName(entries[j].filename) ==> entries[i].content == entries[j].content
  }

  predicate SameSpellingSameContent(entries: seq<Entry>) {
    forall i, j :: 0 <= i < |entries| && 0 <= j < |entries| ==> SpellingsAgree(entries, i, j)
  }

  lemma AgreeEither(entries: seq<Entry>)
    requires Accepted(entries)
    ensures SameNameSameContent(Targets(entries)) <==> SameSpellingSameContent(entries)
  {
    forall i, j | 0 <= i < |entries| && 0 <= j < |entries|
      ensures AgreeAt(Targets(entries), i, j) <==> SpellingsAgree(entries, i, j)
    {
      SameTargetExactly(entries, i, j);
    }
  }

  /** So extracting an accepted archive keeps the content of every entry if and only if entries of one
  normal spelling have the same content. */
  lemma ExtractionKeepsAllExactly(entries: seq<Entry>)
    requires Accepted(entries)
    ensures (forall i :: 0 <= i < |entries| ==> Kept(entries, i)) <==> SameSpellingSameContent(entries)
  {
    AgreeEither(entries);
    if SameSpellingSameContent(entries) {
      forall i | 0 <= i < |entries| ensures Kept(entries, i) {
        ExtractedKeeps(Targets(entries), i);
      }
    }
    if forall i :: 0 <= i < |entries| ==> Kept(entries, i) {
      forall i, j | 0 <= i < |entries| && 0 <= j < |entries| ensures SpellingsAgree(entries, i, j) {
        SameTargetExactly(entries, i, j);
        assert Kept(entries, i) && Kept(entries, j);
      }
    }
  }

  const DOTTED_DATABASE: string := "." + "/" + DATABASE[0]

  lemma DottedDatabase()
    ensures SafeName(DOTTED_DATABASE) && Parts(DOTTED_DATABASE) == DATABASE
    ensures DOTTED_DATABASE != DATABASE[0] && DOTTED_DATABASE != MANIFEST[0]
  {
    RootsAreNormal();
    SplitAfterPart(".", DATABASE[0]);
    assert Parts(DOTTED_DATABASE) == DropEmpty(["."] + Split(DATABASE[0]));
    assert (["."] + Split(DATABASE[0]))[1..] == Split(DATABASE[0]);
    assert DOTTED_DATABASE[0] == '.';
    assert DOTTED_DATABASE[|DOTTED_DATABASE| - 1] == DATABASE[0][|DATABASE[0]| - 1];
  }

  function DottedArchive(a: Bytes, b: Bytes, manifest: Bytes): seq<Entry> {
    [Entry(MANIFEST[0], false, manifest), Entry(DATABASE[0], false, a), Entry(DOTTED_DATABASE, false, b)]
  }

  lemma DottedArchiveSafe(a: Bytes, b: Bytes, manifest: Bytes)
    ensures AllSafe(DottedArchive(a, b, manifest))
  {
    RootsAreNormal();
    DottedDatabase();
  }

  lemma DottedArchiveDistinct(a: Bytes, b: Bytes, manifest: Bytes)
    ensures DistinctNames(DottedArchive(a, b, manifest))
  {
    assert |MANIFEST[0]| < |DATABASE[0]| < |DOTTED_DATABASE|;
  }

  lemma DottedArchiveAccepted(a: Bytes, b: Bytes, manifest: Bytes)
    requires |a| + |b| + |manifest| <= MAX_ARCHIVE_SIZE
    ensures Accepted(DottedArchive(a, b, manifest))
  {
    var entries := DottedArchive(a, b, manifest);
    DottedArchiveSafe(a, b, manifest);
    DottedArchiveDistinct(a, b, manifest);
    ArchiveSizeOfThree(entries);
    assert entries[0].filename == MANIFEST[0] && entries[1].filename == DATABASE[0];
  }

  /** For other archives the reader compares names only as text: this one is accepted although
  two of its entries have the same target, and the later content wins. */
  lemma SameTargetAccepted(a: Bytes, b: Bytes, manifest: Bytes)
    requires |a| + |b| + |manifest| <= MAX_ARCHIVE_SIZE
    ensures var entries := DottedArchive(a, b, manifest);
      && Accepted(entries)
      && Targets(entries)[1].0 == Targets(entries)[2].0 == DATABASE
      && Lookup(Extracted(Targets(entries)), DATABASE) == Some(b)
  {
    DottedArchiveAccepted(a, b, manifest);
    RootsAreNormal();
    DottedDatabase();
    ExtractedAt(Targets(DottedArchive(a, b, manifest)), 2);
  }

  lemma ArchiveSizeOfThree(entries: seq<Entry>)
    requires |entries| == 3
    ensures TotalSize(entries) == |entries[0].content| + |entries[1].content| + |entries[2].content|
  {
    assert entries[..2][..1] == entries[..1] && entries[..1][..0] == [];
    assert TotalSize(entries[..1]) == |entries[0].content|;
    assert TotalSize(entries[..2]) == |entries[0].content| + |entries[1].content|;
  }
}
