/** Extracted option features (decisions.py): the check on the returned indices, and what each option
of the new decision receives. */
module OptionFeatures {
  import opened Prelude

  type Features = map<string, real>

  /** One entry the model provider returned. */
  datatype Extracted = Extracted(index: int, features: Features, confidence: real)

  /** One option as the owner gave it. */
  datatype OptionInput = OptionInput(features: Features, confidence: Option<real>)

  datatype Described = Described(features: Features, confidence: real)

  /** The dictionary by index: a later entry replaces an earlier one of the same index. */
  function ByIndex(entries: seq<Extracted>): map<int, Extracted> {
    if entries == [] then map[]
    else
      var last := entries[|entries| - 1];
      ByIndex(entries[..|entries| - 1])[last.index := last]
  }

  /** The set of the indices below n. */
  function Indices(n: nat): (r: set<int>)
    ensures |r| == n && forall i :: i in r <==> 0 <= i < n
  {
    if n == 0 then {} else Indices(n - 1) + {n - 1}
  }

  /** Every option exactly once, as the program checks it. */
  predicate ExactlyOnce(entries: seq<Extracted>, n: nat) {
    |entries| == n && ByIndex(entries).Keys == Indices(n)
  }

  predicate Missing(options: seq<OptionInput>) {
    exists i :: 0 <= i < |options| && options[i].features == map[]
  }

  function Describe(o: OptionInput, extracted: map<int, Extracted>, index: nat): Described
    requires o.features == map[] ==> index in extracted
  {
    Described(
      if o.features != map[] then o.features else extracted[index].features,
      if o.confidence.Some? then o.confidence.value
      else if index in extracted then extracted[index].confidence
      else 1.0)
  }

  /** What asking the model provider comes to. */
  datatype Reply = NoProvider | ProviderFails | Extraction(entries: seq<Extracted>)

  datatype CreateError = ProviderRequired | ProviderFailed | InvalidEntry | NotExactlyOnce

  predicate Blank(key: string) {
    forall i :: 0 <= i < |key| ==> key[i] == ' ' || '\t' <= key[i] <= '\r' || '\U{1C}' <= key[i] <= '\U{1F}'
  }

  /** The checks on each entry by itself. */
  predicate ValidEntry(e: Extracted) {
    && e.index >= 0 && e.features != map[] && 0.0 <= e.confidence <= 1.0
    && forall key <- e.features :: !Blank(key) && -1.0 <= e.features[key] <= 1.0
  }

  predicate AllValid(entries: seq<Extracted>) {
    forall i :: 0 <= i < |entries| ==> ValidEntry(entries[i])
  }

  function Extract(reply: Reply, n: nat): (r: Result<map<int, Extracted>, CreateError>)
    ensures r.Ok? ==> r.value.Keys == Indices(n)
  {
    match reply
    case NoProvider => Err(ProviderRequired)
    case ProviderFails => Err(ProviderFailed)
    case Extraction(entries) =>
      if !AllValid(entries) then Err(InvalidEntry)
      else if !ExactlyOnce(entries, n) then Err(NotExactlyOnce)
      else Ok(ByIndex(entries))
  }

  function DescribeAll(options: seq<OptionInput>, extracted: map<int, Extracted>): seq<Described>
    requires forall i :: 0 <= i < |options| && options[i].features == map[] ==> i in extracted
  {
    seq(|options|, i requires 0 <= i < |options| => Describe(options[i], extracted, i))
  }

  /** Nothing is extracted unless some option lacks features; a failed extraction fails the request. */
  function Create(options: seq<OptionInput>, reply: Reply): Result<seq<Described>, CreateError> {
    if !Missing(options) then Ok(DescribeAll(options, map[]))
    else match Extract(reply, |options|)
      case Err(error) => Err(error)
      case Ok(extracted) => Ok(DescribeAll(options, extracted))
  }
}

module OptionFeaturesProofs {
  import opened Prelude
  import opened OptionFeatures

  predicate DistinctIndices(entries: seq<Extracted>) {
    forall i, j :: 0 <= i < j < |entries| ==> entries[i].index != entries[j].index
  }

  predicate Has(entries: seq<Extracted>, index: int) {
    exists k :: 0 <= k < |entries| && entries[k].index == index
  }

  lemma {:induction false} DictionaryKeys(entries: seq<Extracted>)
    ensures forall index :: index in ByIndex(entries) <==> Has(entries, index)
    decreases |entries|
  {
    if entries != [] {
      var init, last := entries[..|entries| - 1], entries[|entries| - 1];
      DictionaryKeys(init);
      forall index ensures Has(entries, index) <==> Has(init, index) || index == last.index {
        if Has(init, index) {
          var k :| 0 <= k < |init| && init[k].index == index;
          assert entries[k].index == index;
        }
        if Has(entries, index) && index != last.index {
          var k :| 0 <= k < |entries| && entries[k].index == index;
          assert init[k].index == index;
        }
      }
    }
  }

  lemma DistinctExtends(entries: seq<Extracted>)
    requires entries != []
    ensures DistinctIndices(entries) <==>
      DistinctIndices(entries[..|entries| - 1]) && !Has(entries[..|entries| - 1], entries[|entries| - 1].index)
  {
    var init, last := entries[..|entries| - 1], entries[|entries| - 1];
    assert forall k :: 0 <= k < |init| ==> init[k] == entries[k];
    if DistinctIndices(init) && !Has(init, last.index) {
      forall i, j | 0 <= i < j < |entries| ensures entries[i].index != entries[j].index {
        if j == |init| { assert init[i].index != last.index; }
      }
    }
  }

  /** The dictionary has one key per entry exactly when no index repeats. */
  lemma {:induction false} DictionarySize(entries: seq<Extracted>)
    ensures |ByIndex(entries)| <= |entries|
    ensures |ByIndex(entries)| == |entries| <==> DistinctIndices(entries)
    decreases |entries|
  {
    if entries != [] {
      var init, last := entries[..|entries| - 1], entries[|entries| - 1];
      DictionarySize(init);
      DictionaryKeys(init);
      DistinctExtends(entries);
      var m := ByIndex(init);
      assert m[last.index := last].Keys == m.Keys + {last.index};
      assert |m| == |m.Keys| && |m[last.index := last]| == |m[last.index := last].Keys|;
    }
  }

  /** Then no entry is lost in it. */
  lemma {:induction false} NoEntryLost(entries: seq<Extracted>, k: nat)
    requires DistinctIndices(entries) && k < |entries|
    ensures entries[k].index in ByIndex(entries) && ByIndex(entries)[entries[k].index] == entries[k]
    decreases |entries|
  {
    if k < |entries| - 1 { NoEntryLost(entries[..|entries| - 1], k); }
  }

  /** The check accepts a list exactly when its indices are a permutation of the option indices: as
  many entries as options, none repeated, all in range. */
  lemma ExactlyOnceIsPermutation(entries: seq<Extracted>, n: nat)
    ensures ExactlyOnce(entries, n) <==>
      |entries| == n && DistinctIndices(entries) && (forall k :: 0 <= k < n ==> 0 <= entries[k].index < n)
  {
    DictionarySize(entries);
    var keys := ByIndex(entries).Keys;
    assert |keys| == |ByIndex(entries)|;
    if |entries| == n && DistinctIndices(entries) && (forall k :: 0 <= k < n ==> 0 <= entries[k].index < n) {
      forall index | index in keys ensures index in Indices(n) {
        DictionaryKeys(entries);
        var k :| 0 <= k < |entries| && entries[k].index == index;
      }
      FullSubset(keys, Indices(n));
    }
    if ExactlyOnce(entries, n) {
      forall k | 0 <= k < n ensures 0 <= entries[k].index < n {
        NoEntryLost(entries, k);
      }
    }
  }

  lemma FullSubset(a: set<int>, b: set<int>)
    requires a <= b && |a| == |b|
    ensures a == b
  {
    assert b == a + (b - a);
    assert |b| == |a| + |b - a|;
  }

  /** Every option without features of its own receives those of the one entry returned for it, and
  no entry is lost; an option with features keeps them. */
  lemma EachOptionItsOwn(options: seq<OptionInput>, entries: seq<Extracted>, k: nat)
    requires Missing(options) && Create(options, Extraction(entries)).Ok? && k < |entries|
    ensures var i := entries[k].index; var described := Create(options, Extraction(entries)).value;
      && |described| == |options| == |entries| && 0 <= i < |options|
      && described[i].features == (if options[i].features == map[] then entries[k].features else options[i].features)
      && described[i].confidence ==
        (if options[i].confidence.Some? then options[i].confidence.value else entries[k].confidence)
  {
    ExactlyOnceIsPermutation(entries, |options|);
    NoEntryLost(entries, k);
  }

  /** And there is such an entry for every option. */
  lemma EveryOptionHasAnEntry(options: seq<OptionInput>, entries: seq<Extracted>, i: nat)
    requires Missing(options) && Create(options, Extraction(entries)).Ok? && i < |options|
    ensures Has(entries, i)
  {
    DictionaryKeys(entries);
    assert i in Indices(|options|);
  }

  /** When a decision is created, why it is not, and what the options receive when nothing had to be
  extracted: then no provider is needed. */
  lemma CreatedExactly(options: seq<OptionInput>, reply: Reply)
    ensures Create(options, reply).Ok? <==>
      (Missing(options) ==>
        && reply.Extraction? && AllValid(reply.entries)
        && |reply.entries| == |options| && DistinctIndices(reply.entries)
        && forall k :: 0 <= k < |reply.entries| ==> 0 <= reply.entries[k].index < |options|)
    ensures Create(options, reply) == Err(ProviderRequired) <==> Missing(options) && reply.NoProvider?
    ensures Create(options, reply) == Err(InvalidEntry) <==>
      Missing(options) && reply.Extraction? && !AllValid(reply.entries)
    ensures !Missing(options) ==>
      forall i :: 0 <= i < |options| ==>
        var d := Create(options, reply).value;
        |d| == |options| && d[i].features == options[i].features
        && d[i].confidence == (if options[i].confidence.Some? then options[i].confidence.value else 1.0)
  {
    if reply.Extraction? { ExactlyOnceIsPermutation(reply.entries, |options|); }
  }

  /** Every option of a created decision has features: none is stored that could not be compared. */
  lemma CreatedHaveFeatures(options: seq<OptionInput>, reply: Reply, i: nat)
    requires Create(options, reply).Ok? && i < |options|
    ensures var d := Create(options, reply).value; |d| == |options| && d[i].features != map[]
  {
    if options[i].features == map[] {
      EveryOptionHasAnEntry(options, reply.entries, i);
      var k :| 0 <= k < |reply.entries| && reply.entries[k].index == i;
      EachOptionItsOwn(options, reply.entries, k);
      assert ValidEntry(reply.entries[k]);
    }
  }

  /** A feature name with a character that is no white space, and a value between -1 and 1. */
  predicate GoodFeature(key: string, value: real) {
    (exists i :: 0 <= i < |key| && !Space(key[i])) && -1.0 <= value <= 1.0
  }

  predicate Space(c: char) {
    c == ' ' || '\t' <= c <= '\r' || '\U{1C}' <= c <= '\U{1F}'
  }

  lemma GoodFeaturesExactly(e: Extracted)
    ensures ValidEntry(e) <==>
      && e.index >= 0 && |e.features| > 0 && 0.0 <= e.confidence <= 1.0
      && forall key <- e.features :: GoodFeature(key, e.features[key])
  {
    forall key <- e.features
      ensures !Blank(key) && -1.0 <= e.features[key] <= 1.0 <==> GoodFeature(key, e.features[key])
    {
    }
  }

  /** One option without features, and one entry returned for it: the decision is created exactly when the
  entry is for that option, with good features and a confidence between 0 and 1, and then it has them. */
  lemma OneEntryExactly(option: OptionInput, e: Extracted)
    requires option.features == map[]
    ensures Create([option], Extraction([e])).Ok? <==>
      && e.index == 0 && e.features != map[] && 0.0 <= e.confidence <= 1.0
      && forall key <- e.features :: GoodFeature(key, e.features[key])
    ensures Create([option], Extraction([e])).Ok? ==>
      Create([option], Extraction([e])).value
        == [Described(e.features, if option.confidence.Some? then option.confidence.value else e.confidence)]
  {
    assert [option][0].features == map[] && Missing([option]);
    GoodFeaturesExactly(e);
    assert AllValid([e]) <==> ValidEntry(e) by { assert [e][0] == e; }
    CreatedExactly([option], Extraction([e]));
    if Create([option], Extraction([e])).Ok? { EachOptionItsOwn([option], [e], 0); }
  }

  /** Features an option got by extraction are good, and so is its confidence if the owner gave none. */
  lemma ExtractedFeaturesAreGood(options: seq<OptionInput>, entries: seq<Extracted>, i: nat)
    requires Create(options, Extraction(entries)).Ok? && i < |options| && options[i].features == map[]
    ensures var d := Create(options, Extraction(entries)).value;
      && |d| == |options|
      && (forall key <- d[i].features :: GoodFeature(key, d[i].features[key]))
      && (options[i].confidence.None? ==> 0.0 <= d[i].confidence <= 1.0)
  {
    EveryOptionHasAnEntry(options, entries, i);
    var k :| 0 <= k < |entries| && entries[k].index == i;
    EachOptionItsOwn(options, entries, k);
    assert ValidEntry(entries[k]);
    GoodFeaturesExactly(entries[k]);
  }

  /** Each refusal when features are missing, in the order of the checks. */
  lemma RefusedExactly(options: seq<OptionInput>, reply: Reply)
    requires Missing(options)
    ensures Create(options, reply) == Err(ProviderRequired) <==> reply.NoProvider?
    ensures Create(options, reply) == Err(ProviderFailed) <==> reply.ProviderFails?
    ensures Create(options, reply) == Err(NotExactlyOnce) <==>
      reply.Extraction? && AllValid(reply.entries) && !ExactlyOnce(reply.entries, |options|)
  {
  }

  /** The order in which the entries are returned does not matter. */
  lemma OrderOfEntriesIrrelevant(options: seq<OptionInput>, a: seq<Extracted>, b: seq<Extracted>)
    requires multiset(a) == multiset(b) && Missing(options)
    requires Create(options, Extraction(a)).Ok? && Create(options, Extraction(b)).Ok?
    ensures Create(options, Extraction(a)) == Create(options, Extraction(b))
  {
    var x, y := Create(options, Extraction(a)).value, Create(options, Extraction(b)).value;
    forall i | 0 <= i < |options| ensures x[i] == y[i] {
      EveryOptionHasAnEntry(options, a, i);
      var k :| 0 <= k < |a| && a[k].index == i;
      assert a[k] in multiset(b);
      var l :| 0 <= l < |b| && b[l] == a[k];
      EachOptionItsOwn(options, a, k);
      EachOptionItsOwn(options, b, l);
    }
    assert x == y;
  }
}
