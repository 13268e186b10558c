/** A refresh yields what recomputing everything would. */
module KeyRefresh {
  import opened Prelude
  import opened KeyVectors
  import opened KeyOrdering

  /** Every stored vector is the one its model has for the text its hash stands for. */
  ghost predicate IndexOk(embed: Embed, index: Index) {
    forall k <- index :: index[k].vector == embed(k.1, index[k].hash.text)
  }

  // ---------- Batches ----------

  /** Successful batches give every key its text's vector, whatever the batch size. */
  lemma {:induction false} BatchesArePointwise(provider: Provider, embed: Embed, model: string, textOf: TextOf,
                                               labels: map<TypedKey, Label>, keys: seq<TypedKey>, size: nat, call: nat)
    requires size > 0 && Lawful(provider, embed, model)
    ensures var r := EmbedBatches(provider, textOf, labels, keys, size, call);
      r.Some? ==>
        r.value == seq(|keys|, i requires 0 <= i < |keys| => embed(model, CurrentText(textOf, labels, keys[i])))
    decreases |keys|
  {
    if keys != [] {
      var n := Min(size, |keys|);
      var texts := Texts(textOf, labels, keys[..n]);
      BatchesArePointwise(provider, embed, model, textOf, labels, keys[n..], size, call + 1);
    }
  }

  // ---------- Stale keys and written rows ----------

  lemma {:induction false} StaleMeans(textOf: TextOf, labels: map<TypedKey, Label>, index: Index, model: string,
                                      keys: seq<TypedKey>)
    ensures forall key :: key in Stale(textOf, labels, index, model, keys) <==>
      key in keys && IsStale(index, model, key, CurrentText(textOf, labels, key))
    decreases |keys|
  {
    if keys != [] {
      StaleMeans(textOf, labels, index, model, keys[..|keys| - 1]);
      assert keys == keys[..|keys| - 1] + [keys[|keys| - 1]];
    }
  }

  /** The row a key should have: its current text, hashed, and the vector of that text. */
  function RowOf(embed: Embed, model: string, textOf: TextOf, labels: map<TypedKey, Label>, key: TypedKey): Row {
    var text := CurrentText(textOf, labels, key);
    Row(Hashed(text), embed(model, text))
  }

  lemma {:induction false} ReplaceManyKeepsOthers(index: Index, model: string, textOf: TextOf,
                                                  labels: map<TypedKey, Label>,
                                                  keys: seq<TypedKey>, vectors: seq<Vector>, k: (TypedKey, string))
    requires |keys| == |vectors| && (k.1 != model || k.0 !in keys)
    ensures Lookup(ReplaceMany(index, model, textOf, labels, keys, vectors), k) == Lookup(index, k)
    decreases |keys|
  {
    if keys != [] {
      var i := |keys| - 1;
      assert keys[i] in keys;
      ReplaceManyKeepsOthers(index, model, textOf, labels, keys[..i], vectors[..i], k);
    }
  }

  lemma {:induction false} ReplaceManyWrites(index: Index, embed: Embed, model: string, textOf: TextOf,
                                             labels: map<TypedKey, Label>, keys: seq<TypedKey>, vectors: seq<Vector>,
                                             key: TypedKey)
    requires |keys| == |vectors| && key in keys
    requires forall i :: 0 <= i < |keys| ==> vectors[i] == embed(model, CurrentText(textOf, labels, keys[i]))
    ensures Lookup(ReplaceMany(index, model, textOf, labels, keys, vectors), (key, model))
      == Some(RowOf(embed, model, textOf, labels, key))
    decreases |keys|
  {
    var i := |keys| - 1;
    if key != keys[i] {
      assert keys == keys[..i] + [keys[i]];
      ReplaceManyWrites(index, embed, model, textOf, labels, keys[..i], vectors[..i], key);
    }
  }

  /** Writing rows changes exactly the rows of the written keys under this model. */
  lemma ReplaceManyMeans(index: Index, embed: Embed, model: string, textOf: TextOf,
                         labels: map<TypedKey, Label>, keys: seq<TypedKey>, vectors: seq<Vector>)
    requires |keys| == |vectors|
    requires forall i :: 0 <= i < |keys| ==> vectors[i] == embed(model, CurrentText(textOf, labels, keys[i]))
    ensures var t := ReplaceMany(index, model, textOf, labels, keys, vectors);
      && (forall key <- keys :: Lookup(t, (key, model)) == Some(RowOf(embed, model, textOf, labels, key)))
      && (forall k: (TypedKey, string) :: (k.1 != model || k.0 !in keys) ==> Lookup(t, k) == Lookup(index, k))
  {
    var t := ReplaceMany(index, model, textOf, labels, keys, vectors);
    forall key <- keys ensures Lookup(t, (key, model)) == Some(RowOf(embed, model, textOf, labels, key)) {
      ReplaceManyWrites(index, embed, model, textOf, labels, keys, vectors, key);
    }
    forall k: (TypedKey, string) | k.1 != model || k.0 !in keys ensures Lookup(t, k) == Lookup(index, k) {
      ReplaceManyKeepsOthers(index, model, textOf, labels, keys, vectors, k);
    }
  }

  lemma {:induction false} CurrentMeans(index: Index, embed: Embed, textOf: TextOf, labels: map<TypedKey, Label>,
                                        model: string, keys: seq<TypedKey>)
    requires forall key <- keys ::
      (key, model) in index && index[(key, model)].vector == embed(model, CurrentText(textOf, labels, key))
    ensures Current(index, model, keys) == Recomputed(embed, textOf, labels, model, keys)
    decreases |keys|
  {
    if keys != [] {
      var i := |keys| - 1;
      assert keys == keys[..i] + [keys[i]];
      CurrentMeans(index, embed, textOf, labels, model, keys[..i]);
    }
  }

  // ---------- Refreshing ----------

  /** After writing the stale keys' rows, every used key has the row of its current text. */
  lemma WrittenCoversUsedKeys(embed: Embed, textOf: TextOf, labels: map<TypedKey, Label>, index: Index, model: string,
                              keys: seq<TypedKey>, vectors: seq<Vector>)
    requires IndexOk(embed, index)
    requires var stale := Stale(textOf, labels, index, model, keys);
      && |vectors| == |stale|
      && forall i :: 0 <= i < |stale| ==> vectors[i] == embed(model, CurrentText(textOf, labels, stale[i]))
    ensures var t := ReplaceMany(index, model, textOf, labels, Stale(textOf, labels, index, model, keys), vectors);
      && IndexOk(embed, t)
      && forall key <- keys ::
        && !IsStale(t, model, key, CurrentText(textOf, labels, key))
        && t[(key, model)].vector == embed(model, CurrentText(textOf, labels, key))
  {
    var stale := Stale(textOf, labels, index, model, keys);
    StaleMeans(textOf, labels, index, model, keys);
    ReplaceManyMeans(index, embed, model, textOf, labels, stale, vectors);
  }

  /** A refresh that succeeds returns, for every used key in order of first use, exactly the vector
  of its current text: what embedding everything again would give. One that does not succeed
  leaves the stored vectors as they were. */
  lemma RefreshIsRecomputation(provider: Provider, embed: Embed, textOf: TextOf, evidence: seq<Evidence>,
                               labels: map<TypedKey, Label>, index: Index, model: string, ready: bool, size: nat,
                               crash: bool)
    requires size > 0 && Lawful(provider, embed, model) && IndexOk(embed, index)
    ensures var r := Refresh(provider, textOf, evidence, labels, index, model, ready, size, crash);
      && IndexOk(embed, r.index)
      && (r.keys.Some? ==> r.keys.value == Recomputed(embed, textOf, labels, model, UsedKeys(evidence)))
      && (r.keys.Some? ==> forall k <- r.index :: k.1 == model)
      && (r.keys.Some? ==>
            forall key <- UsedKeys(evidence) :: !IsStale(r.index, model, key, CurrentText(textOf, labels, key)))
      && (r.keys.None? && !crash ==> r.index == index && r.embedded == 0)
      && (!ready ==> r.index == index)
      && var stale := Stale(textOf, labels, index, model, UsedKeys(evidence));
         EmbedBatches(provider, textOf, labels, stale, size, 0).None? ==> r.index == index
  {
    var keys := UsedKeys(evidence);
    var stale := Stale(textOf, labels, index, model, keys);
    BatchesArePointwise(provider, embed, model, textOf, labels, stale, size, 0);
    var vectors := EmbedBatches(provider, textOf, labels, stale, size, 0);
    if ready && vectors.Some? {
      WrittenIsRecomputed(embed, textOf, labels, index, model, keys, vectors.value);
    }
  }

  lemma WrittenIsRecomputed(embed: Embed, textOf: TextOf, labels: map<TypedKey, Label>, index: Index, model: string,
                            keys: seq<TypedKey>, vectors: seq<Vector>)
    requires IndexOk(embed, index)
    requires var stale := Stale(textOf, labels, index, model, keys);
      && |vectors| == |stale|
      && forall i :: 0 <= i < |stale| ==> vectors[i] == embed(model, CurrentText(textOf, labels, stale[i]))
    ensures var t := ReplaceMany(index, model, textOf, labels, Stale(textOf, labels, index, model, keys), vectors);
      && IndexOk(embed, t) && IndexOk(embed, OnlyModel(t, model))
      && Current(t, model, keys) == Recomputed(embed, textOf, labels, model, keys)
      && forall key <- keys :: !IsStale(t, model, key, CurrentText(textOf, labels, key))
  {
    WrittenCoversUsedKeys(embed, textOf, labels, index, model, keys, vectors);
    var t := ReplaceMany(index, model, textOf, labels, Stale(textOf, labels, index, model, keys), vectors);
    CurrentMeans(t, embed, textOf, labels, model, keys);
  }

  /** Rows of keys that no evidence uses any more stay as they were, stale or not. */
  lemma UnusedRowsStay(provider: Provider, embed: Embed, textOf: TextOf, evidence: seq<Evidence>,
                       labels: map<TypedKey, Label>, index: Index, model: string, size: nat, key: TypedKey)
    requires size > 0 && Lawful(provider, embed, model) && key !in UsedKeys(evidence)
    ensures var r := Refresh(provider, textOf, evidence, labels, index, model, true, size, false);
      Lookup(r.index, (key, model)) == Lookup(index, (key, model))
  {
    var keys := UsedKeys(evidence);
    var stale := Stale(textOf, labels, index, model, keys);
    StaleMeans(textOf, labels, index, model, keys);
    BatchesArePointwise(provider, embed, model, textOf, labels, stale, size, 0);
    var vectors := EmbedBatches(provider, textOf, labels, stale, size, 0);
    if vectors.Some? { ReplaceManyMeans(index, embed, model, textOf, labels, stale, vectors.value); }
  }

  lemma {:induction false} NothingStale(textOf: TextOf, labels: map<TypedKey, Label>, index: Index, model: string,
                                        keys: seq<TypedKey>)
    requires forall key <- keys :: !IsStale(index, model, key, CurrentText(textOf, labels, key))
    ensures Stale(textOf, labels, index, model, keys) == []
    decreases |keys|
  {
    if keys != [] { NothingStale(textOf, labels, index, model, keys[..|keys| - 1]); }
  }

  /** A refresh right after a successful one embeds nothing, needs no provider reply and returns the
  same vectors. */
  lemma SecondRefreshEmbedsNothing(provider: Provider, again: Provider, embed: Embed, textOf: TextOf,
                                   evidence: seq<Evidence>,
                                   labels: map<TypedKey, Label>, index: Index, model: string, size: nat)
    requires size > 0 && Lawful(provider, embed, model) && IndexOk(embed, index)
    requires Refresh(provider, textOf, evidence, labels, index, model, true, size, false).keys.Some?
    ensures var r := Refresh(provider, textOf, evidence, labels, index, model, true, size, false);
      Refresh(again, textOf, evidence, labels, r.index, model, true, size, false) == r.(embedded := 0)
  {
    RefreshIsRecomputation(provider, embed, textOf, evidence, labels, index, model, true, size, false);
    var r := Refresh(provider, textOf, evidence, labels, index, model, true, size, false);
    var keys := UsedKeys(evidence);
    NothingStale(textOf, labels, r.index, model, keys);
    assert OnlyModel(r.index, model) == r.index;
    CurrentMeans(r.index, embed, textOf, labels, model, keys);
  }

  /** Whatever the history of evidence, label changes, models, failures and crashes, stored vectors
  match their hashes. */
  lemma {:induction false} HistoriesKeepIndex(embed: Embed, textOf: TextOf, w: World, events: seq<Event>)
    requires IndexOk(embed, w.index) && LawfulEvents(embed, events)
    ensures IndexOk(embed, Run(textOf, w, events).index)
    decreases |events|
  {
    if events != [] {
      match events[0] {
        case Refreshing(provider, model, ready, size, crash) =>
          assert Lawful(events[0].provider, embed, events[0].model);
          if size > 0 {
            RefreshIsRecomputation(provider, embed, textOf, w.evidence, w.labels, w.index, model, ready, size, crash);
          }
        case _ =>
      }
      HistoriesKeepIndex(embed, textOf, Step(textOf, w, events[0]), events[1..]);
    }
  }

  /** So after any history a successful refresh equals full recomputation, also from a world whose
  vectors were never stored. */
  lemma RefreshAfterAnyHistory(embed: Embed, textOf: TextOf, events: seq<Event>, provider: Provider, model: string,
                               size: nat)
    requires LawfulEvents(embed, events) && Lawful(provider, embed, model) && size > 0
    ensures var w := Run(textOf, World([], map[], map[]), events);
      var r := Refresh(provider, textOf, w.evidence, w.labels, w.index, model, true, size, false);
      r.keys.Some? ==> r.keys.value == Recomputed(embed, textOf, w.labels, model, UsedKeys(w.evidence))
  {
    var w := Run(textOf, World([], map[], map[]), events);
    HistoriesKeepIndex(embed, textOf, World([], map[], map[]), events);
    RefreshIsRecomputation(provider, embed, textOf, w.evidence, w.labels, w.index, model, true, size, false);
  }
}
