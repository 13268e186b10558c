/** KeySemanticsService as an object: the loops that collect texts, find stale keys, embed them in
batches and write them at once. */
module KeySemantics {
  import opened Prelude
  import opened KeyVectors

  function Prepend(vectors: seq<Vector>, rest: Option<seq<Vector>>): Option<seq<Vector>> {
    match rest
    case None => None
    case Some(more) => Some(vectors + more)
  }

  lemma PrependTwice(a: seq<Vector>, b: seq<Vector>, rest: Option<seq<Vector>>)
    ensures Prepend(a, Prepend(b, rest)) == Prepend(a + b, rest)
  {
    if rest.Some? { assert a + (b + rest.value) == (a + b) + rest.value; }
  }

  class KeySemanticsService {
    const textOf: TextOf
    const batchSize: nat
    var evidence: seq<Evidence>
    var labels: map<TypedKey, Label>
    var index: Index

    constructor (textOf: TextOf, batchSize: nat)
      requires batchSize > 0
      ensures this.textOf == textOf && this.batchSize == batchSize
      ensures evidence == [] && labels == map[] && index == map[]
    {
      this.textOf, this.batchSize := textOf, batchSize;
      evidence, labels, index := [], map[], map[];
    }

    /** The text of every used key, with the keys in order of first use. */
    method KeyTexts() returns (order: seq<TypedKey>, texts: map<TypedKey, string>)
      ensures order == UsedKeys(evidence)
      ensures texts.Keys == (set key <- order)
      ensures forall key <- order :: texts[key] == CurrentText(textOf, labels, key)
    {
      var sorted := Sort(evidence);
      order, texts := [], map[];
      for i := 0 to |sorted|
        invariant order == KeyOrder(sorted[..i])
        invariant texts.Keys == (set key <- order)
        invariant forall key <- order :: texts[key] == CurrentText(textOf, labels, key)
      {
        var identity := sorted[i].key;
        assert sorted[..i + 1][..i] == sorted[..i];
        if identity in texts { continue; }
        order := order + [identity];
        texts := texts[identity := textOf(identity, Lookup(labels, identity))];
      }
      assert sorted[..|sorted|] == sorted;
    }

    method StaleKeys(order: seq<TypedKey>, texts: map<TypedKey, string>, model: string) returns (stale: seq<TypedKey>)
      requires forall key <- order :: key in texts && texts[key] == CurrentText(textOf, labels, key)
      ensures stale == Stale(textOf, labels, index, model, order)
      ensures forall key <- stale :: key in order
    {
      stale := [];
      for i := 0 to |order|
        invariant stale == Stale(textOf, labels, index, model, order[..i])
        invariant forall key <- stale :: key in order
      {
        assert order[..i + 1][..i] == order[..i];
        var row := Lookup(index, (order[i], model));
        if row.None? || row.value.hash != Hashed(texts[order[i]]) {
          stale := stale + [order[i]];
        }
      }
      assert order[..|order|] == order;
    }

    /** Embed the stale keys batch by batch; the first unusable reply ends it. */
    method EmbedAll(provider: Provider, texts: map<TypedKey, string>, stale: seq<TypedKey>)
      returns (written: Option<seq<Vector>>)
      requires batchSize > 0
      requires forall key <- stale :: key in texts && texts[key] == CurrentText(textOf, labels, key)
      ensures written == EmbedBatches(provider, textOf, labels, stale, batchSize, 0)
    {
      var vectors: seq<Vector> := [];
      var rest, call := stale, 0;
      ghost var all := EmbedBatches(provider, textOf, labels, stale, batchSize, 0);
      assert all.Some? ==> [] + all.value == all.value;
      while rest != []
        invariant forall key <- rest :: key in stale
        invariant all == Prepend(vectors, EmbedBatches(provider, textOf, labels, rest, batchSize, call))
        decreases |rest|
      {
        var n := Min(batchSize, |rest|);
        var reply := EmbedBatch(provider, texts, rest[..n], call);
        if reply.None? { return None; }
        PrependTwice(vectors, reply.value, EmbedBatches(provider, textOf, labels, rest[n..], batchSize, call + 1));
        vectors := vectors + reply.value;
        rest, call := rest[n..], call + 1;
      }
      assert vectors + [] == vectors;
      return Some(vectors);
    }

    /** One call; a reply of the wrong length is unusable. */
    method EmbedBatch(provider: Provider, texts: map<TypedKey, string>, batch: seq<TypedKey>, call: nat)
      returns (vectors: Option<seq<Vector>>)
      requires forall key <- batch :: key in texts && texts[key] == CurrentText(textOf, labels, key)
      ensures var reply := provider(call, Texts(textOf, labels, batch));
        vectors == if reply.Vectors? && |reply.vectors| == |batch| then Some(reply.vectors) else None
    {
      var batchTexts := seq(|batch|, i requires 0 <= i < |batch| => texts[batch[i]]);
      assert batchTexts == Texts(textOf, labels, batch);
      var reply := provider(call, batchTexts);
      return if reply.Vectors? && |reply.vectors| == |batch| then Some(reply.vectors) else None;
    }

    /** Nothing is stored unless every batch succeeds. */
    method Embed(provider: Provider, texts: map<TypedKey, string>, stale: seq<TypedKey>, model: string)
      returns (written: Option<seq<Vector>>)
      requires batchSize > 0
      requires forall key <- stale :: key in texts && texts[key] == CurrentText(textOf, labels, key)
      modifies this`index
      ensures written == EmbedBatches(provider, textOf, labels, stale, batchSize, 0)
      ensures written.Some? ==> |written.value| == |stale|
      ensures written.Some? ==> index == ReplaceMany(old(index), model, textOf, labels, stale, written.value)
      ensures written.None? ==> index == old(index)
    {
      written := EmbedAll(provider, texts, stale);
      if written.Some? {
        WriteRows(model, stale, texts, written.value);
      }
    }

    method WriteRows(model: string, keys: seq<TypedKey>, texts: map<TypedKey, string>, vectors: seq<Vector>)
      requires |keys| == |vectors|
      requires forall key <- keys :: key in texts && texts[key] == CurrentText(textOf, labels, key)
      modifies this`index
      ensures index == ReplaceMany(old(index), model, textOf, labels, keys, vectors)
    {
      for i := 0 to |keys|
        invariant index == ReplaceMany(old(index), model, textOf, labels, keys[..i], vectors[..i])
      {
        assert keys[..i + 1][..i] == keys[..i] && vectors[..i + 1][..i] == vectors[..i];
        index := index[(keys[i], model) := Row(Hashed(texts[keys[i]]), vectors[i])];
      }
      assert keys[..|keys|] == keys && vectors[..|keys|] == vectors;
    }

    method ListCurrent(order: seq<TypedKey>, model: string) returns (current: seq<(TypedKey, Vector)>)
      ensures current == Current(index, model, order)
    {
      current := [];
      for i := 0 to |order|
        invariant current == Current(index, model, order[..i])
      {
        assert order[..i + 1][..i] == order[..i];
        if (order[i], model) in index {
          current := current + [(order[i], index[(order[i], model)].vector)];
        }
      }
      assert order[..|order|] == order;
    }

    /** Recompute the stale vectors, drop other models' ones and list the current vectors. */
    method Refresh(provider: Provider, model: string, ready: bool, crash: bool)
      returns (embedded: nat, keys: Option<seq<(TypedKey, Vector)>>)
      requires batchSize > 0
      modifies this`index
      ensures Refreshed(index, embedded, keys)
           == KeyVectors.Refresh(provider, textOf, evidence, labels, old(index), model, ready, batchSize, crash)
    {
      if !ready { return 0, None; }
      var order, texts := KeyTexts();
      var stale := StaleKeys(order, texts, model);
      var written := Embed(provider, texts, stale, model);
      if written.None? { return 0, None; }
      if crash { return |stale|, None; }
      var current := ListCurrent(order, model);
      index := map k | k in index && k.1 == model :: index[k];
      return |stale|, Some(current);
    }
  }
}
