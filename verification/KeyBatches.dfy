/** When a refresh succeeds: batch by batch, and with a provider that answers. */
module KeyBatches {
  import opened Prelude
  import opened KeyVectors
  import opened KeyRefresh

  lemma NextStart(b: nat, size: nat)
    ensures (b + 1) * size == b * size + size
  {
  }

  lemma LaterStart(b: nat, size: nat)
    requires b > 0
    ensures b * size >= size
  {
    assert b * size == (b - 1) * size + size;
  }

  /** The keys of batch b. */
  function Batch(keys: seq<TypedKey>, size: nat, b: nat): seq<TypedKey>
    requires b * size < |keys|
  {
    keys[b * size..Min(b * size + size, |keys|)]
  }

  /** The reply to the texts of batch b, which is call number `call + b`. */
  function BatchReply(provider: Provider, textOf: TextOf, labels: map<TypedKey, Label>, keys: seq<TypedKey>,
                      size: nat, call: nat, b: nat): Reply
    requires b * size < |keys|
  {
    provider(call + b, Texts(textOf, labels, Batch(keys, size, b)))
  }

  /** It holds one vector for each key of the batch. */
  predicate BatchAnswered(provider: Provider, textOf: TextOf, labels: map<TypedKey, Label>, keys: seq<TypedKey>,
                          size: nat, call: nat, b: nat)
    requires b * size < |keys|
  {
    var reply := BatchReply(provider, textOf, labels, keys, size, call, b);
    reply.Vectors? && |reply.vectors| == |Batch(keys, size, b)|
  }

  ghost predicate AllAnswered(provider: Provider, textOf: TextOf, labels: map<TypedKey, Label>, keys: seq<TypedKey>,
                              size: nat, call: nat)
  {
    forall b: nat :: b * size < |keys| ==> BatchAnswered(provider, textOf, labels, keys, size, call, b)
  }

  /** The vectors of batch b stand at its place. */
  predicate BatchStands(provider: Provider, textOf: TextOf, labels: map<TypedKey, Label>, keys: seq<TypedKey>,
                        size: nat, call: nat, b: nat, vectors: seq<Vector>)
    requires b * size < |keys| == |vectors|
  {
    BatchReply(provider, textOf, labels, keys, size, call, b)
      == Vectors(vectors[b * size..Min(b * size + size, |keys|)])
  }

  lemma BatchOfRest(keys: seq<TypedKey>, size: nat, b: nat)
    requires 0 < size < |keys|
    ensures b * size < |keys[size..]| <==> (b + 1) * size < |keys|
    ensures b * size < |keys[size..]| ==> Batch(keys[size..], size, b) == Batch(keys, size, b + 1)
  {
    NextStart(b, size);
  }

  lemma RestAnswered(provider: Provider, textOf: TextOf, labels: map<TypedKey, Label>, keys: seq<TypedKey>,
                     size: nat, call: nat)
    requires 0 < size < |keys|
    ensures AllAnswered(provider, textOf, labels, keys, size, call) <==>
      && BatchAnswered(provider, textOf, labels, keys, size, call, 0)
      && AllAnswered(provider, textOf, labels, keys[size..], size, call + 1)
  {
    forall b: nat | b * size < |keys[size..]|
      ensures (b + 1) * size < |keys|
      ensures BatchAnswered(provider, textOf, labels, keys[size..], size, call + 1, b)
        <==> BatchAnswered(provider, textOf, labels, keys, size, call, b + 1)
    {
      BatchOfRest(keys, size, b);
    }
    if AllAnswered(provider, textOf, labels, keys[size..], size, call + 1)
      && BatchAnswered(provider, textOf, labels, keys, size, call, 0)
    {
      forall b: nat | b * size < |keys| ensures BatchAnswered(provider, textOf, labels, keys, size, call, b) {
        if b > 0 {
          BatchOfRest(keys, size, b - 1);
          assert BatchAnswered(provider, textOf, labels, keys[size..], size, call + 1, b - 1);
        }
      }
    }
  }

  lemma OnlyFirst(provider: Provider, textOf: TextOf, labels: map<TypedKey, Label>, keys: seq<TypedKey>,
                  size: nat, call: nat)
    requires 0 < |keys| <= size
    ensures AllAnswered(provider, textOf, labels, keys, size, call)
      <==> BatchAnswered(provider, textOf, labels, keys, size, call, 0)
  {
    forall b: nat | b * size < |keys| ensures b == 0 {
      if b > 0 { LaterStart(b, size); }
    }
  }

  /** Embedding succeeds if and only if every batch is answered with one vector for each of its keys. */
  lemma {:induction false} EmbedsExactly(provider: Provider, textOf: TextOf, labels: map<TypedKey, Label>,
                                         keys: seq<TypedKey>, size: nat, call: nat)
    requires size > 0
    ensures EmbedBatches(provider, textOf, labels, keys, size, call).Some?
      <==> AllAnswered(provider, textOf, labels, keys, size, call)
    decreases |keys|
  {
    if keys != [] {
      var n := Min(size, |keys|);
      assert Batch(keys, size, 0) == keys[..n];
      EmbedsExactly(provider, textOf, labels, keys[n..], size, call + 1);
      if n < |keys| {
        RestAnswered(provider, textOf, labels, keys, size, call);
      } else {
        OnlyFirst(provider, textOf, labels, keys, size, call);
      }
    }
  }

  lemma SliceAfter<T>(first: seq<T>, rest: seq<T>, lo: nat, hi: nat)
    requires lo <= hi <= |rest|
    ensures (first + rest)[|first| + lo..|first| + hi] == rest[lo..hi]
  {
  }

  /** What a successful embedding starts with, and what follows. */
  lemma EmbeddedFirst(provider: Provider, textOf: TextOf, labels: map<TypedKey, Label>, keys: seq<TypedKey>,
                      size: nat, call: nat)
    requires size > 0 && keys != [] && EmbedBatches(provider, textOf, labels, keys, size, call).Some?
    ensures var n := Min(size, |keys|);
      var rest := EmbedBatches(provider, textOf, labels, keys[n..], size, call + 1);
      var reply := BatchReply(provider, textOf, labels, keys, size, call, 0);
      && rest.Some? && reply.Vectors? && |reply.vectors| == n
      && EmbedBatches(provider, textOf, labels, keys, size, call).value == reply.vectors + rest.value
  {
    assert Batch(keys, size, 0) == keys[..Min(size, |keys|)];
  }

  lemma LaterStands(provider: Provider, textOf: TextOf, labels: map<TypedKey, Label>, keys: seq<TypedKey>,
                    size: nat, call: nat, b: nat, first: seq<Vector>, rest: seq<Vector>)
    requires 0 < size < |keys| && |first| == size && |first + rest| == |keys|
    requires b * size < |keys[size..]|
    requires BatchStands(provider, textOf, labels, keys[size..], size, call + 1, b, rest)
    ensures (b + 1) * size < |keys|
    ensures BatchStands(provider, textOf, labels, keys, size, call, b + 1, first + rest)
  {
    BatchOfRest(keys, size, b);
    NextStart(b, size);
    var at := b * size;
    SliceAfter(first, rest, at, Min(at + size, |rest|));
  }

  /** And then each batch's vectors stand at its place, in order. */
  lemma {:induction false} EmbeddedInPlace(provider: Provider, textOf: TextOf, labels: map<TypedKey, Label>,
                                           keys: seq<TypedKey>, size: nat, call: nat, b: nat)
    requires size > 0 && b * size < |keys|
    requires EmbedBatches(provider, textOf, labels, keys, size, call).Some?
    ensures BatchStands(provider, textOf, labels, keys, size, call, b,
                        EmbedBatches(provider, textOf, labels, keys, size, call).value)
    decreases b
  {
    EmbeddedFirst(provider, textOf, labels, keys, size, call);
    if b > 0 {
      LaterStart(b, size);
      BatchOfRest(keys, size, b - 1);
      EmbeddedInPlace(provider, textOf, labels, keys[size..], size, call + 1, b - 1);
      LaterStands(provider, textOf, labels, keys, size, call, b - 1,
                  BatchReply(provider, textOf, labels, keys, size, call, 0).vectors,
                  EmbedBatches(provider, textOf, labels, keys[size..], size, call + 1).value);
    }
  }

  /** A provider that answers every call with one vector for each text. */
  ghost predicate Dependable(provider: Provider) {
    forall n, texts :: provider(n, texts).Vectors? && |provider(n, texts).vectors| == |texts|
  }

  lemma DependableEmbeds(provider: Provider, textOf: TextOf, labels: map<TypedKey, Label>, keys: seq<TypedKey>,
                         size: nat)
    requires size > 0 && Dependable(provider)
    ensures EmbedBatches(provider, textOf, labels, keys, size, 0).Some?
  {
    EmbedsExactly(provider, textOf, labels, keys, size, 0);
  }

  /** A refresh, not interrupted, of a ready model succeeds if and only if every batch of stale keys is
  answered. */
  lemma RefreshSucceedsExactly(provider: Provider, textOf: TextOf, evidence: seq<Evidence>,
                               labels: map<TypedKey, Label>, index: Index, model: string, ready: bool, size: nat,
                               crash: bool)
    requires size > 0
    ensures var stale := Stale(textOf, labels, index, model, UsedKeys(evidence));
      var r := Refresh(provider, textOf, evidence, labels, index, model, ready, size, crash);
      && (r.keys.Some? <==> ready && !crash && AllAnswered(provider, textOf, labels, stale, size, 0))
      && r.embedded == if ready && AllAnswered(provider, textOf, labels, stale, size, 0) then |stale| else 0
  {
    EmbedsExactly(provider, textOf, labels, Stale(textOf, labels, index, model, UsedKeys(evidence)), size, 0);
  }

  /** So with a dependable provider it returns what recomputing everything gives, whatever the evidence, the
  labels and the stored vectors. */
  lemma DependableRefresh(provider: Provider, embed: Embed, textOf: TextOf, evidence: seq<Evidence>,
                          labels: map<TypedKey, Label>, index: Index, model: string, size: nat)
    requires size > 0 && Lawful(provider, embed, model) && Dependable(provider) && IndexOk(embed, index)
    ensures Refresh(provider, textOf, evidence, labels, index, model, true, size, false).keys
      == Some(Recomputed(embed, textOf, labels, model, UsedKeys(evidence)))
  {
    DependableEmbeds(provider, textOf, labels, Stale(textOf, labels, index, model, UsedKeys(evidence)), size);
    RefreshIsRecomputation(provider, embed, textOf, evidence, labels, index, model, true, size, false);
  }

  // ---------- Labels, and a process that dies while refreshing ----------

  /** What the vector of a key is to be made of: its label if it has one. */
  function TextWith(textOf: TextOf, labels: map<TypedKey, Label>, key: TypedKey): string {
    if key in labels then textOf(key, Some(labels[key])) else textOf(key, None)
  }

  /** With a dependable provider the refresh hands on each used key with the vector of its text. */
  lemma RefreshUsesLabels(provider: Provider, embed: Embed, textOf: TextOf, evidence: seq<Evidence>,
                          labels: map<TypedKey, Label>, index: Index, model: string, size: nat, i: nat)
    requires size > 0 && Lawful(provider, embed, model) && Dependable(provider) && IndexOk(embed, index)
    requires i < |UsedKeys(evidence)|
    ensures var r := Refresh(provider, textOf, evidence, labels, index, model, true, size, false);
      var key := UsedKeys(evidence)[i];
      && r.keys.Some? && |r.keys.value| == |UsedKeys(evidence)|
      && r.keys.value[i] == (key, embed(model, TextWith(textOf, labels, key)))
  {
    var key := UsedKeys(evidence)[i];
    assert CurrentText(textOf, labels, key) == TextWith(textOf, labels, key);
    DependableRefresh(provider, embed, textOf, evidence, labels, index, model, size);
  }

  /** A refresh that dies before it drops the other models' vectors has stored its own: they are all there,
  the other models' rows stand, and the next refresh succeeds without any call to the provider. */
  lemma DeathKeepsVectors(provider: Provider, embed: Embed, textOf: TextOf, evidence: seq<Evidence>,
                          labels: map<TypedKey, Label>, index: Index, model: string, size: nat, other: Provider)
    requires size > 0 && Lawful(provider, embed, model) && IndexOk(embed, index)
    requires AllAnswered(provider, textOf, labels, Stale(textOf, labels, index, model, UsedKeys(evidence)), size, 0)
    ensures var r := Refresh(provider, textOf, evidence, labels, index, model, true, size, true);
      && (forall key <- UsedKeys(evidence) ::
            (key, model) in r.index && r.index[(key, model)].vector == embed(model, TextWith(textOf, labels, key)))
      && (forall k: (TypedKey, string) :: k.1 != model ==> Lookup(r.index, k) == Lookup(index, k))
      && (var next := Refresh(other, textOf, evidence, labels, r.index, model, true, size, false);
          next.embedded == 0 && next.keys.Some?)
  {
    var keys := UsedKeys(evidence);
    var stale := Stale(textOf, labels, index, model, keys);
    EmbedsExactly(provider, textOf, labels, stale, size, 0);
    BatchesArePointwise(provider, embed, model, textOf, labels, stale, size, 0);
    var vectors := EmbedBatches(provider, textOf, labels, stale, size, 0).value;
    WrittenCoversUsedKeys(embed, textOf, labels, index, model, keys, vectors);
    ReplaceManyMeans(index, embed, model, textOf, labels, stale, vectors);
    var written := ReplaceMany(index, model, textOf, labels, stale, vectors);
    NothingStale(textOf, labels, written, model, keys);
  }

  /** Setting or dropping a label after a refresh makes a used key stale exactly when it changes that key's
  text; dropping leaves the key with the text that it has without a label. */
  lemma LabelChangeStalesExactly(textOf: TextOf, w: World, model: string, e: Event, key: TypedKey)
    requires (key, model) in w.index && w.index[(key, model)].hash == Hashed(TextWith(textOf, w.labels, key))
    requires e.SetLabel? || e.DropLabel?
    ensures var t := Step(textOf, w, e);
      && (IsStale(t.index, model, key, CurrentText(textOf, t.labels, key)) <==>
            e.key == key
            && TextWith(textOf, w.labels, key) != textOf(key, if e.SetLabel? then Some(e.value) else None))
      && t.index == w.index && t.evidence == w.evidence
  {
  }
}
