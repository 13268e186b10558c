/** The incremental key-vector index (key_semantics.py): which keys are used, in which order, and
what one refresh stores and returns. */
module KeyVectors {
  import opened Prelude

  datatype TypedKey = TypedKey(target: nat, name: string)

  datatype Evidence = Evidence(created: int, id: nat, key: TypedKey)

  datatype Label = Label(text: string, aliases: seq<string>)

  type Vector = seq<real>

  /** A text hash without collisions: it stands for exactly one text. */
  datatype TextHash = Hashed(text: string)

  datatype Row = Row(hash: TextHash, vector: Vector)

  /** The stored vectors, by key and model. */
  type Index = map<(TypedKey, string), Row>

  /** The text embedded for a key with its label. */
  type TextOf = (TypedKey, Option<Label>) -> string

  /** The vector a model has for a text. */
  type Embed = (string, string) -> Vector

  // ---------- Used keys, in order of first use ----------

  predicate Before(a: Evidence, b: Evidence) {
    a.created < b.created || (a.created == b.created && a.id < b.id)
  }

  function Insert(e: Evidence, s: seq<Evidence>): seq<Evidence> {
    if s == [] || !Before(s[0], e) then [e] + s else [s[0]] + Insert(e, s[1..])
  }

  function Sort(s: seq<Evidence>): seq<Evidence> {
    if s == [] then [] else Insert(s[0], Sort(s[1..]))
  }

  function KeyOrder(s: seq<Evidence>): seq<TypedKey> {
    if s == [] then []
    else
      var order := KeyOrder(s[..|s| - 1]);
      var key := s[|s| - 1].key;
      if key in order then order else order + [key]
  }

  function UsedKeys(evidence: seq<Evidence>): seq<TypedKey> {
    KeyOrder(Sort(evidence))
  }

  function CurrentText(textOf: TextOf, labels: map<TypedKey, Label>, key: TypedKey): string {
    textOf(key, Lookup(labels, key))
  }

  // ---------- One refresh ----------

  predicate IsStale(index: Index, model: string, key: TypedKey, text: string) {
    (key, model) !in index || index[(key, model)].hash != Hashed(text)
  }

  function Stale(textOf: TextOf, labels: map<TypedKey, Label>, index: Index, model: string, keys: seq<TypedKey>)
      : seq<TypedKey>
  {
    if keys == [] then []
    else
      var rest := Stale(textOf, labels, index, model, keys[..|keys| - 1]);
      var key := keys[|keys| - 1];
      if IsStale(index, model, key, CurrentText(textOf, labels, key)) then rest + [key] else rest
  }

  datatype Reply = Vectors(vectors: seq<Vector>) | Unavailable

  /** The provider's answer to the n-th call with these texts. */
  type Provider = (nat, seq<string>) -> Reply

  /** A reply of the right length is pointwise and the same at every call; others may be anything. */
  ghost predicate Lawful(provider: Provider, embed: Embed, model: string) {
    forall n, texts | provider(n, texts).Vectors? && |provider(n, texts).vectors| == |texts| ::
      forall i :: 0 <= i < |texts| ==> provider(n, texts).vectors[i] == embed(model, texts[i])
  }

  function Texts(textOf: TextOf, labels: map<TypedKey, Label>, keys: seq<TypedKey>): seq<string> {
    seq(|keys|, i requires 0 <= i < |keys| => CurrentText(textOf, labels, keys[i]))
  }

  /** Embed the keys batch by batch; the first unusable reply fails them all. */
  function EmbedBatches(provider: Provider, textOf: TextOf, labels: map<TypedKey, Label>, keys: seq<TypedKey>,
                        size: nat, call: nat): (r: Option<seq<Vector>>)
    requires size > 0
    ensures r.Some? ==> |r.value| == |keys|
    decreases |keys|
  {
    if keys == [] then Some([])
    else
      var n := Min(size, |keys|);
      var reply := provider(call, Texts(textOf, labels, keys[..n]));
      if !reply.Vectors? || |reply.vectors| != n then None
      else
        match EmbedBatches(provider, textOf, labels, keys[n..], size, call + 1)
        case None => None
        case Some(rest) => Some(reply.vectors + rest)
  }

  function ReplaceMany(index: Index, model: string, textOf: TextOf, labels: map<TypedKey, Label>,
                       keys: seq<TypedKey>, vectors: seq<Vector>): Index
    requires |keys| == |vectors|
  {
    if keys == [] then index
    else
      var i := |keys| - 1;
      var row := Row(Hashed(CurrentText(textOf, labels, keys[i])), vectors[i]);
      ReplaceMany(index, model, textOf, labels, keys[..i], vectors[..i])[(keys[i], model) := row]
  }

  function OnlyModel(index: Index, model: string): Index {
    map k | k in index && k.1 == model :: index[k]
  }

  datatype Refreshed = Refreshed(index: Index, embedded: nat, keys: Option<seq<(TypedKey, Vector)>>)

  /** The vectors handed on for suggestions: every used key that has one, in order. */
  function Current(index: Index, model: string, keys: seq<TypedKey>): seq<(TypedKey, Vector)> {
    if keys == [] then []
    else
      var i := |keys| - 1;
      var rest := Current(index, model, keys[..i]);
      if (keys[i], model) in index then rest + [(keys[i], index[(keys[i], model)].vector)] else rest
  }

  /** One refresh; with `crash` the process dies before the other models' vectors are dropped. */
  function Refresh(provider: Provider, textOf: TextOf, evidence: seq<Evidence>, labels: map<TypedKey, Label>,
                   index: Index, model: string, ready: bool, size: nat, crash: bool): Refreshed
    requires size > 0
  {
    if !ready then Refreshed(index, 0, None)
    else
      var keys := UsedKeys(evidence);
      var stale := Stale(textOf, labels, index, model, keys);
      match EmbedBatches(provider, textOf, labels, stale, size, 0)
      case None => Refreshed(index, 0, None)
      case Some(vectors) =>
        var written := ReplaceMany(index, model, textOf, labels, stale, vectors);
        if crash then Refreshed(written, |stale|, None)
        else Refreshed(OnlyModel(written, model), |stale|, Some(Current(written, model, keys)))
  }

  /** The plain definition: every used key with the vector of its current text. */
  function Recomputed(embed: Embed, textOf: TextOf, labels: map<TypedKey, Label>, model: string,
                      keys: seq<TypedKey>): seq<(TypedKey, Vector)> {
    seq(|keys|, i requires 0 <= i < |keys| => (keys[i], embed(model, CurrentText(textOf, labels, keys[i]))))
  }

  // ---------- Histories ----------

  datatype World = World(evidence: seq<Evidence>, labels: map<TypedKey, Label>, index: Index)

  datatype Event =
    | SetEvidence(evidence: seq<Evidence>)
    | SetLabel(key: TypedKey, value: Label)
    | DropLabel(key: TypedKey)
    | Refreshing(provider: Provider, model: string, ready: bool, size: nat, crash: bool)

  function Step(textOf: TextOf, w: World, e: Event): World {
    match e
    case SetEvidence(evidence) => w.(evidence := evidence)
    case SetLabel(key, value) => w.(labels := w.labels[key := value])
    case DropLabel(key) => w.(labels := w.labels - {key})
    case Refreshing(provider, model, ready, size, crash) =>
      if size == 0 then w
      else w.(index := Refresh(provider, textOf, w.evidence, w.labels, w.index, model, ready, size, crash).index)
  }

  function Run(textOf: TextOf, w: World, events: seq<Event>): World
    decreases |events|
  {
    if events == [] then w else Run(textOf, Step(textOf, w, events[0]), events[1..])
  }

  ghost predicate LawfulEvents(embed: Embed, events: seq<Event>) {
    forall i :: 0 <= i < |events| && events[i].Refreshing? ==> Lawful(events[i].provider, embed, events[i].model)
  }
}
