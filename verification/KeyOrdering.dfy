/** Order of first use does not depend on how the evidence is listed. */
module KeyOrdering {
  import opened Prelude
  import opened KeyVectors

  predicate Ordered(s: seq<Evidence>) {
    forall i, j :: 0 <= i < j < |s| ==> !Before(s[j], s[i])
  }

  predicate DistinctIds(s: seq<Evidence>) {
    forall i, j :: 0 <= i < j < |s| ==> s[i].id != s[j].id
  }

  lemma {:induction false} InsertKeeps(e: Evidence, s: seq<Evidence>)
    ensures multiset(Insert(e, s)) == multiset(s) + multiset{e}
    decreases |s|
  {
    if s != [] && Before(s[0], e) {
      InsertKeeps(e, s[1..]);
      assert s == [s[0]] + s[1..];
    }
  }

  lemma {:induction false} InsertSorts(e: Evidence, s: seq<Evidence>)
    requires Ordered(s)
    ensures Ordered(Insert(e, s))
    decreases |s|
  {
    if s != [] && Before(s[0], e) {
      InsertSorts(e, s[1..]);
      InsertKeeps(e, s[1..]);
      var rest := Insert(e, s[1..]);
      forall j | 0 <= j < |rest| ensures !Before(rest[j], s[0]) {
        assert rest[j] in multiset(rest);
        assert rest[j] == e || rest[j] in s[1..];
      }
    }
  }

  /** Sorting orders the evidence by creation time, then identifier, and keeps every item. */
  lemma {:induction false} SortSorts(s: seq<Evidence>)
    ensures Ordered(Sort(s)) && multiset(Sort(s)) == multiset(s)
    decreases |s|
  {
    if s != [] {
      SortSorts(s[1..]);
      InsertSorts(s[0], Sort(s[1..]));
      InsertKeeps(s[0], Sort(s[1..]));
      assert s == [s[0]] + s[1..];
    }
  }

  predicate StrictlyOrdered(s: seq<Evidence>) {
    forall i, j :: 0 <= i < j < |s| ==> Before(s[i], s[j])
  }

  lemma SameHead(s: seq<Evidence>, t: seq<Evidence>)
    requires StrictlyOrdered(s) && StrictlyOrdered(t) && |s| > 0 && |t| > 0
    requires s[0] in t && t[0] in s
    ensures s[0] == t[0]
  {
  }

  lemma NoMembersIsEmpty(s: seq<Evidence>)
    ensures s == [] <==> forall e :: e !in s
  {
    if s != [] { assert s[0] in s; }
  }

  lemma TailMembers(s: seq<Evidence>, e: Evidence)
    requires StrictlyOrdered(s) && s != []
    ensures e in s[1..] <==> e in s && e != s[0]
  {
    assert s == [s[0]] + s[1..];
  }

  lemma {:induction false} StrictOrderIsUnique(s: seq<Evidence>, t: seq<Evidence>)
    requires StrictlyOrdered(s) && StrictlyOrdered(t) && forall e :: e in s <==> e in t
    ensures s == t
    decreases |s|
  {
    NoMembersIsEmpty(s);
    NoMembersIsEmpty(t);
    if s != [] {
      assert s[0] in s && t[0] in t;
      SameHead(s, t);
      forall e ensures e in s[1..] <==> e in t[1..] {
        TailMembers(s, e);
        TailMembers(t, e);
      }
      StrictOrderIsUnique(s[1..], t[1..]);
    }
  }

  lemma {:induction false} DistinctKept(s: seq<Evidence>, t: seq<Evidence>)
    requires DistinctIds(s) && multiset(s) == multiset(t)
    ensures DistinctIds(t)
  {
    DistinctOnce(s);
    forall i, j | 0 <= i < j < |t| ensures t[i].id != t[j].id {
      assert t[i] in multiset(t) && t[j] in multiset(t);
      if t[i] == t[j] { Twice(t, i, j); }
    }
  }

  lemma Twice(t: seq<Evidence>, i: nat, j: nat)
    requires i < j < |t| && t[i] == t[j]
    ensures multiset(t)[t[i]] >= 2
  {
    var rest := t[..j] + t[j + 1..];
    assert t == t[..j] + [t[j]] + t[j + 1..];
    assert rest[i] in multiset(rest);
    assert multiset(t) == multiset(rest) + multiset{t[j]};
  }

  lemma {:induction false} DistinctOnce(s: seq<Evidence>)
    requires DistinctIds(s)
    ensures forall a, b :: a in multiset(s) && b in multiset(s) && a.id == b.id ==> a == b
    ensures forall a :: a in multiset(s) ==> multiset(s)[a] == 1
    decreases |s|
  {
    if s != [] {
      DistinctOnce(s[1..]);
      assert s == [s[0]] + s[1..];
      forall a | a in multiset(s[1..]) ensures a.id != s[0].id {
        assert a in s[1..];
      }
    }
  }

  lemma SortStrict(s: seq<Evidence>)
    requires DistinctIds(s)
    ensures StrictlyOrdered(Sort(s)) && multiset(Sort(s)) == multiset(s)
  {
    SortSorts(s);
    DistinctKept(s, Sort(s));
  }

  /** Listing the same evidence in another order changes neither the used keys nor their order. */
  lemma UsedKeysIgnoreListing(s: seq<Evidence>, t: seq<Evidence>)
    requires DistinctIds(s) && multiset(s) == multiset(t)
    ensures UsedKeys(s) == UsedKeys(t)
  {
    DistinctKept(s, t);
    SortStrict(s);
    SortStrict(t);
    forall e ensures e in Sort(s) <==> e in Sort(t) {
      assert e in Sort(s) <==> e in multiset(Sort(s));
      assert e in Sort(t) <==> e in multiset(Sort(t));
    }
    StrictOrderIsUnique(Sort(s), Sort(t));
  }

  // ---------- What the order means ----------

  predicate UsedAt(s: seq<Evidence>, key: TypedKey, i: nat) {
    i < |s| && s[i].key == key
  }

  predicate FirstAt(s: seq<Evidence>, key: TypedKey, i: nat) {
    UsedAt(s, key, i) && forall j :: 0 <= j < i ==> s[j].key != key
  }

  predicate IsUsed(s: seq<Evidence>, key: TypedKey) {
    exists i :: 0 <= i < |s| && s[i].key == key
  }

  lemma {:induction false} OrderedAreUsed(s: seq<Evidence>, key: TypedKey)
    ensures key in KeyOrder(s) <==> IsUsed(s, key)
    decreases |s|
  {
    if s != [] {
      var init, last := s[..|s| - 1], |s| - 1;
      OrderedAreUsed(init, key);
      if IsUsed(init, key) {
        var i :| 0 <= i < |init| && init[i].key == key;
        assert s[i].key == key;
      }
      if IsUsed(s, key) && s[last].key != key {
        var i :| 0 <= i < |s| && s[i].key == key;
        assert init[i].key == key;
      }
    }
  }

  lemma {:induction false} OrderedOnce(s: seq<Evidence>)
    ensures forall i, j :: 0 <= i < j < |KeyOrder(s)| ==> KeyOrder(s)[i] != KeyOrder(s)[j]
    decreases |s|
  {
    if s != [] { OrderedOnce(s[..|s| - 1]); }
  }

  /** A key that is used before is used first before as well. */
  lemma FirstAtInit(s: seq<Evidence>, key: TypedKey, p: nat)
    requires s != [] && FirstAt(s, key, p) && IsUsed(s[..|s| - 1], key)
    ensures FirstAt(s[..|s| - 1], key, p)
  {
    var i :| 0 <= i < |s| - 1 && s[..|s| - 1][i].key == key;
    assert s[i].key == key;
  }

  lemma EarlyIsUsed(s: seq<Evidence>, key: TypedKey, q: nat)
    requires UsedAt(s, key, q)
    ensures q < |s| - 1 ==> IsUsed(s[..|s| - 1], key)
  {
    if q < |s| - 1 { assert s[..|s| - 1][q].key == key; }
  }

  lemma {:induction false} OrderedByFirstUse(s: seq<Evidence>, i: nat, j: nat, p: nat, q: nat)
    requires i < j < |KeyOrder(s)| && FirstAt(s, KeyOrder(s)[i], p) && FirstAt(s, KeyOrder(s)[j], q)
    ensures p < q
    decreases |s|
  {
    var init := s[..|s| - 1];
    var o, order := KeyOrder(init), KeyOrder(s);
    assert order[i] == o[i] && o[i] in o;
    OrderedAreUsed(init, order[i]);
    FirstAtInit(s, order[i], p);
    OrderedAreUsed(init, order[j]);
    EarlyIsUsed(s, order[j], q);
    if j < |o| {
      assert order[j] == o[j] && o[j] in o;
      FirstAtInit(s, order[j], q);
      OrderedByFirstUse(init, i, j, p, q);
    } else {
      assert order[j] !in o;
    }
  }

  /** The used keys are exactly the keys of the evidence, each once, and a key stands before another
  exactly when its earliest item comes first by creation time and identifier. */
  lemma UsedKeysInFirstUseOrder(evidence: seq<Evidence>, i: nat, j: nat)
    requires DistinctIds(evidence) && i < j < |UsedKeys(evidence)|
    ensures UsedKeys(evidence)[i] != UsedKeys(evidence)[j]
    ensures exists a :: (a in evidence && a.key == UsedKeys(evidence)[i]
                         && forall b :: b in evidence && b.key == UsedKeys(evidence)[j] ==>
                               a.created < b.created || (a.created == b.created && a.id < b.id))
  {
    var s, keys := Sort(evidence), UsedKeys(evidence);
    SortStrict(evidence);
    OrderedOnce(s);
    assert keys[i] in keys && keys[j] in keys;
    OrderedAreUsed(s, keys[i]);
    OrderedAreUsed(s, keys[j]);
    var p := FirstIndex(s, keys[i]);
    var q := FirstIndex(s, keys[j]);
    OrderedByFirstUse(s, i, j, p, q);
    var a := s[p];
    assert a in multiset(s);
    forall b | b in evidence && b.key == keys[j] ensures Before(a, b) {
      assert b in multiset(evidence);
      assert b in multiset(s);
      var r :| 0 <= r < |s| && s[r] == b;
      assert p < q <= r;
    }
  }

  lemma {:induction false} FirstIndex(s: seq<Evidence>, key: TypedKey) returns (i: nat)
    requires IsUsed(s, key)
    ensures FirstAt(s, key, i)
    decreases |s|
  {
    if s[0].key == key {
      i := 0;
    } else {
      var j :| 0 <= j < |s| && s[j].key == key;
      assert s[1..][j - 1].key == key;
      var k := FirstIndex(s[1..], key);
      i := k + 1;
    }
  }

  lemma UsedKeysAreUsed(evidence: seq<Evidence>, key: TypedKey)
    ensures key in UsedKeys(evidence) <==> exists e :: e in evidence && e.key == key
  {
    SortSorts(evidence);
    OrderedAreUsed(Sort(evidence), key);
    if e :| e in evidence && e.key == key {
      assert e in multiset(evidence);
      assert e in Sort(evidence);
      var i :| 0 <= i < |Sort(evidence)| && Sort(evidence)[i] == e;
      assert Sort(evidence)[i].key == key;
    }
    if key in UsedKeys(evidence) {
      var i :| 0 <= i < |Sort(evidence)| && Sort(evidence)[i].key == key;
      assert Sort(evidence)[i] in multiset(evidence);
    }
  }
}
