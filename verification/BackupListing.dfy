/** Finding the newest remote backup over a paged listing. */
module BackupListing {
  import opened Prelude

  datatype Object = Object(key: string, size: nat, modified: int)

  /** One listed item is an archive object, or something to skip. */
  datatype Page = Page(items: seq<Option<Object>>, truncated: bool, token: bool)

  datatype ListError = Incomplete | Unlisted

  function Archives(items: seq<Option<Object>>): seq<Object> {
    if items == [] then []
    else
      var last := items[|items| - 1];
      Archives(items[..|items| - 1]) + (if last.Some? then [last.value] else [])
  }

  /** All archives up to the last page of the listing. */
  function Listed(pages: seq<Page>): seq<Object> {
    if pages == [] then []
    else Archives(pages[0].items) + (if pages[0].truncated then Listed(pages[1..]) else [])
  }

  /** Every page but the last continues with a token. */
  predicate Complete(pages: seq<Page>) {
    pages != [] && (pages[0].truncated ==> pages[0].token && Complete(pages[1..]))
  }

  /** Some page before the last one says that there is more and gives no token to go on with. */
  predicate BreaksOff(pages: seq<Page>) {
    pages != [] && pages[0].truncated && (!pages[0].token || BreaksOff(pages[1..]))
  }

  /** The first of the archives with the latest time. */
  ghost predicate IsNewest(newest: Option<Object>, all: seq<Object>) {
    match newest
    case None => all == []
    case Some(o) => exists k :: 0 <= k < |all| && all[k] == o && FirstLatest(all, k)
  }

  predicate FirstLatest(all: seq<Object>, k: nat)
    requires k < |all|
  {
    forall j :: 0 <= j < |all| ==> all[j].modified <= all[k].modified && (j < k ==> all[j].modified < all[k].modified)
  }

  lemma NewestExtends(newest: Option<Object>, all: seq<Object>, o: Object)
    requires IsNewest(newest, all)
    ensures IsNewest(if newest.None? || o.modified > newest.value.modified then Some(o) else newest, all + [o])
  {
    var more := all + [o];
    if newest.None? || o.modified > newest.value.modified {
      assert more[|all|] == o;
      assert FirstLatest(more, |all|);
    } else {
      var k :| 0 <= k < |all| && all[k] == newest.value && FirstLatest(all, k);
      assert more[k] == newest.value && FirstLatest(more, k);
    }
  }

  lemma ArchivesStep(items: seq<Option<Object>>, i: nat, seen: seq<Object>)
    requires i < |items|
    ensures seen + Archives(items[..i + 1])
         == if items[i].Some? then (seen + Archives(items[..i])) + [items[i].value] else seen + Archives(items[..i])
  {
    assert items[..i + 1][..i] == items[..i];
    if items[i].Some? {
      assert Archives(items[..i + 1]) == Archives(items[..i]) + [items[i].value];
    } else {
      assert Archives(items[..i + 1]) == Archives(items[..i]) + [];
    }
  }

  method NewestOnPage(newest: Option<Object>, items: seq<Option<Object>>,
                      ghost seen: seq<Object>) returns (r: Option<Object>)
    requires IsNewest(newest, seen)
    ensures IsNewest(r, seen + Archives(items))
  {
    r := newest;
    ghost var all := seen;
    assert seen + [] == seen;
    for i := 0 to |items|
      invariant all == seen + Archives(items[..i]) && IsNewest(r, all)
    {
      ArchivesStep(items, i, seen);
      if items[i].Some? {
        NewestExtends(r, all, items[i].value);
        all := all + [items[i].value];
        if r.None? || items[i].value.modified > r.value.modified {
          r := items[i];
        }
      }
    }
    assert items[..|items|] == items;
  }

  /** The pages still to read, after these archives were seen. */
  ghost predicate Reading(pages: seq<Page>, seen: seq<Object>, rest: seq<Page>) {
    && Listed(pages) == seen + Listed(rest)
    && (Complete(pages) <==> Complete(rest)) && (BreaksOff(pages) <==> BreaksOff(rest))
  }

  lemma ReadsOn(pages: seq<Page>, seen: seq<Object>, rest: seq<Page>)
    requires Reading(pages, seen, rest) && rest != [] && rest[0].truncated && rest[0].token
    ensures Reading(pages, seen + Archives(rest[0].items), rest[1..])
  {
    assert seen + (Archives(rest[0].items) + Listed(rest[1..])) == (seen + Archives(rest[0].items)) + Listed(rest[1..]);
  }

  lemma ReadsLast(pages: seq<Page>, seen: seq<Object>, rest: seq<Page>)
    requires Reading(pages, seen, rest) && rest != [] && !rest[0].truncated
    ensures Complete(pages) && Listed(pages) == seen + Archives(rest[0].items)
  {
    assert Archives(rest[0].items) + [] == Archives(rest[0].items);
  }

  /** Read page after page; a listing that breaks off is an error, never a wrong answer. */
  method Latest(pages: seq<Page>) returns (r: Result<Option<Object>, ListError>)
    ensures r.Ok? <==> Complete(pages)
    ensures r.Ok? ==> IsNewest(r.value, Listed(pages))
    ensures r == Err(Incomplete) <==> BreaksOff(pages)
  {
    var newest: Option<Object> := None;
    ghost var seen: seq<Object> := [];
    var rest := pages;
    assert [] + Listed(pages) == Listed(pages);
    while rest != []
      invariant Reading(pages, seen, rest) && IsNewest(newest, seen)
      decreases |rest|
    {
      newest := NewestOnPage(newest, rest[0].items, seen);
      if !rest[0].truncated {
        ReadsLast(pages, seen, rest);
        return Ok(newest);
      }
      if !rest[0].token {
        return Err(Incomplete);
      }
      ReadsOn(pages, seen, rest);
      seen, rest := seen + Archives(rest[0].items), rest[1..];
    }
    return Err(Unlisted);
  }
}
