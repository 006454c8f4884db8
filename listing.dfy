/**
 * Listing the media objects of a bucket: every prefix is paged through in
 * pages of PAGE_SIZE until a page comes back empty or short, and every
 * entry that has a name and an id or metadata is kept, tagged with the
 * prefix it was found under. The first listing error ends the whole listing.
 */
module Listing {
  import opened Wrappers
  import opened Storage

  /** An entry is a real object: a name, and an id or metadata. */
  predicate Keep(e: Entry) {
    e.name != "" && (e.id != "" || e.metadata.Some?)
  }

  /** The entries of a page that are kept, in page order. */
  function Kept(entries: seq<Entry>): seq<Entry> {
    if entries == [] then []
    else (if Keep(entries[0]) then [entries[0]] else []) + Kept(entries[1..])
  }

  /** The entries as listing items of one prefix. */
  function Tagged(entries: seq<Entry>, prefix: string): seq<StorageItem> {
    seq(|entries|, i requires 0 <= i < |entries| => StorageItem(entries[i], prefix))
  }

  /** Items gathered so far followed by what a later listing gives. */
  function Append(items: seq<StorageItem>, rest: Result<seq<StorageItem>, StorageError>): Result<seq<StorageItem>, StorageError> {
    match rest
    case Ok(more) => Ok(items + more)
    case Err(e) => Err(e)
  }

  /**
   * The items of one prefix from an offset on: one page is asked for; an
   * error ends the listing; an empty page ends it; otherwise the kept
   * entries are taken, and unless the page was short the next page is
   * asked for at the offset moved by the whole page.
   */
  function ListFrom(b: Bucket, prefix: string, offset: nat): Result<seq<StorageItem>, StorageError>
    decreases |Objects(b, prefix)| - offset
  {
    match ListPage(b, prefix, offset)
    case Err(e) => Err(e)
    case Ok(data) =>
      if |data| == 0 then Ok([])
      else
        var items := Tagged(Kept(data), prefix);
        if |data| < PAGE_SIZE then Ok(items)
        else Append(items, ListFrom(b, prefix, offset + |data|))
  }

  /** The page requests ListFrom makes, in order. */
  function RequestsFrom(b: Bucket, prefix: string, offset: nat): seq<PageRequest>
    decreases |Objects(b, prefix)| - offset
  {
    [PageRequest(prefix, offset)] +
    match ListPage(b, prefix, offset)
    case Err(_) => []
    case Ok(data) =>
      if |data| == 0 || |data| < PAGE_SIZE then []
      else RequestsFrom(b, prefix, offset + |data|)
  }

  /** All prefixes in order; the first error is the result. */
  function ListAll(b: Bucket, prefixes: seq<string>): Result<seq<StorageItem>, StorageError> {
    if prefixes == [] then Ok([])
    else
      match ListAll(b, prefixes[..|prefixes| - 1])
      case Err(e) => Err(e)
      case Ok(items) => Append(items, ListFrom(b, prefixes[|prefixes| - 1], 0))
  }

  /** The page requests ListAll makes, in order; none follow an error. */
  function RequestsAll(b: Bucket, prefixes: seq<string>): seq<PageRequest> {
    if prefixes == [] then []
    else
      var init := prefixes[..|prefixes| - 1];
      if ListAll(b, init).Err? then RequestsAll(b, init)
      else RequestsAll(b, init) + RequestsFrom(b, prefixes[|prefixes| - 1], 0)
  }

  /** What the listing gives a client: nothing, and no error, when it is not configured. */
  function ListStorage(c: Client, prefixes: seq<string>): Result<seq<StorageItem>, StorageError> {
    if !c.Configured() then Ok([]) else ListAll(c.bucket, prefixes)
  }

  /** The page requests ListStorage makes: none when the client is not configured. */
  function Requests(c: Client, prefixes: seq<string>): seq<PageRequest> {
    if !c.Configured() then [] else RequestsAll(c.bucket, prefixes)
  }

  /** Reference: the kept objects of every prefix, in prefix order. */
  function Expected(b: Bucket, prefixes: seq<string>): seq<StorageItem> {
    if prefixes == [] then []
    else
      var last := prefixes[|prefixes| - 1];
      Expected(b, prefixes[..|prefixes| - 1]) + Tagged(Kept(Objects(b, last)), last)
  }

  /** No listing request for this prefix is rejected. */
  ghost predicate Reliable(b: Bucket, prefix: string) {
    forall offset: nat :: !Faults(b, prefix, offset)
  }

  /**
   * The listing of the storage client: every prefix in turn, page after
   * page; returns only the error of the first rejected request. The ghost
   * `requests` is the sequence of listing calls made.
   */
  method ListStorageItems(c: Client, prefixes: seq<string>)
    returns (r: Result<seq<StorageItem>, StorageError>, ghost requests: seq<PageRequest>)
    ensures r == ListStorage(c, prefixes)
    ensures requests == Requests(c, prefixes)
  {
    requests := [];
    if !c.Configured() {
      return Ok([]), requests;
    }
    var b := c.bucket;
    var allItems: seq<StorageItem> := [];
    for i := 0 to |prefixes|
      invariant ListAll(b, prefixes[..i]) == Ok(allItems)
      invariant requests == RequestsAll(b, prefixes[..i])
    {
      var prefix := prefixes[i];
      var offset: nat := 0;
      ghost var listed := ListAll(b, prefixes[..i + 1]);
      ghost var asked := RequestsAll(b, prefixes[..i + 1]);
      ListAllNext(b, prefixes, i);
      while true
        invariant listed == Append(allItems, ListFrom(b, prefix, offset))
        invariant asked == requests + RequestsFrom(b, prefix, offset)
        decreases |Objects(b, prefix)| - offset
      {
        var page := ListPage(b, prefix, offset);
        ListFromStep(b, prefix, offset);
        requests := requests + [PageRequest(prefix, offset)];
        if page.Err? {
          ErrorEndsListing(b, prefixes, i + 1);
          return Err(page.error), requests;
        }
        var data := page.value;
        if |data| == 0 {
          assert allItems + [] == allItems;
          break;
        }
        var kept := Tagged(Kept(data), prefix);
        if |data| < PAGE_SIZE {
          assert listed == Ok(allItems + kept);
          allItems := allItems + kept;
          break;
        }
        assert ListFrom(b, prefix, offset) == Append(kept, ListFrom(b, prefix, offset + |data|));
        AppendAppend(allItems, kept, ListFrom(b, prefix, offset + |data|));
        allItems := allItems + kept;
        offset := offset + |data|;
      }
    }
    assert prefixes[..|prefixes|] == prefixes;
    r := Ok(allItems);
  }

  /** Listing one more prefix after the first i. */
  lemma ListAllNext(b: Bucket, prefixes: seq<string>, i: nat)
    requires i < |prefixes|
    ensures ListAll(b, prefixes[..i]).Err? ==>
      ListAll(b, prefixes[..i + 1]) == ListAll(b, prefixes[..i]) &&
      RequestsAll(b, prefixes[..i + 1]) == RequestsAll(b, prefixes[..i])
    ensures ListAll(b, prefixes[..i]).Ok? ==>
      ListAll(b, prefixes[..i + 1]) == Append(ListAll(b, prefixes[..i]).value, ListFrom(b, prefixes[i], 0)) &&
      RequestsAll(b, prefixes[..i + 1]) == RequestsAll(b, prefixes[..i]) + RequestsFrom(b, prefixes[i], 0)
  {
    var next := prefixes[..i + 1];
    assert next[..|next| - 1] == prefixes[..i];
    assert next[|next| - 1] == prefixes[i];
  }

  lemma AppendAppend(xs: seq<StorageItem>, ys: seq<StorageItem>, rest: Result<seq<StorageItem>, StorageError>)
    ensures Append(xs, Append(ys, rest)) == Append(xs + ys, rest)
  {
    if rest.Ok? {
      assert xs + (ys + rest.value) == (xs + ys) + rest.value;
    }
  }

  /** One page of ListFrom and RequestsFrom, unfolded. */
  lemma ListFromStep(b: Bucket, prefix: string, offset: nat)
    ensures ListPage(b, prefix, offset).Err? ==>
      ListFrom(b, prefix, offset) == Err(ListPage(b, prefix, offset).error) &&
      RequestsFrom(b, prefix, offset) == [PageRequest(prefix, offset)]
    ensures ListPage(b, prefix, offset) == Ok([]) ==>
      ListFrom(b, prefix, offset) == Ok([]) &&
      RequestsFrom(b, prefix, offset) == [PageRequest(prefix, offset)]
    ensures ListPage(b, prefix, offset).Ok? && 0 < |ListPage(b, prefix, offset).value| < PAGE_SIZE ==>
      ListFrom(b, prefix, offset) == Ok(Tagged(Kept(ListPage(b, prefix, offset).value), prefix)) &&
      RequestsFrom(b, prefix, offset) == [PageRequest(prefix, offset)]
    ensures ListPage(b, prefix, offset).Ok? && |ListPage(b, prefix, offset).value| == PAGE_SIZE ==>
      ListFrom(b, prefix, offset) ==
        Append(Tagged(Kept(ListPage(b, prefix, offset).value), prefix), ListFrom(b, prefix, offset + PAGE_SIZE)) &&
      RequestsFrom(b, prefix, offset) == [PageRequest(prefix, offset)] + RequestsFrom(b, prefix, offset + PAGE_SIZE)
  {
  }

  /** Once the listing of the first k prefixes fails, the later prefixes add nothing. */
  lemma {:induction false} ErrorEndsListing(b: Bucket, prefixes: seq<string>, k: nat)
    requires k <= |prefixes|
    requires ListAll(b, prefixes[..k]).Err?
    ensures ListAll(b, prefixes) == ListAll(b, prefixes[..k])
    ensures RequestsAll(b, prefixes) == RequestsAll(b, prefixes[..k])
    decreases |prefixes| - k
  {
    if k == |prefixes| {
      assert prefixes[..k] == prefixes;
    } else {
      var init := prefixes[..|prefixes| - 1];
      assert init[..k] == prefixes[..k];
      ErrorEndsListing(b, init, k);
    }
  }

  lemma {:induction false} KeptAppend(xs: seq<Entry>, ys: seq<Entry>)
    ensures Kept(xs + ys) == Kept(xs) + Kept(ys)
  {
    if xs != [] {
      assert (xs + ys)[1..] == xs[1..] + ys;
      KeptAppend(xs[1..], ys);
    } else {
      assert xs + ys == ys;
    }
  }

  /** The filter keeps exactly the entries that are real objects, and only those. */
  lemma {:induction false} KeptMembers(entries: seq<Entry>)
    ensures |Kept(entries)| <= |entries|
    ensures forall e :: e in Kept(entries) <==> e in entries && Keep(e)
  {
    if entries != [] {
      KeptMembers(entries[1..]);
      assert entries == [entries[0]] + entries[1..];
    }
  }

  lemma TaggedAppend(xs: seq<Entry>, ys: seq<Entry>, prefix: string)
    ensures Tagged(xs + ys, prefix) == Tagged(xs, prefix) + Tagged(ys, prefix)
  {
  }

  /**
   * A listing of one prefix that succeeds holds exactly the kept objects
   * from the offset on, in listing order: the pages together cover the
   * objects, whatever the filter dropped from each page.
   */
  lemma {:induction false} ListFromExact(b: Bucket, prefix: string, offset: nat)
    requires offset <= |Objects(b, prefix)|
    requires ListFrom(b, prefix, offset).Ok?
    ensures ListFrom(b, prefix, offset).value == Tagged(Kept(Objects(b, prefix)[offset..]), prefix)
    decreases |Objects(b, prefix)| - offset
  {
    var all := Objects(b, prefix);
    ListFromStep(b, prefix, offset);
    PageContents(b, prefix, offset);
    var data := ListPage(b, prefix, offset).value;
    if |data| == 0 {
      assert all[offset..] == [];
    } else if |data| < PAGE_SIZE {
      assert all[offset..] == data;
    } else {
      var next := offset + PAGE_SIZE;
      ListFromExact(b, prefix, next);
      assert all[offset..] == data + all[next..];
      KeptAppend(data, all[next..]);
      TaggedAppend(Kept(data), Kept(all[next..]), prefix);
    }
  }

  /** A listing that succeeds holds exactly the kept objects of every prefix, prefix by prefix. */
  lemma {:induction false} ListAllExact(b: Bucket, prefixes: seq<string>)
    requires ListAll(b, prefixes).Ok?
    ensures ListAll(b, prefixes).value == Expected(b, prefixes)
  {
    if prefixes != [] {
      var init := prefixes[..|prefixes| - 1];
      var last := prefixes[|prefixes| - 1];
      ListAllExact(b, init);
      ListFromExact(b, last, 0);
      assert Objects(b, last)[0..] == Objects(b, last);
    }
  }

  /** A prefix whose requests are never rejected is listed without error. */
  lemma {:induction false} ReliableListFrom(b: Bucket, prefix: string, offset: nat)
    requires Reliable(b, prefix)
    ensures ListFrom(b, prefix, offset).Ok?
    decreases |Objects(b, prefix)| - offset
  {
    assert !Faults(b, prefix, offset);
    ListFromStep(b, prefix, offset);
    var data := ListPage(b, prefix, offset).value;
    if |data| == PAGE_SIZE {
      ReliableListFrom(b, prefix, offset + PAGE_SIZE);
    }
  }

  /** When no request is rejected, the listing is exactly the reference one. */
  lemma {:induction false} ReliableListAll(b: Bucket, prefixes: seq<string>)
    requires forall p :: p in prefixes ==> Reliable(b, p)
    ensures ListAll(b, prefixes) == Ok(Expected(b, prefixes))
  {
    if prefixes != [] {
      var init := prefixes[..|prefixes| - 1];
      var last := prefixes[|prefixes| - 1];
      assert forall p :: p in init ==> p in prefixes;
      ReliableListAll(b, init);
      ReliableListFrom(b, last, 0);
      ListAllExact(b, prefixes);
    }
  }

  /**
   * The reference listing holds an item exactly when its prefix is one of
   * the prefixes, its entry is stored under that prefix and it is kept.
   */
  lemma {:induction false} ExpectedItems(b: Bucket, prefixes: seq<string>, x: StorageItem)
    ensures x in Expected(b, prefixes) <==>
      x.prefix in prefixes && x.entry in Objects(b, x.prefix) && Keep(x.entry)
  {
    if prefixes != [] {
      var init := prefixes[..|prefixes| - 1];
      var last := prefixes[|prefixes| - 1];
      ExpectedItems(b, init, x);
      assert prefixes == init + [last];
      var tagged := Tagged(Kept(Objects(b, last)), last);
      KeptMembers(Objects(b, last));
      if x.prefix == last && x.entry in Objects(b, last) && Keep(x.entry) {
        var k :| 0 <= k < |Kept(Objects(b, last))| && Kept(Objects(b, last))[k] == x.entry;
        assert tagged[k] == x;
      }
    }
  }

  /**
   * A listing of one prefix fails exactly when one of its requests was
   * rejected: then the rejected one is the last, every earlier request was
   * answered, and its error is the result.
   */
  lemma {:induction false} ListFromError(b: Bucket, prefix: string, offset: nat)
    ensures var asked := RequestsFrom(b, prefix, offset);
      |asked| > 0 && asked[0] == PageRequest(prefix, offset)
    ensures var asked := RequestsFrom(b, prefix, offset);
      ListFrom(b, prefix, offset).Ok? ==> forall rq :: rq in asked ==> rq !in b.faults
    ensures var asked := RequestsFrom(b, prefix, offset);
      ListFrom(b, prefix, offset).Err? ==>
        asked[|asked| - 1] in b.faults && b.faults[asked[|asked| - 1]] == ListFrom(b, prefix, offset).error
    ensures var asked := RequestsFrom(b, prefix, offset);
      forall j :: 0 <= j < |asked| - 1 ==> asked[j] !in b.faults
    decreases |Objects(b, prefix)| - offset
  {
    ListFromStep(b, prefix, offset);
    var page := ListPage(b, prefix, offset);
    if page.Ok? && |page.value| == PAGE_SIZE {
      ListFromError(b, prefix, offset + PAGE_SIZE);
    }
  }

  /**
   * The whole listing fails exactly when one of the requests it made was
   * rejected; every request but the last was answered, so the first
   * rejection ends the listing, and the error it returns is the answer to
   * that last request.
   */
  lemma {:induction false} ListAllError(b: Bucket, prefixes: seq<string>)
    ensures ListAll(b, prefixes).Ok? ==>
      forall rq :: rq in RequestsAll(b, prefixes) ==> rq !in b.faults
    ensures ListAll(b, prefixes).Err? ==>
      var asked := RequestsAll(b, prefixes);
      |asked| > 0 && asked[|asked| - 1] in b.faults &&
      b.faults[asked[|asked| - 1]] == ListAll(b, prefixes).error
    ensures var asked := RequestsAll(b, prefixes);
      forall j :: 0 <= j < |asked| - 1 ==> asked[j] !in b.faults
  {
    if prefixes != [] {
      var init := prefixes[..|prefixes| - 1];
      var last := prefixes[|prefixes| - 1];
      ListAllError(b, init);
      ListFromError(b, last, 0);
    }
  }

  /**
   * On a prefix whose requests all succeed, from the page at offset
   * PAGE_SIZE * m on, the offsets asked for are PAGE_SIZE * m,
   * PAGE_SIZE * (m + 1), ... up to the first page that is empty or short:
   * the offset grows by whole raw pages, filtered-out entries included.
   */
  lemma {:induction false} RequestOffsets(b: Bucket, prefix: string, m: nat)
    requires Reliable(b, prefix)
    requires PAGE_SIZE * m <= |Objects(b, prefix)|
    ensures var asked := RequestsFrom(b, prefix, PAGE_SIZE * m);
      && |asked| == |Objects(b, prefix)| / PAGE_SIZE - m + 1
      && forall j :: 0 <= j < |asked| ==> asked[j] == PageRequest(prefix, PAGE_SIZE * (m + j))
    decreases |Objects(b, prefix)| - PAGE_SIZE * m
  {
    var n := |Objects(b, prefix)|;
    var offset := PAGE_SIZE * m;
    assert !Faults(b, prefix, offset);
    ListFromStep(b, prefix, offset);
    PageContents(b, prefix, offset);
    var data := ListPage(b, prefix, offset).value;
    if |data| == PAGE_SIZE {
      RequestOffsets(b, prefix, m + 1);
      assert n / PAGE_SIZE - (m + 1) + 1 + 1 == n / PAGE_SIZE - m + 1;
    } else {
      assert n - offset < PAGE_SIZE;
      assert n / PAGE_SIZE == m;
    }
  }

  /**
   * A prefix holding exactly one full page is asked for twice, at offsets
   * 0 and PAGE_SIZE, and lists all of its kept objects.
   */
  lemma OneFullPage(b: Bucket, prefix: string)
    requires Reliable(b, prefix)
    requires |Objects(b, prefix)| == PAGE_SIZE
    ensures RequestsFrom(b, prefix, 0) == [PageRequest(prefix, 0), PageRequest(prefix, PAGE_SIZE)]
    ensures ListFrom(b, prefix, 0) == Ok(Tagged(Kept(Objects(b, prefix)), prefix))
  {
    RequestOffsets(b, prefix, 0);
    ReliableListFrom(b, prefix, 0);
    ListFromExact(b, prefix, 0);
    assert Objects(b, prefix)[0..] == Objects(b, prefix);
  }
}
