/**
 * Turning listed items into displayable media: each item gets the path
 * `prefix/name`; all paths are signed in one batch; an item takes its
 * signed URL when the batch gave one, its public URL otherwise, and items
 * left without a URL are dropped.
 */
module Resolve {
  import opened Wrappers
  import opened Storage

  /** A listed item with its full object path. */
  datatype PathItem = PathItem(name: string, path: string)

  /** A displayable medium: its name, the URL to fetch it from, its object path. */
  datatype ResolvedMedia = ResolvedMedia(name: string, url: string, path: string)

  /** The object path of a listed item: its prefix, a slash, its name. */
  function PathOf(item: StorageItem): string {
    item.prefix + "/" + item.entry.name
  }

  /** The name a path gives to an object under a prefix, if the path lies under it. */
  function NameUnder(prefix: string, path: string): Option<string> {
    if |path| > |prefix| && path[..|prefix|] == prefix && path[|prefix|] == '/'
    then Some(path[|prefix| + 1..])
    else None
  }

  /** Every path splits back into the item's prefix and name. */
  lemma PathSplits(item: StorageItem)
    ensures NameUnder(item.prefix, PathOf(item)) == Some(item.entry.name)
  {
    var path := PathOf(item);
    assert path[..|item.prefix|] == item.prefix;
    assert path[|item.prefix| + 1..] == item.entry.name;
  }

  /** The listed items with their paths, one for one and in order. */
  function ToPathItems(items: seq<StorageItem>): seq<PathItem> {
    seq(|items|, i requires 0 <= i < |items| => PathItem(items[i].entry.name, PathOf(items[i])))
  }

  /**
   * Each listed item keeps its name, and its path splits back into its
   * prefix and that name.
   */
  lemma PathItemsSplit(items: seq<StorageItem>)
    ensures |ToPathItems(items)| == |items|
    ensures forall i :: 0 <= i < |items| ==>
      ToPathItems(items)[i].name == items[i].entry.name &&
      NameUnder(items[i].prefix, ToPathItems(items)[i].path) == Some(items[i].entry.name)
  {
    forall i | 0 <= i < |items|
      ensures NameUnder(items[i].prefix, ToPathItems(items)[i].path) == Some(items[i].entry.name)
    {
      PathSplits(items[i]);
    }
  }

  /** The paths of the items, in order: what the signed-URL batch is asked for. */
  function Paths(items: seq<PathItem>): seq<string> {
    seq(|items|, i requires 0 <= i < |items| => items[i].path)
  }

  /** A batch entry carries a signed URL for this path. */
  predicate Signs(e: SignedEntry, path: string) {
    e.path == path && e.signedUrl != ""
  }

  /** The path-to-URL map the batch entries give, taken in order, later entries overwriting. */
  function SignedMap(entries: seq<SignedEntry>): map<string, string> {
    if entries == [] then map[]
    else
      var m := SignedMap(entries[..|entries| - 1]);
      var e := entries[|entries| - 1];
      if e.signedUrl != "" then m[e.path := e.signedUrl] else m
  }

  /** The batch is used only when it reports no error and carries data. */
  predicate Usable(resp: SignedResponse) {
    resp.error.None? && resp.data.Some?
  }

  /** The URL map of a batch response: empty unless the batch is usable. */
  function UrlMap(resp: SignedResponse): map<string, string> {
    if Usable(resp) then SignedMap(resp.data.value) else map[]
  }

  /** Fills the URL map entry by entry from the batch response. */
  method BuildUrlMap(resp: SignedResponse) returns (urlMap: map<string, string>)
    ensures urlMap == UrlMap(resp)
  {
    urlMap := map[];
    if resp.error.None? && resp.data.Some? {
      var entries := resp.data.value;
      for i := 0 to |entries|
        invariant urlMap == SignedMap(entries[..i])
      {
        var entry := entries[i];
        assert entries[..i + 1][..i] == entries[..i];
        if entry.signedUrl != "" {
          urlMap := urlMap[entry.path := entry.signedUrl];
        }
      }
      assert entries[..|entries|] == entries;
    }
  }

  /**
   * A path is in the map exactly when some entry signs it; its URL is the
   * one of the last entry that does.
   */
  lemma {:induction false} SignedMapLastWins(entries: seq<SignedEntry>, path: string)
    ensures path in SignedMap(entries) <==> exists i :: 0 <= i < |entries| && Signs(entries[i], path)
    ensures path in SignedMap(entries) ==>
      SignedMap(entries)[path] == entries[LastSigning(entries, path)].signedUrl
  {
    if entries != [] {
      var n := |entries| - 1;
      var init := entries[..n];
      SignedMapLastWins(init, path);
      assert forall i :: 0 <= i < n ==> init[i] == entries[i];
      if !Signs(entries[n], path) && exists i :: 0 <= i < |entries| && Signs(entries[i], path) {
        var i :| 0 <= i < |entries| && Signs(entries[i], path);
        assert init[i] == entries[i];
      }
    }
  }

  /** Every URL in the map is non-empty. */
  lemma {:induction false} SignedMapNonEmpty(entries: seq<SignedEntry>)
    ensures forall path :: path in SignedMap(entries) ==> SignedMap(entries)[path] != ""
  {
    if entries != [] {
      SignedMapNonEmpty(entries[..|entries| - 1]);
    }
  }

  /** The URL of one path: the signed one if any, else the public one (empty for none). */
  function ResolveUrl(urlMap: map<string, string>, publicUrl: string -> string, path: string): string {
    var signed := if path in urlMap then urlMap[path] else "";
    if signed != "" then signed else publicUrl(path)
  }

  function Resolved(item: PathItem, urlMap: map<string, string>, publicUrl: string -> string): ResolvedMedia {
    ResolvedMedia(item.name, ResolveUrl(urlMap, publicUrl, item.path), item.path)
  }

  /** Every item with its URL, keeping only the items whose URL is non-empty, in order. */
  function ResolveAll(items: seq<PathItem>, urlMap: map<string, string>, publicUrl: string -> string): seq<ResolvedMedia> {
    if items == [] then []
    else
      var first := Resolved(items[0], urlMap, publicUrl);
      (if first.url != "" then [first] else []) + ResolveAll(items[1..], urlMap, publicUrl)
  }

  /**
   * The URL an item ends up with: when the batch is usable and some entry
   * signs its path, the signed URL of the last such entry; otherwise, for
   * that path alone, its public URL.
   */
  lemma ChosenUrl(resp: SignedResponse, publicUrl: string -> string, path: string)
    ensures Usable(resp) && (exists i :: 0 <= i < |resp.data.value| && Signs(resp.data.value[i], path)) ==>
      ResolveUrl(UrlMap(resp), publicUrl, path) == resp.data.value[LastSigning(resp.data.value, path)].signedUrl
    ensures !(Usable(resp) && exists i :: 0 <= i < |resp.data.value| && Signs(resp.data.value[i], path)) ==>
      ResolveUrl(UrlMap(resp), publicUrl, path) == publicUrl(path)
  {
    if Usable(resp) {
      var entries := resp.data.value;
      SignedMapLastWins(entries, path);
      SignedMapNonEmpty(entries);
    }
  }

  /** The index of the last entry that signs the path. */
  function LastSigning(entries: seq<SignedEntry>, path: string): (k: nat)
    requires exists i :: 0 <= i < |entries| && Signs(entries[i], path)
    ensures k < |entries| && Signs(entries[k], path)
    ensures forall j :: k < j < |entries| ==> !Signs(entries[j], path)
  {
    var n := |entries| - 1;
    if Signs(entries[n], path) then n
    else
      assert forall i :: 0 <= i < n ==> entries[..n][i] == entries[i];
      LastSigning(entries[..n], path)
  }

  /** The resolved list holds exactly the items whose URL is non-empty, each with its URL. */
  lemma {:induction false} ResolveAllMembers(items: seq<PathItem>, urlMap: map<string, string>, publicUrl: string -> string, m: ResolvedMedia)
    ensures m in ResolveAll(items, urlMap, publicUrl) <==>
      exists i :: 0 <= i < |items| && m == Resolved(items[i], urlMap, publicUrl) && m.url != ""
  {
    if items != [] {
      ResolveAllMembers(items[1..], urlMap, publicUrl, m);
      if exists i :: 0 <= i < |items| && m == Resolved(items[i], urlMap, publicUrl) && m.url != "" {
        var i :| 0 <= i < |items| && m == Resolved(items[i], urlMap, publicUrl) && m.url != "";
        if i > 0 {
          assert items[1..][i - 1] == items[i];
        }
      }
    }
  }

  /** Nothing is left exactly when no item has a URL. */
  lemma {:induction false} ResolveAllEmpty(items: seq<PathItem>, urlMap: map<string, string>, publicUrl: string -> string)
    ensures ResolveAll(items, urlMap, publicUrl) == [] <==>
      forall i :: 0 <= i < |items| ==> ResolveUrl(urlMap, publicUrl, items[i].path) == ""
  {
    if items != [] {
      ResolveAllEmpty(items[1..], urlMap, publicUrl);
      assert forall i :: 1 <= i < |items| ==> items[1..][i - 1] == items[i];
    }
  }

  /** Resolving keeps order: the items of a longer list come after those of its front part. */
  lemma {:induction false} ResolveAllAppend(xs: seq<PathItem>, ys: seq<PathItem>, urlMap: map<string, string>, publicUrl: string -> string)
    ensures ResolveAll(xs + ys, urlMap, publicUrl) == ResolveAll(xs, urlMap, publicUrl) + ResolveAll(ys, urlMap, publicUrl)
  {
    if xs == [] {
      assert xs + ys == ys;
    } else {
      assert (xs + ys)[1..] == xs[1..] + ys;
      ResolveAllAppend(xs[1..], ys, urlMap, publicUrl);
    }
  }
}
