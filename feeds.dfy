/**
 * The two media feeds of the page, images and videos: each loads its
 * prefixes through the listing and URL resolution and drives a status
 * through idle, loading, success and error, with a message.
 */
module Feeds {
  import opened Wrappers
  import opened Storage
  import opened Listing
  import opened Resolve

  const GALLERY_PREFIXES: seq<string> := ["uploads/images", "images"]
  const GALLERY_NOT_FOUND: string := "No accessible images found in storage."
  const VIDEO_PREFIXES: seq<string> := ["uploads/videos", "videos"]
  const VIDEO_NOT_FOUND: string := "No accessible videos found in storage."

  datatype LoadState = Idle | Loading | Success | Error

  /** The state and message a feed shows at one moment. */
  datatype Status = Status(state: LoadState, message: string)

  /** How a load ends. */
  datatype Outcome = Unconfigured | Failed(message: string) | Loaded(media: seq<ResolvedMedia>)

  /**
   * The end of a load: idle without storage; the listing error's message;
   * an empty success for an empty listing; the not-found message when no
   * listed item has a URL; otherwise the resolved media.
   */
  function LoadOutcome(c: Client, prefixes: seq<string>, notFound: string): Outcome {
    if !c.Configured() then Unconfigured
    else
      match ListStorage(c, prefixes)
      case Err(e) => Failed(e.message)
      case Ok(all) =>
        if all == [] then Loaded([])
        else
          var pathItems := ToPathItems(all);
          var resp := c.sign(Paths(pathItems), SIGNED_URL_EXPIRY);
          var media := ResolveAll(pathItems, UrlMap(resp), c.publicUrl);
          if media == [] then Failed(notFound) else Loaded(media)
  }

  /**
   * The items and status a feed shows after a load ending in `o`, given the
   * items and message it showed before: idle with no items and the message
   * untouched; an error with the old items; a success with the media and no
   * message.
   */
  function Shown(o: Outcome, items: seq<ResolvedMedia>, message: string): (seq<ResolvedMedia>, Status) {
    match o
    case Unconfigured => ([], Status(Idle, message))
    case Failed(m) => (items, Status(Error, m))
    case Loaded(media) => (media, Status(Success, ""))
  }

  /** The URL the load resolves for one listed item. */
  function ItemUrl(c: Client, all: seq<StorageItem>, item: StorageItem): string {
    ResolveUrl(UrlMap(c.sign(Paths(ToPathItems(all)), SIGNED_URL_EXPIRY)), c.publicUrl, PathOf(item))
  }

  /** One feed: its prefixes and not-found message, and the items, state and message it shows. */
  class Feed {
    const prefixes: seq<string>
    const notFoundMessage: string
    var items: seq<ResolvedMedia>
    var state: LoadState
    var message: string
    /** Every status the feed has shown, one per group of updates. */
    ghost var history: seq<Status>

    constructor Gallery()
      ensures prefixes == GALLERY_PREFIXES && notFoundMessage == GALLERY_NOT_FOUND
      ensures items == [] && state == Idle && message == "" && history == []
    {
      prefixes := GALLERY_PREFIXES;
      notFoundMessage := GALLERY_NOT_FOUND;
      items, state, message := [], Idle, "";
      history := [];
    }

    constructor Videos()
      ensures prefixes == VIDEO_PREFIXES && notFoundMessage == VIDEO_NOT_FOUND
      ensures items == [] && state == Idle && message == "" && history == []
    {
      prefixes := VIDEO_PREFIXES;
      notFoundMessage := VIDEO_NOT_FOUND;
      items, state, message := [], Idle, "";
      history := [];
    }

    /**
     * Loads the feed. Without storage it clears the items and goes idle,
     * the message untouched; otherwise it first shows loading with no
     * message and then ends as LoadOutcome says, keeping its old items on
     * an error.
     */
    method Load(c: Client)
      modifies this
      ensures (items, Status(state, message)) == Shown(LoadOutcome(c, prefixes, notFoundMessage), old(items), old(message))
      ensures !c.Configured() ==> history == old(history) + [Status(Idle, old(message))]
      ensures c.Configured() ==> history == old(history) + [Status(Loading, ""), Status(state, message)]
    {
      if !c.Configured() {
        items := [];
        state := Idle;
        history := history + [Status(state, message)];
        return;
      }
      state := Loading;
      message := "";
      history := history + [Status(state, message)];
      var listed, requests := ListStorageItems(c, prefixes);
      ghost var outcome := LoadOutcome(c, prefixes, notFoundMessage);
      if listed.Err? {
        assert outcome == Failed(listed.error.message);
        state := Error;
        message := listed.error.message;
        history := history + [Status(state, message)];
        return;
      }
      var allItems := listed.value;
      if |allItems| == 0 {
        assert outcome == Loaded([]);
        items := [];
        state := Success;
        message := "";
        history := history + [Status(state, message)];
        return;
      }
      var pathItems := ToPathItems(allItems);
      var resp := c.sign(Paths(pathItems), SIGNED_URL_EXPIRY);
      var urlMap := BuildUrlMap(resp);
      var media := ResolveAll(pathItems, urlMap, c.publicUrl);
      assert outcome == if media == [] then Failed(notFoundMessage) else Loaded(media);
      if |media| == 0 {
        state := Error;
        message := notFoundMessage;
        history := history + [Status(state, message)];
        return;
      }
      items := media;
      state := Success;
      message := "";
      history := history + [Status(state, message)];
    }
  }

  /**
   * How a load ends, case by case: idle exactly without storage; a listing
   * error gives its message; an empty listing an empty success; a non-empty
   * listing fails with the not-found message when no listed item resolves to
   * a URL, and otherwise succeeds with the resolved media.
   */
  lemma OutcomeCases(c: Client, prefixes: seq<string>, notFound: string)
    ensures LoadOutcome(c, prefixes, notFound) == Unconfigured <==> !c.Configured()
    ensures c.Configured() && ListStorage(c, prefixes).Err? ==>
      LoadOutcome(c, prefixes, notFound) == Failed(ListStorage(c, prefixes).error.message)
    ensures c.Configured() && ListStorage(c, prefixes) == Ok([]) ==>
      LoadOutcome(c, prefixes, notFound) == Loaded([])
    ensures c.Configured() && ListStorage(c, prefixes).Ok? && ListStorage(c, prefixes).value != [] ==>
      var all := ListStorage(c, prefixes).value;
      var pathItems := ToPathItems(all);
      var resp := c.sign(Paths(pathItems), SIGNED_URL_EXPIRY);
      LoadOutcome(c, prefixes, notFound) ==
        if forall i :: 0 <= i < |all| ==> ItemUrl(c, all, all[i]) == ""
        then Failed(notFound)
        else Loaded(ResolveAll(pathItems, UrlMap(resp), c.publicUrl))
  {
    if c.Configured() && ListStorage(c, prefixes).Ok? && ListStorage(c, prefixes).value != [] {
      var all := ListStorage(c, prefixes).value;
      var pathItems := ToPathItems(all);
      var resp := c.sign(Paths(pathItems), SIGNED_URL_EXPIRY);
      ResolveAllEmpty(pathItems, UrlMap(resp), c.publicUrl);
      assert |pathItems| == |all|;
      assert forall i :: 0 <= i < |all| ==> pathItems[i].path == PathOf(all[i]);
    }
  }

  /**
   * Every medium a load shows comes from a stored object that is kept by
   * the listing filter under one of the feed's prefixes: its name is the
   * object's name, its path the prefix, a slash and the name, and its URL
   * is the non-empty one resolved for that object.
   */
  lemma LoadedMedia(c: Client, prefixes: seq<string>, notFound: string, m: ResolvedMedia)
    requires LoadOutcome(c, prefixes, notFound).Loaded?
    requires m in LoadOutcome(c, prefixes, notFound).media
    ensures m.url != ""
    ensures exists item: StorageItem ::
      && item.prefix in prefixes
      && item.entry in Objects(c.bucket, item.prefix)
      && Keep(item.entry)
      && m.name == item.entry.name
      && m.path == PathOf(item)
      && m.url == ItemUrl(c, ListStorage(c, prefixes).value, item)
  {
    var all := ListStorage(c, prefixes).value;
    var pathItems := ToPathItems(all);
    var resp := c.sign(Paths(pathItems), SIGNED_URL_EXPIRY);
    ResolveAllMembers(pathItems, UrlMap(resp), c.publicUrl, m);
    var i :| 0 <= i < |pathItems| && m == Resolved(pathItems[i], UrlMap(resp), c.publicUrl) && m.url != "";
    var item := all[i];
    ListAllExact(c.bucket, prefixes);
    ExpectedItems(c.bucket, prefixes, item);
    assert item in all;
  }

  /**
   * Every kept object under the feed's prefixes whose URL resolves to a
   * non-empty one is shown, with its name, that URL and its path: the load
   * then succeeds.
   */
  lemma LoadShowsAccessible(c: Client, prefixes: seq<string>, notFound: string, item: StorageItem)
    requires c.Configured()
    requires ListStorage(c, prefixes).Ok?
    requires item.prefix in prefixes
    requires item.entry in Objects(c.bucket, item.prefix)
    requires Keep(item.entry)
    requires ItemUrl(c, ListStorage(c, prefixes).value, item) != ""
    ensures LoadOutcome(c, prefixes, notFound).Loaded?
    ensures ResolvedMedia(item.entry.name, ItemUrl(c, ListStorage(c, prefixes).value, item), PathOf(item))
      in LoadOutcome(c, prefixes, notFound).media
  {
    var all := ListStorage(c, prefixes).value;
    ListAllExact(c.bucket, prefixes);
    ExpectedItems(c.bucket, prefixes, item);
    var i :| 0 <= i < |all| && all[i] == item;
    var pathItems := ToPathItems(all);
    var resp := c.sign(Paths(pathItems), SIGNED_URL_EXPIRY);
    var m := ResolvedMedia(item.entry.name, ItemUrl(c, all, item), PathOf(item));
    assert m == Resolved(pathItems[i], UrlMap(resp), c.publicUrl);
    ResolveAllMembers(pathItems, UrlMap(resp), c.publicUrl, m);
    OutcomeCases(c, prefixes, notFound);
  }

  /**
   * With storage configured and no listing request ever rejected, a load
   * never ends in a listing error: it shows the media or says none is
   * accessible.
   */
  lemma ReliableOutcome(c: Client, prefixes: seq<string>, notFound: string)
    requires c.Configured()
    requires forall p :: p in prefixes ==> Reliable(c.bucket, p)
    ensures LoadOutcome(c, prefixes, notFound).Loaded? || LoadOutcome(c, prefixes, notFound) == Failed(notFound)
  {
    ReliableListAll(c.bucket, prefixes);
  }

  /** The two images of the mixed-batch example, as listed. */
  lemma TwoImagesListed(c: Client)
    requires c.Configured()
    requires c.bucket == Bucket(map["images" := [Entry("a.jpg", "1", None), Entry("b.jpg", "2", None)]], map[])
    ensures ListStorage(c, ["images"]) ==
      Ok([StorageItem(Entry("a.jpg", "1", None), "images"), StorageItem(Entry("b.jpg", "2", None), "images")])
  {
    var a := Entry("a.jpg", "1", None);
    var b := Entry("b.jpg", "2", None);
    var items := [StorageItem(a, "images"), StorageItem(b, "images")];
    assert ListPage(c.bucket, "images", 0) == Ok([a, b]);
    assert [a, b][1..] == [b] && [b][1..] == [];
    assert Keep(a) && Keep(b);
    assert Kept([b]) == [b];
    assert Kept([a, b]) == [a, b];
    assert Tagged([a, b], "images") == items;
    ListFromStep(c.bucket, "images", 0);
    assert ["images"][..0] == [];
    assert [] + items == items;
    assert ListAll(c.bucket, ["images"]) == Append([], ListFrom(c.bucket, "images", 0));
  }

  /**
   * Two images, one signed and one not: the signed one keeps its signed
   * URL, the other falls back to its public URL, and both are shown.
   */
  lemma MixedBatch(c: Client)
    requires c.Configured()
    requires c.bucket == Bucket(map["images" := [Entry("a.jpg", "1", None), Entry("b.jpg", "2", None)]], map[])
    requires c.sign(["images/a.jpg", "images/b.jpg"], SIGNED_URL_EXPIRY) ==
      SignedResponse(Some([SignedEntry("images/a.jpg", "signed-a"), SignedEntry("images/b.jpg", "")]), None)
    requires c.publicUrl("images/b.jpg") == "public-b"
    ensures LoadOutcome(c, ["images"], GALLERY_NOT_FOUND) ==
      Loaded([ResolvedMedia("a.jpg", "signed-a", "images/a.jpg"), ResolvedMedia("b.jpg", "public-b", "images/b.jpg")])
  {
    TwoImagesListed(c);
    var items := ListStorage(c, ["images"]).value;
    assert PathOf(items[0]) == "images/a.jpg";
    assert PathOf(items[1]) == "images/b.jpg";
    var pathItems := ToPathItems(items);
    assert pathItems == [PathItem("a.jpg", "images/a.jpg"), PathItem("b.jpg", "images/b.jpg")];
    assert Paths(pathItems) == ["images/a.jpg", "images/b.jpg"];
    var resp := c.sign(Paths(pathItems), SIGNED_URL_EXPIRY);
    var entries := resp.data.value;
    assert entries[..1][..0] == [];
    assert SignedMap(entries[..1]) == map["images/a.jpg" := "signed-a"];
    assert entries[..|entries| - 1] == entries[..1];
    assert UrlMap(resp) == map["images/a.jpg" := "signed-a"];
    assert pathItems[1..] == [pathItems[1]] && pathItems[1..][1..] == [];
    var urlMap := UrlMap(resp);
    assert ResolveUrl(urlMap, c.publicUrl, "images/a.jpg") == "signed-a";
    assert "images/b.jpg" !in urlMap;
    assert ResolveUrl(urlMap, c.publicUrl, "images/b.jpg") == "public-b";
    var second := ResolvedMedia("b.jpg", "public-b", "images/b.jpg");
    assert ResolveAll(pathItems[1..], urlMap, c.publicUrl) == [second] + ResolveAll([], urlMap, c.publicUrl);
  }

  /** A rejected listing request ends the load with the service's message. */
  lemma DeniedListing(sign: (seq<string>, nat) -> SignedResponse, publicUrl: string -> string)
    ensures var denied := StorageError("access denied");
      var c := Client(true, "media", Bucket(map[], map[PageRequest("images", 0) := denied]), sign, publicUrl);
      LoadOutcome(c, ["images"], GALLERY_NOT_FOUND) == Failed("access denied")
  {
    var denied := StorageError("access denied");
    var bucket := Bucket(map[], map[PageRequest("images", 0) := denied]);
    assert ListFrom(bucket, "images", 0) == Err(denied);
    assert ["images"][..0] == [];
  }
}
