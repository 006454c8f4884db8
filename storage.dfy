/**
 * The entities of the media feeds and the storage service they talk to.
 *
 * The storage client is a foreign library; here it is replaced by oracles:
 * the bucket listing is a finite map from prefix to the objects under it
 * (in the order the service lists them, newest first) together with the
 * page requests that the service rejects; the signed-URL batch and the
 * public-URL builder are functions carried by the client.
 */
module Storage {
  import opened Wrappers

  /** Entries per listing page. */
  const PAGE_SIZE: nat := 100

  /** Lifetime, in seconds, asked for every signed URL (60 * 60). */
  const SIGNED_URL_EXPIRY: nat := 3600

  /**
   * One raw entry of a bucket listing. A missing or null `name` or `id` is
   * the empty string (both are falsy, as the empty string is); `metadata`
   * is None when the listing gives none (folder placeholders).
   */
  datatype Entry = Entry(name: string, id: string, metadata: Option<map<string, string>>)

  /** A kept listing entry tagged with the prefix it was listed under. */
  datatype StorageItem = StorageItem(entry: Entry, prefix: string)

  /** An error object returned by the storage service. */
  datatype StorageError = StorageError(message: string)

  /** One call of the listing endpoint: the folder and the offset asked for. */
  datatype PageRequest = PageRequest(prefix: string, offset: nat)

  datatype Bucket = Bucket(objects: map<string, seq<Entry>>, faults: map<PageRequest, StorageError>)

  /** One element of a signed-URL batch; a null or missing URL is the empty string. */
  datatype SignedEntry = SignedEntry(path: string, signedUrl: string)

  /** The `{ data, error }` answer of the signed-URL batch. */
  datatype SignedResponse = SignedResponse(data: Option<seq<SignedEntry>>, error: Option<StorageError>)

  /**
   * The storage client as the feeds see it. `connected` says whether a
   * client could be built from the configuration; `bucketName` is empty when
   * no bucket is configured. `sign` answers a batch of paths with an expiry;
   * `publicUrl` gives a path's public URL, the empty string for none.
   */
  datatype Client = Client(
    connected: bool,
    bucketName: string,
    bucket: Bucket,
    sign: (seq<string>, nat) -> SignedResponse,
    publicUrl: string -> string)
  {
    /** Both a client and a bucket name are present. */
    predicate Configured() {
      connected && bucketName != ""
    }
  }

  /** Everything stored under a prefix, in listing order. */
  function Objects(b: Bucket, prefix: string): seq<Entry> {
    if prefix in b.objects then b.objects[prefix] else []
  }

  /** Whether the service rejects the listing request for this prefix and offset. */
  predicate Faults(b: Bucket, prefix: string, offset: nat) {
    PageRequest(prefix, offset) in b.faults
  }

  /**
   * The listing endpoint: at most PAGE_SIZE entries of a prefix from an
   * offset, or the error the service answers that request with.
   */
  function ListPage(b: Bucket, prefix: string, offset: nat): (r: Result<seq<Entry>, StorageError>)
    ensures r.Ok? <==> !Faults(b, prefix, offset)
    ensures r.Ok? ==> |r.value| <= PAGE_SIZE
    ensures r.Ok? ==> offset + |r.value| <= |Objects(b, prefix)| || r.value == []
  {
    if Faults(b, prefix, offset) then Err(b.faults[PageRequest(prefix, offset)])
    else
      var all := Objects(b, prefix);
      if offset >= |all| then Ok([])
      else if offset + PAGE_SIZE <= |all| then Ok(all[offset..offset + PAGE_SIZE])
      else Ok(all[offset..])
  }

  /**
   * A page that comes back is the run of objects from the offset: a whole
   * page, or the rest of the prefix; empty once the offset reaches the end.
   */
  lemma PageContents(b: Bucket, prefix: string, offset: nat)
    requires ListPage(b, prefix, offset).Ok?
    ensures var page := ListPage(b, prefix, offset).value;
      var all := Objects(b, prefix);
      && (offset >= |all| ==> page == [])
      && (offset < |all| ==>
            && offset + |page| <= |all|
            && page == all[offset..offset + |page|]
            && (|page| == PAGE_SIZE || offset + |page| == |all|))
  {
  }
}
