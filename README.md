# Media feeds of the congregation site: listing and URL resolution

The site shows two media feeds, images and videos, filled from an object-storage
bucket. Each feed is loaded in two stages:

1. **Listing** (`listStorageItems`): for each prefix in turn (`uploads/images`
   then `images`, or `uploads/videos` then `videos`) the bucket is paged through
   100 entries at a time. A prefix is done when a page is empty or short.
   Otherwise the offset grows by the raw page length. Entries without a name,
   or with neither an id nor metadata, are dropped. Every kept entry is tagged
   with its prefix. The first listing error ends the whole listing and is the
   only thing returned.
2. **Resolution and status** (`loadGallery` / `loadVideos`, one code path with
   two prefix lists and two messages): each item gets the path
   `prefix/name`. All paths are signed in one batch, which builds a path-to-URL
   map in which later entries overwrite earlier ones. An item whose path has no
   signed URL falls back to its public URL, and items left with an empty URL are
   dropped. The feed's state goes through `idle | loading | success | error`
   together with a message.

The storage service is replaced by oracles, defined in `storage.dfy`:

- a `Bucket` maps each prefix to its objects, in the service's listing order
  (newest first);
- the bucket also lists the page requests, by prefix and offset, that the
  service rejects, each with the error it answers;
- the signed-URL batch (`sign`) and the public-URL builder (`publicUrl`) are
  functions carried by the `Client`;
- `connected` and `bucketName` stand for the two configuration checks.

Modules:

- `wrappers.dfy`: Option and Result.
- `storage.dfy`: the entities and the oracles.
- `listing.dfy`: the listing, as an imperative method. It is proved equal to
  a recursive specification (`ListFrom`/`ListAll`) and to the ghost log of page
  requests (`RequestsFrom`/`RequestsAll`), with lemmas about both.
- `resolve.dfy`: path building, the URL map (filled in place by a loop, like
  the source's `forEach`), URL choice, and the filter.
- `feeds.dfy`: a `Feed` class whose fields are the feed's items, state and
  message, with its `Load` method. `LoadOutcome` is the pure summary of a load.
  The file also holds lemmas about `LoadOutcome`.

Where descriptions of this component and the code differ, the model follows
the code:

- The code never removes duplicate entries or paths (src/App.jsx:167-168,
  src/App.jsx:207-241), so neither does the model.
- Entries are filtered page by page as they arrive, not after accumulation.
  The result is the same (`ListFromExact`).
- Without configuration the loaders clear the items and set `idle`, but leave
  the message as it was (src/App.jsx:184-188).
- On a listing error or when nothing is accessible, the loaders keep the items
  the feed showed before (src/App.jsx:194-198, src/App.jsx:243-247).

## Model

| member | source | states |
|---|---|---|
| `Storage.ListPage` | src/App.jsx:153-157 | a listing call returns a page of at most 100 entries, or the service's error exactly when that request is rejected |
| `Storage.PageContents` | src/App.jsx:153-157 | a returned page is the run of the prefix's objects from the offset: a whole page or the rest of the prefix, empty at the end |
| `Listing.ListStorageItems` | src/App.jsx:140-181 | the nested for/while(true) loop returns exactly the recursive listing: no items and no error, after no request, when client or bucket is missing; otherwise the items in prefix, page and entry order, or only the first error; the ghost log equals the specified request sequence |
| `Listing.ErrorEndsListing` | src/App.jsx:159-161 | once a prefix's listing fails, the remaining prefixes add neither items nor requests, so the error is the whole result |
| `Listing.KeptMembers` | src/App.jsx:167 | the page filter keeps exactly the entries that have a non-empty name and an id or metadata, and never adds any |
| `Listing.KeptAppend` | src/App.jsx:167-168 | filtering page by page gives the same entries, in the same order, as filtering the pages joined together |
| `Listing.ListFromExact` | src/App.jsx:152-175 | a successful paging of one prefix holds exactly its kept objects from the offset on, in listing order, each tagged with the prefix |
| `Listing.ListAllExact` | src/App.jsx:147-178 | a successful listing is exactly the kept objects of each prefix, prefixes in the given order |
| `Listing.ExpectedItems` | src/App.jsx:167-168 | an item is in the listing exactly when its prefix is one of the prefixes, its entry is stored under that prefix, and the entry passes the filter |
| `Listing.ReliableListFrom` | src/App.jsx:152-175 | paging a prefix whose requests are never rejected always terminates without error |
| `Listing.ReliableListAll` | src/App.jsx:149-178 | when no request is rejected, the listing succeeds with exactly the reference items |
| `Listing.ListFromError` | src/App.jsx:159-161 | a prefix's paging starts at its offset; it fails exactly when its last request was rejected, with that request's error, every earlier request having been answered; when it succeeds, none of its requests was rejected |
| `Listing.ListAllError` | src/App.jsx:149-161 | the listing fails exactly when one of its requests was rejected; every request but the last was answered and the error returned is the answer to the last request made, so the first rejection ends the listing and nothing is asked after it |
| `Listing.RequestOffsets` | src/App.jsx:163-174 | on a reliable prefix of n objects the offsets asked for are 0, 100, ..., 100·(n div 100): one request per raw page, plus the final empty or short one |
| `Listing.OneFullPage` | src/App.jsx:163-174 | a prefix holding exactly 100 objects is asked for at offsets 0 and 100 and yields all its kept objects |
| `Resolve.PathSplits` | src/App.jsx:209 | an item's path is its prefix, a slash and its name, and splits back into that name |
| `Resolve.PathItemsSplit` | src/App.jsx:207-210 | path items correspond one for one, in order, to the listed items, each keeping its name and getting the path prefix/name |
| `Resolve.BuildUrlMap` | src/App.jsx:216-224 | the loop over the batch builds the specified map: empty when the batch errored or returned no data, otherwise set entry by entry for non-empty signed URLs |
| `Resolve.SignedMapLastWins` | src/App.jsx:218-223 | a path is in the map exactly when some batch entry signs it, and its URL is that of the last such entry |
| `Resolve.SignedMapNonEmpty` | src/App.jsx:220-221 | no URL in the map is empty |
| `Resolve.ChosenUrl` | src/App.jsx:226-233 | a path takes the last signed URL the usable batch gave for it; otherwise, for that path alone, its public URL |
| `Resolve.ResolveAllMembers` | src/App.jsx:226-241 | the resolved list holds exactly the path items whose resolved URL is non-empty, each with its name, path and that URL |
| `Resolve.ResolveAllEmpty` | src/App.jsx:226-243 | the resolved list is empty exactly when every item's URL is empty |
| `Resolve.ResolveAllAppend` | src/App.jsx:226-241 | resolution keeps input order: resolving a joined list joins the resolved parts |
| `Feeds.Feed.Gallery` | src/App.jsx:130-132 | the image feed starts idle, with no items and no message, over uploads/images and images |
| `Feeds.Feed.Videos` | src/App.jsx:133-135 | the video feed starts idle, with no items and no message, over uploads/videos and videos |
| `Feeds.Feed.Load` | src/App.jsx:183-252 | without configuration: no items, idle, message unchanged, one status step. Otherwise the feed first shows loading with no message. It then ends in error with the old items, or in success with the media and no message, as `LoadOutcome` says |
| `Feeds.OutcomeCases` | src/App.jsx:183-251 | a load is idle exactly without configuration; a listing error ends it with that error's message; an empty listing gives an empty success; a non-empty listing ends in the not-found message when every listed item's URL is empty, and otherwise succeeds with the media resolved for the signed listing |
| `Feeds.LoadedMedia` | src/App.jsx:207-241 | every medium shown comes from a stored object that passes the filter under one of the feed's prefixes; its name is the object's name, its path is prefix/name, and its URL is the non-empty one resolved for it |
| `Feeds.LoadShowsAccessible` | src/App.jsx:207-251 | conversely, every object that passes the filter under one of the feed's prefixes and resolves to a non-empty URL is shown, with its name, that URL and prefix/name as path, and the load then succeeds |
| `Feeds.ReliableOutcome` | src/App.jsx:194-247 | when no listing request is rejected, a load ends with media or with the not-found message, never with a listing error |
| `Feeds.TwoImagesListed` | src/App.jsx:146-178 | two stored images with ids under `images` are listed in one short page, both kept |
| `Feeds.MixedBatch` | src/App.jsx:216-241 | when the batch signs a.jpg but not b.jpg, a.jpg keeps its signed URL and b.jpg its public one, and both are shown |
| `Feeds.DeniedListing` | src/App.jsx:194-198 | a rejected first listing request ends the load with the service's message ("access denied") |

## Left out

- Building the storage client and reading environment variables (src/App.jsx:1-11) are not modelled. Only their outcome is: the `connected` flag and the bucket name.
- `async`/`await`, `useCallback`/`useEffect` triggering, and overlapping loads (src/App.jsx:140, src/App.jsx:325-331) are not modelled. Each load runs alone, start to end.
- The storage service is an oracle. It always answers a listing with the run of objects from the offset, in its newest-first order. A service that returns inconsistent pages is not modelled.
- A listing answer with neither data nor error (`!data`) is modelled as an empty page. Both end the prefix the same way.
- The content and format of signed and public URLs are not modelled. The 3600-second expiry is only passed to the batch as a constant.
- A null element of the signed batch (`entry?.signedUrl`) is modelled as an entry with an empty URL. Both are skipped.
- Only `name`, `id` and `metadata` of a listing entry are modelled. The spread copy of the other fields (`...item`) carries nothing the pipeline reads.
- Missing or null strings are the empty string, and so are falsy. An error without a `message` is not modelled.
- Page rendering, the static content arrays, the menu, the lightbox and Escape key, the active video, carousel and quote doubling, and the live-stream embed URL (src/App.jsx:13-127, src/App.jsx:333-831) are presentation and are not modelled.
