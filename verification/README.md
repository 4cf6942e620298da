# Picture gallery Lambda handlers in Dafny

This project models the two AWS Lambda backends of a picture gallery:

- `unified_lambda.py` is one function that serves the static front end and the picture API.
- `backend_lambda.py` serves the API only.

Both keep pictures in an S3 bucket under the prefix `pictures/`. Each object's user metadata holds the display name (`original-name`), a rating (`rating`) and a JSON list of comments (`comments`). Both files offer the same seven endpoints: list, upload, delete, rate, comment, download as ZIP and statistics. They differ in how names are matched, in what a failed metadata read does, and in what they report.

The model is organised as follows.

- `Storage` is the bucket, in two forms:
  - `Bucket` is the value. Its functions `Listing`, `Head`, `Get`, `Put`, `Replace`, `Remove` and `RemoveAll` are the S3 calls. They define the environment the handlers run in, and lemmas relate the reads to the writes.
  - `Store` is a class with `keys` and `objects` fields. Its methods are proved to move between `Bucket` values exactly as those functions say.
- Calls that raise are described by `Faults`: the set of keys on which `head_object`, `get_object` and `delete_object` fail.
- `Codec` covers decimal rating text, the comment-list encoding and the two ways of reading a rating.
- `Text` covers lower-casing, suffix and substring tests, and the file-name and extension helpers.
- `Http` covers the event, the request payload, the responses and the CORS headers.
- `Gallery` holds what both files do alike:
  - resolve a picture name to a key (`Resolve`, with the `Exact` and `Fuzzy` policies);
  - build a download archive;
  - rewrite metadata to rate a picture or append a comment;
  - build upload keys.
- `Unified` and `Backend` hold one specification function `XOutcome` per handler, giving the response and the bucket afterwards. Beside each is a method on `Store` proved to produce that outcome, plus lemmas about the outcome.

The clock and `uuid4()` values are parameters (`Env`). A request body is already decoded into `RequestBody`: absent, not JSON, or a parsed `Payload`.

Behaviour kept as written:

- **Delete in `unified_lambda.py` can report a matched name as not found.** `not_found` lists the requested names that no object was *claimed by*. An object is claimed by the first requested name it matches, so a name that matches an object claimed earlier lands in `not_found` although it matched. `Unified.NotFoundCanHoldMatchedName` gives such an input.
- **A JSON `true` rating is accepted as 1 by both files and stored as `"True"`.** `int()` cannot read that back. The unified listing then shows the picture with rating 0 and its file name (`Unified.BoolRatingIsUnreadable`). The backend listing drops the picture altogether (`Backend.BoolRatingHidesPicture`).
- **A backend delete scans the listing taken before the loop, against the bucket as earlier names left it.** A failed `delete_object` lets the scan move on to the next object carrying the same name.

## Model

| member | source | states |
|---|---|---|
| Text.LowerFolds | unified_lambda.py:1694-1695 | after lower-casing no upper-case ASCII letter is left, each upper-case letter becomes its lower-case partner, every other character is kept, and lower-casing again changes nothing |
| Text.LowerConcat | unified_lambda.py:1694-1695 | lower-casing a concatenation lower-cases each part |
| Text.ContainsAt | unified_lambda.py:1694 | Python's `in` on strings holds exactly when the needle occurs at some position |
| Text.AfterLast | unified_lambda.py:1541 | `split(c)[-1]` is the longest suffix free of `c`; it is the whole string when `c` does not occur |
| Text.Extension | unified_lambda.py:2160 | the extension has no dot; it follows the name's last dot, or is `jpg` when the name has no dot |
| Text.ImageKeyByExtension | unified_lambda.py:1525 | a key `stem.ext` with a dot-free `ext` is an image key exactly when the lower-cased `ext` is jpg, jpeg, png or gif |
| Codec.NatTextRoundTrip | unified_lambda.py:1860 | the digits `str(n)` writes are read back as `n` |
| Codec.IntTextRoundTrip | unified_lambda.py:1540 | `int(str(i)) == i` for every integer |
| Codec.TrueTextIsNotAnInteger | unified_lambda.py:1540 | `int("True")` raises |
| Codec.ReadFieldRoundTrip | unified_lambda.py:1979 | an escaped field followed by its terminator reads back as the field, leaving the rest |
| Codec.ReadCommentRoundTrip | unified_lambda.py:1979 | an encoded comment reads back as the same author, text and date, leaving the rest |
| Codec.ReadListRoundTrip | unified_lambda.py:1979 | an encoded comment list reads back as the same list |
| Codec.CommentsRoundTrip | unified_lambda.py:1548 | decoding an encoded comment list gives the same list, in order |
| Codec.EmptyListText | backend_lambda.py:206 | `"[]"` decodes to the empty list and the empty text is malformed |
| Codec.CommentsOf | unified_lambda.py:1544-1551 | absent or malformed comment text reads as no comments, never as an error |
| Codec.CommentsOfEncoded | unified_lambda.py:1979 | comments written with the encoding are read back unchanged |
| Codec.ListingRating | unified_lambda.py:1540 | an absent or empty rating reads as 0 |
| Codec.StrictRating | backend_lambda.py:132 | an absent rating reads as 0 and an empty one raises |
| Codec.StoredRatingReadBack | backend_lambda.py:380 | a rating stored as `str(n)` is read back as `n` by both readers |
| Storage.Bucket.Listing | unified_lambda.py:1513-1516 | exactly the stored keys under `pictures/`, in listing order |
| Storage.Bucket.Put | unified_lambda.py:2164-2174 | the object is stored under the key; a new key is listed last; validity is kept |
| Storage.Bucket.Replace | unified_lambda.py:1865-1872 | only the metadata of that key changes; listing order is kept |
| Storage.Bucket.Remove | backend_lambda.py:282-285 | the key leaves both the objects and the listing, and nothing else does |
| Storage.ReadAfterPut | unified_lambda.py:2164-2174 | after `put_object` a read of the written key sees the new metadata and bytes unless the read fails; other keys read as before |
| Storage.ReadAfterReplace | unified_lambda.py:1865-1872 | after a metadata copy a read of the key sees the new metadata unless the read fails, its bytes are unchanged, and other keys read as before |
| Storage.ReadAfterRemove | backend_lambda.py:282-285 | after `delete_object` every read of the key fails and other keys read as before |
| Storage.RemoveOneObject | backend_lambda.py:282-285 | deleting a stored key makes the store one object smaller |
| Storage.RemoveAllCount | unified_lambda.py:1730-1738 | a batch delete of distinct stored keys makes the store smaller by the batch size |
| Storage.RemoveAllObjects | unified_lambda.py:1730-1738 | after a batch delete a key is stored exactly when it was stored and not in the batch, with its object unchanged |
| Storage.Store.ListObjects | unified_lambda.py:1513-1516 | returns the bucket's listing |
| Storage.Store.HeadObject | unified_lambda.py:1682-1686 | returns what `Head` says |
| Storage.Store.GetObject | unified_lambda.py:2077-2083 | returns what `Get` says |
| Storage.Store.PutObject | unified_lambda.py:2164-2174 | the new state is `Put` of the old one |
| Storage.Store.CopyReplace | unified_lambda.py:1865-1872 | the new state is `Replace` of the old one |
| Storage.Store.DeleteObject | backend_lambda.py:282-285 | succeeds exactly for keys whose deletion does not fail; the state is `Remove` of the old one on success and unchanged otherwise |
| Storage.Store.DeleteObjects | unified_lambda.py:1730-1739 | `Deleted` and `Errors` split the batch in order by whether deletion fails; the store loses exactly the deleted keys |
| Http.CorsHeaders | unified_lambda.py:73-80 | exactly four headers: JSON content type, any origin, the file's allowed methods, and `Content-Type, Authorization` as allowed headers |
| Http.ZipHeaders | unified_lambda.py:2109-2115 | exactly five headers: ZIP content type, an attachment named after the day, any origin, the file's allowed methods and `Content-Type, Authorization` as allowed headers |
| Gallery.ImageKeys | unified_lambda.py:1525 | exactly the listed keys with an image suffix, in order |
| Gallery.Resolve | unified_lambda.py:1815-1843 | the result is the first listed key that answers to the name under the policy; `None` means no listed key does |
| Gallery.ExactResolves | unified_lambda.py:1933-1940 | an exact match is a readable image whose stored name is the requested one, and such an image is always found |
| Gallery.Scan | unified_lambda.py:1815-1843 | the head-and-compare loop returns what `Resolve` specifies |
| Gallery.EntryFor | unified_lambda.py:2052-2089 | a name adds an entry exactly when it resolves exactly; the entry carries the requested name and that object's bytes |
| Gallery.FetchEntry | unified_lambda.py:2052-2089 | one iteration of the archive loop yields `EntryFor` its name |
| Gallery.ArchiveEntries | unified_lambda.py:2051-2092 | the archive has at most one entry per name, each an `EntryFor`; every name that resolves and downloads has its entry in it; it is empty exactly when no name resolves |
| Gallery.ArchiveNames | unified_lambda.py:2051-2092 | the entry names of the archive, in order, are exactly the requested names that resolve and download, in request order |
| Gallery.CollectArchive | unified_lambda.py:2051-2091 | the archive loop builds `ArchiveOf` and counts its entries |
| Gallery.Download | unified_lambda.py:2011-2128 | the handler's response is `DownloadOutcome` |
| Gallery.DownloadContract | unified_lambda.py:2025-2115 | no names gives 400; when no requested name resolves and downloads (in particular on an empty listing) the answer is 404; when some does it is 200 with the ZIP headers and the whole archive; every 200 carries a non-empty archive of sound entries |
| Gallery.CommentedMetadata | unified_lambda.py:1964-1979 | only `comments` changes, and it reads back as the old comments plus the new one |
| Gallery.WithRating | backend_lambda.py:380 | only `rating` changes, to the given text |
| Gallery.UploadKeyIsImage | unified_lambda.py:2160-2161 | the upload key is an image key exactly when the name's lower-cased extension is an image extension |
| Unified.EntryContents | unified_lambda.py:1534-1556 | an entry has the object's date; on a failed read it falls back to the file name, rating 0 and no comments; an absent or empty rating shows as 0 |
| Unified.CollectedIsImageEntries | unified_lambda.py:1523-1566 | one entry per image key, in listing order, each that key's `Entry` |
| Unified.InsertByDate | unified_lambda.py:1571 | insertion adds exactly the one picture (a multiset equation) |
| Unified.InsertKeepsOrder | unified_lambda.py:1571 | inserting into a newest-first sequence keeps it newest first |
| Unified.SortNewestFirst | unified_lambda.py:1571 | the result is newest first and a permutation of the input |
| Unified.ListPictures | unified_lambda.py:1520-1571 | the listing is newest first and a permutation of the image entries |
| Unified.ListPicturesCount | unified_lambda.py:1578-1581 | `count` is the number of image keys |
| Unified.ReadEntry | unified_lambda.py:1534-1556 | reading one object gives its `Entry` |
| Unified.GetPictures | unified_lambda.py:1508-1582 | 200 with `ListPictures` and its length, under the CORS headers |
| Unified.GetStats | unified_lambda.py:1594-1623 | 200 with the number of image keys and the sum of their sizes |
| Unified.StatsAgreeWithListing | unified_lambda.py:1610-1612 | the statistics count as many pictures as the listing shows |
| Unified.DeleteMatchIsFuzzy | unified_lambda.py:1701-1711 | the delete fallback's `startswith` adds nothing; deletion matches by the fuzzy rule |
| Unified.FirstClaim | unified_lambda.py:1691-1699 | the inner loop returns the first requested name the object matches |
| Unified.QueueMembers | unified_lambda.py:1676-1711 | a key is queued for deletion exactly when it is listed and matches some requested name |
| Unified.QueueDistinct | unified_lambda.py:1676-1711 | no key is queued twice |
| Unified.ClaimedMatch | unified_lambda.py:1691-1699 | every claiming name is a requested name that matches some listed object |
| Unified.NotFoundCoversMisses | unified_lambda.py:1713-1717 | every requested name that matches no object is reported as not found |
| Unified.NotFoundCanHoldMatchedName | unified_lambda.py:1713-1717 | a name that matched an object can still be reported as not found |
| Unified.FirstNameClaims | unified_lambda.py:1691-1699 | an object named `a.jpg` matches both `a` and `a.jpg` and is claimed by `a`, the first of them |
| Unified.ClaimObjects | unified_lambda.py:1676-1711 | the scan builds the deletion queue and the set of claiming names |
| Unified.Unmatched | unified_lambda.py:1714-1717 | the names without a claim, in request order |
| Unified.DeletePictures | unified_lambda.py:1635-1760 | the response and new store are `DeleteOutcome` |
| Unified.DeleteContract | unified_lambda.py:1653-1760 | no names gives 400 and an empty queue gives 404, neither changing the store; on 200 an object remains exactly when it was not queued or its deletion failed, remaining objects are unchanged, and the deleted count is at most the queue length |
| Unified.DeleteCounts | unified_lambda.py:1730-1760 | on 200, `deleted_count` is the number of queued keys whose deletion succeeds, the store shrinks by exactly that many, and `errors` lists the queued keys whose deletion failed, in order |
| Unified.RatedMetadata | unified_lambda.py:1858-1861 | `rating` and `original-name` are set; every other key keeps its value |
| Unified.RatePicture | unified_lambda.py:1772-1884 | the response and new store are `RateOutcome` |
| Unified.RateValidatesFirst | unified_lambda.py:1791-1803 | a missing name or an invalid rating gives 400 whatever the store holds, and changes nothing |
| Unified.RateSucceeds | unified_lambda.py:1772-1884 | 200 exactly when a name and a valid rating are given, the name resolves and the resolved key's metadata can be read; any other outcome leaves the store unchanged |
| Unified.RatedAt | unified_lambda.py:1845-1884 | a valid rating of a name resolving to a readable key gives 200 and rewrites that key's metadata with the rating and the requested name |
| Unified.RateUpdatesFirstMatch | unified_lambda.py:1845-1884 | on success, for the key the name resolves to (the first fuzzy match): only it is rewritten, and the listing then shows it under the requested name with the new rating and its old comments |
| Unified.BoolRatingIsUnreadable | unified_lambda.py:1798 | a `true` rating is stored but listed afterwards with rating 0 and the file name |
| Unified.AddComment | unified_lambda.py:1897-1999 | the response and new store are `CommentOutcome` |
| Unified.CommentSucceeds | unified_lambda.py:1897-1951 | a missing picture, author or text gives 400 and a name that does not resolve exactly 404, neither changing the store; 200 exactly when all are given and the name resolves; any other outcome leaves the store unchanged |
| Unified.CommentedAt | unified_lambda.py:1926-1999 | a complete comment on a name that resolves to a key appends the comment to that key's metadata |
| Unified.CommentAppends | unified_lambda.py:1926-1999 | on success, for the key the name resolves to (the first image with exactly that name): only its `comments` changes, gaining the new comment last; the listing order and every other object stay |
| Unified.UploadPicture | unified_lambda.py:2130-2186 | the response and new store are `UploadOutcome` |
| Unified.UploadContract | unified_lambda.py:2141-2174 | no data gives 400 and no write; otherwise the key is `pictures/{stamp}_{hex}.{ext}` with the name's extension (`jpg` without a dot), the object holds the data, the name and rating `0`, and every other object is unchanged |
| Unified.UploadedEntry | unified_lambda.py:2164-2174 | the listing reads a fresh upload back with its name, its time, rating 0 and no comments |
| Unified.UploadThenList | unified_lambda.py:2161-2174 | a fresh upload is listed; it is shown as a picture exactly when its extension is an image extension |
| Unified.Dispatch | unified_lambda.py:31-55 | preflight first, then the static paths, then the API table, else no route |
| Unified.Handle | unified_lambda.py:17-60 | the response and new store are `HandleOutcome` |
| Unified.RoutingContract | unified_lambda.py:31-60 | a preflight gets 200 with an empty body; an unknown route gets 404 `Not found`; neither changes the store |
| Backend.CollectedLength | backend_lambda.py:100-141 | at most one entry per image key, and one for each when every image key can be read |
| Backend.CollectedHasEntries | backend_lambda.py:100-141 | every image key whose metadata and rating can be read contributes its entry to the listing |
| Backend.CollectedFromEntries | backend_lambda.py:100-141 | every entry of the listing is the entry of some listed image key |
| Backend.ReadEntry | backend_lambda.py:103-137 | reading one object gives its `Entry`: none when the metadata read or the rating conversion raises |
| Backend.GetPictures | backend_lambda.py:85-149 | 200 with the collected entries, in listing order |
| Backend.UploadPicture | backend_lambda.py:161-220 | the response and new store are `UploadOutcome` |
| Backend.UploadContract | backend_lambda.py:161-220 | no data gives 400 and no write; otherwise 200 with the key `pictures/{stamp}_{hex}.{ext}` and the name, the object holds the data and the metadata name, upload date, rating `'0'` and comments `'[]'`, and every other object is unchanged |
| Backend.UploadMetadataReadBack | backend_lambda.py:196-208 | the upload metadata reads back as the given name, rating 0 and no comments |
| Backend.UploadedEntry | backend_lambda.py:196-208 | the listing reads a fresh upload back with its name, time, size, rating 0 and no comments |
| Backend.UploadThenList | backend_lambda.py:190-208 | a fresh upload is listed; it is shown as a picture exactly when its extension is an image extension |
| Backend.DeleteTarget | backend_lambda.py:268-291 | the result is listed, readable, named as requested and deletable; `None` means no listed key qualifies |
| Backend.DeleteTargetAt | backend_lambda.py:268-291 | a qualifying key with no qualifying key before it in the listing is the one deleted |
| Backend.DeleteTargetNone | backend_lambda.py:268-291 | when no listed key qualifies nothing is deleted for that name |
| Backend.DeleteRunEffect | backend_lambda.py:266-291 | at most one object goes per name; the store shrinks by the count; every object that goes was a listed, readable, deletable image carrying a requested name; the others are unchanged |
| Backend.NamedImage | backend_lambda.py:270-280 | the per-key test holds exactly when the key is a readable image whose stored name is the requested one |
| Backend.DeleteFirst | backend_lambda.py:268-291 | the inner loop deletes `DeleteTarget` and changes nothing else |
| Backend.DeletePictures | backend_lambda.py:232-300 | the response and new store are `DeleteOutcome` |
| Backend.DeleteContract | backend_lambda.py:243-300 | no names gives 400 and an empty listing 404, both leaving the store unchanged; otherwise the answer is 200, the count is at most the number of names and the store shrinks by exactly the count |
| Backend.RatePicture | backend_lambda.py:312-402 | the response and new store are `RateOutcome` |
| Backend.RateValidation | backend_lambda.py:322-337 | a missing name or rating gives 400; a non-numeric rating gives 500; a rating outside 1 to 5 gives 400; none changes the store |
| Backend.RateSavedAt | backend_lambda.py:366-402 | a valid rating of a name that resolves to a key gives 200 and writes `str(rating)` into that key's metadata |
| Backend.RateChangesOnlyRating | backend_lambda.py:366-402 | on success, for the key the name resolves to (the first exact match): only its `rating` changes; its other metadata, its bytes, the listing order and every other object stay |
| Backend.RateShowsInListing | backend_lambda.py:366-402 | after a successful rating the listing shows that key under the same name, date, size and comments with the new rating |
| Backend.BoolRatingHidesPicture | backend_lambda.py:331 | after a `true` rating the listing leaves the picture out |
| Backend.AddComment | backend_lambda.py:413-514 | the response and new store are `CommentOutcome` |
| Backend.CommentSucceeds | backend_lambda.py:420-467 | a missing picture, author or text gives 400 and a name that does not resolve 404, neither changing the store; 200 exactly when all are given and the name resolves; any other outcome leaves the store unchanged |
| Backend.CommentedAt | backend_lambda.py:461-503 | a complete comment on a name that resolves to a key appends the comment to that key's metadata |
| Backend.CommentAppends | backend_lambda.py:461-514 | on success, for the key the name resolves to (the first exact match): its comments gain the new comment last; the listing order and every other object stay |
| Backend.CommentShowsInListing | backend_lambda.py:461-514 | a picture the listing showed before the comment is shown after it with the same name, date and rating and the new comment last |
| Backend.EntryAfterReplace | backend_lambda.py:126-133 | after a metadata replacement the entry keeps the object's date and size and takes its name, rating and comments from the new metadata |
| Backend.StatsCounts | backend_lambda.py:658-678 | every image is counted; no more pictures are rated than counted; each rated picture adds at least 1 to the sum; the most recent date is absent exactly when there is no image |
| Backend.StatsLatest | backend_lambda.py:660-665 | a most recent date is the date of some image and no image is newer |
| Backend.CountObject | backend_lambda.py:659-691 | one iteration of the statistics loop adds `CountKey` for its key |
| Backend.CountKeyTotals | backend_lambda.py:670-691 | one key adds to the rating and comment totals exactly what its listing entry holds |
| Backend.StatsAgreeWithListing | backend_lambda.py:670-691 | comment total, rated count and rating sum equal those of the pictures the listing shows |
| Backend.GetStats | backend_lambda.py:641-719 | 200 with `StatsOf` of the listing |
| Backend.Dispatch | backend_lambda.py:31-55 | preflight first, then the API table, else no route |
| Backend.Handle | backend_lambda.py:17-55 | the response and new store are `HandleOutcome` |
| Backend.RoutingContract | backend_lambda.py:31-55 | a preflight gets 200 with an empty body; an unknown route gets 404 `Not found`; `/` is not served |

## Left out

- Presigned URLs in the listings are left out; they need AWS credentials and a clock.
- The HTML, CSS and JavaScript text of the static pages is left out. Only the route and the response headers are modelled.
- JSON text, base64 and ZIP bytes are not modelled:
  - a body is given already parsed;
  - an archive is the sequence of (name, bytes) entries written into it;
  - the stored comment list uses an escape encoding with JSON's round trip in place of `json.dumps`.
- `isBase64Encoded` request bodies and invalid base64 picture data are left out; `data` is the decoded bytes.
- A `name` given as JSON `null` and an absent one are not told apart. In the source a `null` upload name raises.
- JSON fields of unexpected types (a number as a picture name, a non-list `pictures`, a non-list `comments` value) are not modelled.
- Float ratings are not modelled.
- The clock, `uuid4()` and `datetime.now()` are parameters (`Env`); listing dates are integers rather than ISO strings.
- Failures of `list_objects_v2`, `put_object` and `copy_object`, and the outer `Internal server error` handler, are not modelled.
- Pagination past 1000 keys is not modelled.
- S3's lexicographic listing order is not modelled: the listing is in insertion order.
- A copy keeping `LastModified` is modelled; S3 would refresh it.
- The content type of uploaded objects is not stored.
- A response with `'Contents': []` is treated like one without `Contents` (an empty listing).
- Error messages are the fixed text before `: {e}`; the exception text is not modelled.
- `str.lower()` is modelled on ASCII letters only, and `int()` on an optional sign and ASCII digits only (no whitespace, underscores or other Unicode digits).
- The backend statistics report `ratingSum` and `ratedPictures` rather than the rounded average, `totalSize` in bytes rather than as formatted text, and the latest date as a number or none rather than `Never`.
- Concurrency between requests is not modelled: each request runs alone against one store.
- Unified.SortNewestFirst: the in-place `list.sort` is modelled as a function on sequences.
- Backend.GetPictures: `size` is the byte count of the object, standing for the listed `Size`.
- The unified delete response carries `errors` only when it is non-empty; the model always carries the list, and an empty list stands for the missing field.
