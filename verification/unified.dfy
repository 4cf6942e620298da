/** unified_lambda.py: one Lambda that serves the static front end and the picture API.

    Every handler is a method on the store, proved to produce exactly the `Outcome`
    (response and store afterwards) that a specification function of the same name with
    the suffix `Outcome` describes; the lemmas then state what the handlers promise in
    terms of those functions. */
module Unified {
  import opened Prelude
  import opened Text
  import opened Codec
  import opened Storage
  import opened Http
  import opened Gallery

  const AllowMethods := "GET, POST, OPTIONS"

  /** A JSON response with this file's CORS headers. */
  function Reply(status: int, body: Body): Response {
    Response(status, CorsHeaders(AllowMethods), body)
  }

  // ================================================================ get_pictures

  /** The listing entry of an image key. When `head_object` raises, or the stored rating
      is not an integer, the whole metadata read fails and the entry falls back to the
      file name, rating 0 and no comments. */
  function Entry(b: Bucket, faults: Faults, key: Key): Picture
    requires key in b.objects
  {
    var date := b.objects[key].lastModified;
    match b.Head(faults, key)
    case None => Picture(LastSegment(key), date, None, 0, [])
    case Some(md) =>
      match ListingRating(md)
      case None => Picture(LastSegment(key), date, None, 0, [])
      case Some(rating) => Picture(NameOf(md, key), date, None, rating, CommentsOf(md))
  }

  /** What each listing entry holds: the object's time; on a successful read its stored
      name, its rating (0 when absent or empty) and its comments (none when absent, empty
      or malformed); otherwise the defaults. */
  lemma EntryContents(b: Bucket, faults: Faults, key: Key)
    requires key in b.objects
    ensures Entry(b, faults, key).date == b.objects[key].lastModified
    ensures key in faults.head ==> Entry(b, faults, key) == Picture(LastSegment(key), b.objects[key].lastModified, None, 0, [])
    ensures var md := b.objects[key].metadata;
            key !in faults.head && (RatingKey !in md || md[RatingKey] == "") ==>
              Entry(b, faults, key) == Picture(NameOf(md, key), b.objects[key].lastModified, None, 0, CommentsOf(md))
    ensures var md := b.objects[key].metadata;
            key !in faults.head && CommentsKey in md && DecodeComments(md[CommentsKey]).None? ==>
              Entry(b, faults, key).comments == []
  {
  }

  /** `pictures` after the collection loop: one entry per image key, in listing order.
      (Listed keys are stored; a key that is not adds nothing.) */
  function Collected(b: Bucket, faults: Faults, keys: seq<Key>): seq<Picture>
    decreases |keys|
  {
    if keys == [] then []
    else
      var k := keys[|keys| - 1];
      Collected(b, faults, keys[..|keys| - 1])
        + (if IsImageKey(k) && k in b.objects then [Entry(b, faults, k)] else [])
  }

  lemma CollectedSnoc(b: Bucket, faults: Faults, keys: seq<Key>, k: Key)
    ensures Collected(b, faults, keys + [k])
              == Collected(b, faults, keys) + (if IsImageKey(k) && k in b.objects then [Entry(b, faults, k)] else [])
  {
    assert (keys + [k])[..|keys|] == keys;
  }

  /** Exactly the image keys are listed, each by its own entry, in listing order. */
  lemma {:induction false} CollectedIsImageEntries(b: Bucket, faults: Faults, keys: seq<Key>)
    requires forall k :: k in keys ==> k in b.objects
    ensures |Collected(b, faults, keys)| == |ImageKeys(keys)|
    ensures forall j :: 0 <= j < |ImageKeys(keys)| ==>
              ImageKeys(keys)[j] in b.objects && Collected(b, faults, keys)[j] == Entry(b, faults, ImageKeys(keys)[j])
    decreases |keys|
  {
    if keys != [] {
      var init := keys[..|keys| - 1];
      var k := keys[|keys| - 1];
      assert keys == init + [k];
      assert k in keys;
      CollectedIsImageEntries(b, faults, init);
      CollectedSnoc(b, faults, init, k);
      FilterSnoc(init, k, IsImageKey);
      var c, c0 := Collected(b, faults, keys), Collected(b, faults, init);
      var ik, ik0 := ImageKeys(keys), ImageKeys(init);
      assert ik == ik0 + (if IsImageKey(k) then [k] else []);
      assert c == c0 + (if IsImageKey(k) then [Entry(b, faults, k)] else []);
      forall j | 0 <= j < |ik|
        ensures ik[j] in b.objects && c[j] == Entry(b, faults, ik[j])
      {
        if j < |ik0| {
          assert ik[j] == ik0[j] && c[j] == c0[j];
        }
      }
    }
  }

  /** Dates never increase along the sequence. */
  ghost predicate NewestFirst(ps: seq<Picture>) {
    forall i, j :: 0 <= i < j < |ps| ==> ps[i].date >= ps[j].date
  }

  /** Places `p` after every entry at least as new, so entries with equal dates keep the
      order in which they were inserted (Python's sort is stable, also with `reverse=True`). */
  function InsertByDate(p: Picture, sorted: seq<Picture>): (r: seq<Picture>)
    ensures multiset(r) == multiset(sorted) + multiset{p}
    decreases |sorted|
  {
    if sorted == [] then [p]
    else if sorted[0].date >= p.date then
      assert sorted == [sorted[0]] + sorted[1..];
      [sorted[0]] + InsertByDate(p, sorted[1..])
    else [p] + sorted
  }

  /** Inserting into a newest-first sequence keeps it newest first. */
  lemma {:induction false} InsertKeepsOrder(p: Picture, sorted: seq<Picture>)
    requires NewestFirst(sorted)
    ensures NewestFirst(InsertByDate(p, sorted))
    decreases |sorted|
  {
    if sorted != [] && sorted[0].date >= p.date {
      var rest := InsertByDate(p, sorted[1..]);
      InsertKeepsOrder(p, sorted[1..]);
      forall i | 0 <= i < |rest| ensures rest[i].date <= sorted[0].date {
        assert rest[i] in multiset(rest);
        if rest[i] != p {
          assert rest[i] in multiset(sorted[1..]);
          var j :| 0 <= j < |sorted[1..]| && sorted[1..][j] == rest[i];
          assert sorted[j + 1] == rest[i];
        }
      }
    }
  }

  /** `pictures.sort(key=lambda x: x['date'], reverse=True)`. */
  function SortNewestFirst(ps: seq<Picture>): (r: seq<Picture>)
    ensures NewestFirst(r)
    ensures multiset(r) == multiset(ps)
    decreases |ps|
  {
    if ps == [] then []
    else
      var init := ps[..|ps| - 1];
      assert ps == init + [ps[|ps| - 1]];
      InsertKeepsOrder(ps[|ps| - 1], SortNewestFirst(init));
      InsertByDate(ps[|ps| - 1], SortNewestFirst(init))
  }

  /** The `pictures` a listing returns: every image key's entry, newest first. */
  function ListPictures(b: Bucket, faults: Faults): (r: seq<Picture>)
    requires b.Valid()
    ensures NewestFirst(r)
    ensures multiset(r) == multiset(Collected(b, faults, b.Listing()))
  {
    SortNewestFirst(Collected(b, faults, b.Listing()))
  }

  /** The listing has one entry per image key under the prefix. */
  lemma ListPicturesCount(b: Bucket, faults: Faults)
    requires b.Valid()
    ensures |ListPictures(b, faults)| == |ImageKeys(b.Listing())|
  {
    CollectedIsImageEntries(b, faults, b.Listing());
    assert |ListPictures(b, faults)| == |multiset(ListPictures(b, faults))|;
  }

  method GetPictures(store: Store, faults: Faults) returns (resp: Response)
    requires store.Valid()
    ensures resp.status == 200 && resp.body.PictureList?
    ensures resp.body.pictures == ListPictures(store.State(), faults)
    ensures resp.body.count == |resp.body.pictures|
    ensures resp.headers == CorsHeaders(AllowMethods)
  {
    var listing := store.ListObjects();
    ghost var b := store.State();
    var pictures: seq<Picture> := [];
    var i := 0;
    while i < |listing|
      invariant 0 <= i <= |listing|
      invariant pictures == Collected(b, faults, listing[..i])
    {
      var key := listing[i];
      TakeOneMore(listing, i);
      CollectedSnoc(b, faults, listing[..i], key);
      if IsImageKey(key) {
        ListedKeyStored(b, i);
        var entry := ReadEntry(store, faults, key);
        pictures := pictures + [entry];
      }
      i := i + 1;
    }
    TakeAll(listing);
    pictures := SortNewestFirst(pictures);
    resp := Reply(200, PictureList(pictures, |pictures|));
  }

  /** The `head_object` call and the entry built from it for one listed key. */
  method ReadEntry(store: Store, faults: Faults, key: Key) returns (entry: Picture)
    requires key in store.objects
    ensures entry == Entry(store.State(), faults, key)
  {
    var md := store.HeadObject(faults, key);
    var date := store.objects[key].lastModified;
    var rating := if md.Some? then ListingRating(md.value) else None;
    if md.Some? && rating.Some? {
      entry := Picture(NameOf(md.value, key), date, None, rating.value, CommentsOf(md.value));
    } else {
      entry := Picture(LastSegment(key), date, None, 0, []);
    }
  }

  // ================================================================ get_stats

  /** `total_storage`: the sizes of the image keys added up. */
  function TotalStorage(b: Bucket, keys: seq<Key>): nat
    decreases |keys|
  {
    if keys == [] then 0
    else
      var k := keys[|keys| - 1];
      TotalStorage(b, keys[..|keys| - 1]) + (if IsImageKey(k) && k in b.objects then b.objects[k].Size() else 0)
  }

  lemma TotalStorageSnoc(b: Bucket, keys: seq<Key>, k: Key)
    ensures TotalStorage(b, keys + [k])
              == TotalStorage(b, keys) + (if IsImageKey(k) && k in b.objects then b.objects[k].Size() else 0)
  {
    assert (keys + [k])[..|keys|] == keys;
  }

  /** The totals over one more key of the listing. */
  lemma StatsStep(b: Bucket, keys: seq<Key>, i: nat)
    requires i < |keys|
    ensures |ImageKeys(keys[..i + 1])| == |ImageKeys(keys[..i])| + (if IsImageKey(keys[i]) then 1 else 0)
    ensures TotalStorage(b, keys[..i + 1])
              == TotalStorage(b, keys[..i]) + (if IsImageKey(keys[i]) && keys[i] in b.objects then b.objects[keys[i]].Size() else 0)
  {
    TakeOneMore(keys, i);
    FilterSnoc(keys[..i], keys[i], IsImageKey);
    TotalStorageSnoc(b, keys[..i], keys[i]);
  }

  method GetStats(store: Store) returns (resp: Response)
    requires store.Valid()
    ensures resp == Reply(200, StorageStats(|ImageKeys(store.State().Listing())|,
                                            TotalStorage(store.State(), store.State().Listing())))
  {
    var listing := store.ListObjects();
    ghost var b := store.State();
    var totalPictures, totalStorage := 0, 0;
    var i := 0;
    while i < |listing|
      invariant 0 <= i <= |listing|
      invariant totalPictures == |ImageKeys(listing[..i])|
      invariant totalStorage == TotalStorage(b, listing[..i])
    {
      var key := listing[i];
      StatsStep(b, listing, i);
      if IsImageKey(key) {
        ListedKeyStored(b, i);
        totalPictures := totalPictures + 1;
        totalStorage := totalStorage + store.objects[key].Size();
      }
      i := i + 1;
    }
    TakeAll(listing);
    resp := Reply(200, StorageStats(totalPictures, totalStorage));
  }

  /** The stats count the same pictures the listing shows. */
  lemma StatsAgreeWithListing(b: Bucket, faults: Faults)
    requires b.Valid()
    ensures |ImageKeys(b.Listing())| == |ListPictures(b, faults)|
  {
    ListPicturesCount(b, faults);
  }

  // ================================================================ delete_pictures

  /** Whether the object `key` is to be deleted for `name`. With metadata: the fuzzy
      name rule. Without (the `head_object` fallback): the requested name occurs in the
      file name, or the file name starts with it, ignoring case. */
  predicate DeleteMatch(md: Option<Metadata>, key: Key, name: string) {
    if md.Some? then FuzzyName(NameOf(md.value, key), name)
    else
      var file := Lower(LastSegment(key));
      Contains(file, Lower(name)) || StartsWith(file, Lower(name))
  }

  /** The `startswith` half of the fallback adds nothing: the delete rule is the fuzzy
      resolver's rule. */
  lemma DeleteMatchIsFuzzy(md: Option<Metadata>, key: Key, name: string)
    ensures DeleteMatch(md, key, name) <==> Answers(Fuzzy, md, key, name)
  {
  }

  function DeleteMatchName(md: Option<Metadata>, key: Key): string -> bool {
    n => DeleteMatch(md, key, n)
  }

  /** The requested name an object is claimed by: the first one it matches. */
  function ClaimOf(md: Option<Metadata>, key: Key, names: seq<string>): Option<nat> {
    FirstIndex(names, DeleteMatchName(md, key))
  }

  /** The inner loop over the requested names, stopping at the first match. */
  method FirstClaim(md: Option<Metadata>, key: Key, names: seq<string>) returns (claim: Option<nat>)
    ensures claim.Some? ==> claim.value < |names| && DeleteMatch(md, key, names[claim.value])
    ensures claim.Some? ==> forall j :: 0 <= j < claim.value ==> !DeleteMatch(md, key, names[j])
    ensures claim.None? ==> forall j :: 0 <= j < |names| ==> !DeleteMatch(md, key, names[j])
    ensures claim == ClaimOf(md, key, names)
  {
    var j := 0;
    while j < |names|
      invariant 0 <= j <= |names|
      invariant forall i :: 0 <= i < j ==> !DeleteMatch(md, key, names[i])
    {
      if DeleteMatch(md, key, names[j]) {
        FirstIndexAt(names, DeleteMatchName(md, key), j);
        return Some(j);
      }
      j := j + 1;
    }
    FirstIndexNone(names, DeleteMatchName(md, key));
    return None;
  }

  /** `keys_to_delete`: the objects claimed by some requested name, in listing order. */
  function Queue(b: Bucket, faults: Faults, keys: seq<Key>, names: seq<string>): seq<Key>
    decreases |keys|
  {
    if keys == [] then []
    else
      var k := keys[|keys| - 1];
      Queue(b, faults, keys[..|keys| - 1], names)
        + (if ClaimOf(b.Head(faults, k), k, names).Some? then [k] else [])
  }

  /** The keys of `name_to_key`: the names that claimed an object. */
  function Claimed(b: Bucket, faults: Faults, keys: seq<Key>, names: seq<string>): set<string>
    decreases |keys|
  {
    if keys == [] then {}
    else
      var k := keys[|keys| - 1];
      Claimed(b, faults, keys[..|keys| - 1], names)
        + (match ClaimOf(b.Head(faults, k), k, names) case None => {} case Some(i) => {names[i]})
  }

  function Unclaimed(claimed: set<string>): string -> bool {
    n => n !in claimed
  }

  /** `not_found`: the requested names, in request order, that claimed no object. */
  function NotFound(b: Bucket, faults: Faults, keys: seq<Key>, names: seq<string>): seq<string> {
    Filter(names, Unclaimed(Claimed(b, faults, keys, names)))
  }

  lemma QueueSnoc(b: Bucket, faults: Faults, keys: seq<Key>, k: Key, names: seq<string>)
    ensures Queue(b, faults, keys + [k], names) == Queue(b, faults, keys, names)
              + (if ClaimOf(b.Head(faults, k), k, names).Some? then [k] else [])
    ensures Claimed(b, faults, keys + [k], names) == Claimed(b, faults, keys, names)
              + (match ClaimOf(b.Head(faults, k), k, names) case None => {} case Some(i) => {names[i]})
  {
    assert (keys + [k])[..|keys|] == keys;
  }

  /** An object is queued exactly when it matches at least one requested name. */
  lemma {:induction false} QueueMembers(b: Bucket, faults: Faults, keys: seq<Key>, names: seq<string>)
    ensures forall k :: k in Queue(b, faults, keys, names) <==>
              k in keys && exists n :: n in names && DeleteMatch(b.Head(faults, k), k, n)
    decreases |keys|
  {
    if keys != [] {
      var init := keys[..|keys| - 1];
      var last := keys[|keys| - 1];
      QueueMembers(b, faults, init, names);
      assert keys == init + [last];
      var c := ClaimOf(b.Head(faults, last), last, names);
      if c.None? {
        assert forall n :: n in names ==> !DeleteMatch(b.Head(faults, last), last, n);
      } else {
        assert names[c.value] in names;
      }
    }
  }

  /** No object is queued twice. */
  lemma {:induction false} QueueDistinct(b: Bucket, faults: Faults, keys: seq<Key>, names: seq<string>)
    requires Distinct(keys)
    ensures Distinct(Queue(b, faults, keys, names))
    decreases |keys|
  {
    if keys != [] {
      var init := keys[..|keys| - 1];
      var last := keys[|keys| - 1];
      assert Distinct(init);
      QueueDistinct(b, faults, init, names);
      QueueMembers(b, faults, init, names);
      assert last !in init;
    }
  }

  /** Every claiming name is a requested name that matches some object. */
  lemma {:induction false} ClaimedMatch(b: Bucket, faults: Faults, keys: seq<Key>, names: seq<string>)
    ensures forall n :: n in Claimed(b, faults, keys, names) ==>
              n in names && exists k :: k in keys && DeleteMatch(b.Head(faults, k), k, n)
    decreases |keys|
  {
    if keys != [] {
      var init := keys[..|keys| - 1];
      var last := keys[|keys| - 1];
      ClaimedMatch(b, faults, init, names);
      assert keys == init + [last];
    }
  }

  /** `not_found` lists, in request order, requested names only, and every requested name
      that matches no object is in it. */
  lemma NotFoundCoversMisses(b: Bucket, faults: Faults, keys: seq<Key>, names: seq<string>)
    ensures forall n :: n in NotFound(b, faults, keys, names) ==> n in names
    ensures forall n :: n in names && (forall k :: k in keys ==> !DeleteMatch(b.Head(faults, k), k, n))
              ==> n in NotFound(b, faults, keys, names)
  {
    ClaimedMatch(b, faults, keys, names);
  }

  /** But `not_found` can also hold a name that does match: an object is claimed only by
      the first name it matches, so a later name matching the same object is reported as
      not found although that object is deleted. */
  lemma NotFoundCanHoldMatchedName()
    ensures var key := "pictures/a.jpg";
            var b := Bucket([key], map[key := StoredObject(map[NameKey := "a.jpg"], [], 0)]);
            var faults := Faults({}, {}, {});
            var names := ["a", "a.jpg"];
            DeleteMatch(b.Head(faults, key), key, "a.jpg")
            && Queue(b, faults, b.keys, names) == [key]
            && NotFound(b, faults, b.keys, names) == ["a.jpg"]
  {
    var key := "pictures/a.jpg";
    var b := Bucket([key], map[key := StoredObject(map[NameKey := "a.jpg"], [], 0)]);
    var faults := Faults({}, {}, {});
    var names := ["a", "a.jpg"];
    assert b.Head(faults, key) == Some(map[NameKey := "a.jpg"]);
    FirstNameClaims();
    assert [key][..0] == [];
    assert Claimed(b, faults, [key], names) == {"a"};
    assert names == ["a"] + ["a.jpg"];
    FilterSnoc(["a"], "a.jpg", Unclaimed({"a"}));
    assert ["a"][..0] == [];
  }

  /** The object stored as `a.jpg` answers to both `a` and `a.jpg`, and is claimed by the
      first of them. */
  lemma FirstNameClaims()
    ensures var md := Some(map[NameKey := "a.jpg"]);
            DeleteMatch(md, "pictures/a.jpg", "a.jpg")
            && ClaimOf(md, "pictures/a.jpg", ["a", "a.jpg"]) == Some(0)
  {
    var md: Option<Metadata> := Some(map[NameKey := "a.jpg"]);
    assert NameOf(md.value, "pictures/a.jpg") == "a.jpg";
    assert Contains(Lower("a.jpg"), Lower("a")) by {
      assert Lower("a.jpg") == "a.jpg";
      assert Lower("a") == "a";
      assert StartsWith("a.jpg", "a");
    }
  }

  /** `delete_pictures`. */
  function DeleteOutcome(b: Bucket, faults: Faults, body: RequestBody): Outcome
  {
    match body
    case NoBody => Outcome(Reply(400, Error("No request body provided")), b)
    case Unparseable => Outcome(Reply(500, Error("Failed to delete pictures")), b)
    case Json(p) =>
      var names := p.pictures;
      if names == [] then Outcome(Reply(400, Error("No pictures specified for deletion")), b)
      else
        var queue := Queue(b, faults, b.Listing(), names);
        var notFound := NotFound(b, faults, b.Listing(), names);
        if queue == [] then
          Outcome(Reply(404, DeleteMiss("No matching pictures found for deletion", notFound)), b)
        else
          var deleted := Filter(queue, Deletable(faults));
          var errors := Filter(queue, Undeletable(faults));
          Outcome(Reply(200, Deleted(|deleted|, |names|, notFound, errors)), b.RemoveAll(deleted))
  }

  /** The loop over the listing: head each object, find the name claiming it, and
      record it in `keys_to_delete` and `name_to_key`. */
  method ClaimObjects(store: Store, faults: Faults, listing: seq<Key>, names: seq<string>)
    returns (queue: seq<Key>, nameToKey: map<string, Key>)
    ensures queue == Queue(store.State(), faults, listing, names)
    ensures nameToKey.Keys == Claimed(store.State(), faults, listing, names)
  {
    ghost var b := store.State();
    nameToKey := map[];
    queue := [];
    var i := 0;
    while i < |listing|
      invariant 0 <= i <= |listing|
      invariant queue == Queue(b, faults, listing[..i], names)
      invariant nameToKey.Keys == Claimed(b, faults, listing[..i], names)
    {
      var key := listing[i];
      TakeOneMore(listing, i);
      QueueSnoc(b, faults, listing[..i], key, names);
      var md := store.HeadObject(faults, key);
      var claim := FirstClaim(md, key, names);
      if claim.Some? {
        queue := queue + [key];
        nameToKey := nameToKey[names[claim.value] := key];
      }
      i := i + 1;
    }
    TakeAll(listing);
  }

  /** The loop collecting `not_found`. */
  method Unmatched(names: seq<string>, nameToKey: map<string, Key>) returns (notFound: seq<string>)
    ensures notFound == Filter(names, Unclaimed(nameToKey.Keys))
  {
    notFound := [];
    var j := 0;
    while j < |names|
      invariant 0 <= j <= |names|
      invariant notFound == Filter(names[..j], Unclaimed(nameToKey.Keys))
    {
      TakeOneMore(names, j);
      FilterSnoc(names[..j], names[j], Unclaimed(nameToKey.Keys));
      assert Unclaimed(nameToKey.Keys)(names[j]) <==> names[j] !in nameToKey;
      if names[j] !in nameToKey {
        notFound := notFound + [names[j]];
      }
      j := j + 1;
    }
    TakeAll(names);
  }

  method DeletePictures(store: Store, faults: Faults, body: RequestBody) returns (resp: Response)
    requires store.Valid()
    modifies store
    ensures store.Valid()
    ensures Outcome(resp, store.State()) == DeleteOutcome(old(store.State()), faults, body)
  {
    if body.NoBody? {
      return Reply(400, Error("No request body provided"));
    }
    if body.Unparseable? {
      return Reply(500, Error("Failed to delete pictures"));
    }
    var names := body.payload.pictures;
    if names == [] {
      return Reply(400, Error("No pictures specified for deletion"));
    }
    var listing := store.ListObjects();
    var queue, nameToKey := ClaimObjects(store, faults, listing, names);
    var notFound := Unmatched(names, nameToKey);
    if queue == [] {
      return Reply(404, DeleteMiss("No matching pictures found for deletion", notFound));
    }
    var deleted, errors := store.DeleteObjects(faults, queue);
    resp := Reply(200, Deleted(|deleted|, |names|, notFound, errors));
  }

  /** What a delete promises: an empty request deletes nothing; when no object matches the
      answer is 404 and nothing is deleted; otherwise exactly the queued objects whose
      deletion does not fail are gone, every other object is untouched, and
      `deleted_count` counts the deletions. */
  lemma DeleteContract(b: Bucket, faults: Faults, body: RequestBody)
    requires b.Valid()
    ensures body.Json? && body.payload.pictures == [] ==>
              DeleteOutcome(b, faults, body) == Outcome(Reply(400, Error("No pictures specified for deletion")), b)
    ensures body.Json? && body.payload.pictures != [] && Queue(b, faults, b.Listing(), body.payload.pictures) == [] ==>
              DeleteOutcome(b, faults, body).response.status == 404 && DeleteOutcome(b, faults, body).bucket == b
    ensures var o := DeleteOutcome(b, faults, body);
            o.response.status == 200 ==>
              body.Json?
              && var queue := Queue(b, faults, b.Listing(), body.payload.pictures);
              (forall k :: k in o.bucket.objects <==> k in b.objects && (k !in queue || k in faults.delete))
              && (forall k :: k in o.bucket.objects ==> o.bucket.objects[k] == b.objects[k])
              && o.response.body.deletedCount <= |queue|
  {
    if body.Json? && body.payload.pictures != [] {
      var queue := Queue(b, faults, b.Listing(), body.payload.pictures);
      var deleted := Filter(queue, Deletable(faults));
      RemoveAllObjects(b, deleted);
    }
  }

  /** On success `deleted_count` is the number of queued objects whose deletion did not
      fail, the store shrinks by exactly that many, and `errors` lists the queued keys
      whose deletion failed, in queue order. */
  lemma DeleteCounts(b: Bucket, faults: Faults, body: RequestBody)
    requires b.Valid()
    ensures var o := DeleteOutcome(b, faults, body);
            o.response.status == 200 ==>
              body.Json?
              && var queue := Queue(b, faults, b.Listing(), body.payload.pictures);
              o.response.body.deletedCount == |Filter(queue, Deletable(faults))|
              && o.response.body.errors == Filter(queue, Undeletable(faults))
              && |o.bucket.objects| + o.response.body.deletedCount == |b.objects|
  {
    if body.Json? && body.payload.pictures != [] {
      var names := body.payload.pictures;
      var queue := Queue(b, faults, b.Listing(), names);
      var deleted := Filter(queue, Deletable(faults));
      FilterDistinct(b.keys, k => StartsWith(k, Prefix));
      QueueDistinct(b, faults, b.Listing(), names);
      QueueMembers(b, faults, b.Listing(), names);
      FilterDistinct(queue, Deletable(faults));
      forall k | k in deleted
        ensures k in b.objects
      {
        assert k in queue && k in b.Listing();
      }
      RemoveAllCount(b, deleted);
    }
  }

  // ================================================================ rate_picture

  /** The metadata after rating: `rating` becomes the rating text and `original-name` the
      requested name; every other key keeps its value. */
  function RatedMetadata(md: Metadata, text: string, name: string): (r: Metadata)
    ensures r.Keys == md.Keys + {RatingKey, NameKey}
    ensures forall k :: k in md && k != RatingKey && k != NameKey ==> r[k] == md[k]
    ensures RatingKey in r && r[RatingKey] == text && NameKey in r && r[NameKey] == name
  {
    md[RatingKey := text][NameKey := name]
  }

  /** `rate_picture`. */
  function RateOutcome(b: Bucket, faults: Faults, body: RequestBody): Outcome {
    match body
    case NoBody => Outcome(Reply(400, Error("No request body provided")), b)
    case Unparseable => Outcome(Reply(500, Error("Failed to rate picture")), b)
    case Json(p) =>
      if !Given(p.picture) then Outcome(Reply(400, Error("Picture name is required")), b)
      else if !ValidRating(p.rating) then
        Outcome(Reply(400, Error("Rating must be an integer between 1 and 5")), b)
      else
        var name := p.picture.value;
        match Resolve(Fuzzy, b, faults, b.Listing(), name)
        case None => Outcome(Reply(404, Error("Picture \"" + name + "\" not found")), b)
        case Some(k) =>
          match b.Head(faults, k)
          case None => Outcome(Reply(500, Error("Failed to rate picture")), b)
          case Some(md) =>
            Outcome(Reply(200, RateSuccess(name, p.rating)),
                    b.Replace(k, RatedMetadata(md, RatingText(p.rating), name)))
  }

  method RatePicture(store: Store, faults: Faults, body: RequestBody) returns (resp: Response)
    requires store.Valid()
    modifies store
    ensures store.Valid()
    ensures Outcome(resp, store.State()) == RateOutcome(old(store.State()), faults, body)
  {
    if body.NoBody? {
      return Reply(400, Error("No request body provided"));
    }
    if body.Unparseable? {
      return Reply(500, Error("Failed to rate picture"));
    }
    var p := body.payload;
    if !Given(p.picture) {
      return Reply(400, Error("Picture name is required"));
    }
    if !ValidRating(p.rating) {
      return Reply(400, Error("Rating must be an integer between 1 and 5"));
    }
    var name := p.picture.value;
    var listing := store.ListObjects();
    var target := Scan(store, faults, listing, Fuzzy, name);
    if target.None? {
      return Reply(404, Error("Picture \"" + name + "\" not found"));
    }
    var md := store.HeadObject(faults, target.value);
    if md.None? {
      return Reply(500, Error("Failed to rate picture"));
    }
    store.CopyReplace(target.value, RatedMetadata(md.value, RatingText(p.rating), name));
    resp := Reply(200, RateSuccess(name, p.rating));
  }

  /** A missing name or an invalid rating is refused with 400 whatever the store holds,
      and nothing changes. */
  lemma RateValidatesFirst(b: Bucket, b': Bucket, faults: Faults, faults': Faults, p: Payload)
    requires !Given(p.picture) || !ValidRating(p.rating)
    ensures RateOutcome(b, faults, Json(p)).response == RateOutcome(b', faults', Json(p)).response
    ensures RateOutcome(b, faults, Json(p)).response.status == 400
    ensures RateOutcome(b, faults, Json(p)).bucket == b
  {
  }

  /** A rating succeeds exactly when the name is given, the rating is valid, the name
      resolves under the fuzzy rule and that object's metadata can be read; only a
      success changes the store. */
  lemma RateSucceeds(b: Bucket, faults: Faults, p: Payload)
    ensures RateOutcome(b, faults, Json(p)).response.status == 200 <==>
              Given(p.picture) && ValidRating(p.rating)
              && var k := Resolve(Fuzzy, b, faults, b.Listing(), p.picture.value);
                 k.Some? && b.Head(faults, k.value).Some?
    ensures RateOutcome(b, faults, Json(p)).response.status != 200 ==> RateOutcome(b, faults, Json(p)).bucket == b
  {
  }

  /** A successful rating rewrites the object the name resolves to (the first in listing
      order that answers to the name under the fuzzy rule), and no other; the listing
      then shows that object under the requested name with the new rating and its
      comments unchanged. */
  lemma RateUpdatesFirstMatch(b: Bucket, faults: Faults, p: Payload, r: int, k: Key)
    requires b.Valid() && Given(p.picture) && p.rating == RInt(r) && 1 <= r <= 5
    requires RateOutcome(b, faults, Json(p)).response.status == 200
    requires Resolve(Fuzzy, b, faults, b.Listing(), p.picture.value) == Some(k)
    ensures var b' := RateOutcome(b, faults, Json(p)).bucket;
            k in b.objects && k !in faults.head
            && b'.keys == b.keys
            && (forall k' :: k' in b.objects && k' != k ==> k' in b'.objects && b'.objects[k'] == b.objects[k'])
            && k in b'.objects
            && Entry(b', faults, k)
               == Picture(p.picture.value, b.objects[k].lastModified, None, r, CommentsOf(b.objects[k].metadata))
  {
    RateSucceeds(b, faults, p);
    assert k in b.objects && k !in faults.head;
    var md := b.objects[k].metadata;
    var md' := RatedMetadata(md, IntText(r), p.picture.value);
    var b' := b.Replace(k, md');
    assert RatingText(p.rating) == IntText(r);
    RatedAt(b, faults, p, k);
    assert b'.Head(faults, k) == Some(md');
    StoredRatingReadBack(md', r);
    assert CommentsKey in md' <==> CommentsKey in md;
    assert CommentsOf(md') == CommentsOf(md);
  }

  /** A valid rating of a name that resolves to a readable `k` is saved into the
      metadata of `k`. */
  lemma RatedAt(b: Bucket, faults: Faults, p: Payload, k: Key)
    requires Given(p.picture) && ValidRating(p.rating)
    requires Resolve(Fuzzy, b, faults, b.Listing(), p.picture.value) == Some(k)
    requires k in b.objects && k !in faults.head
    ensures RateOutcome(b, faults, Json(p))
            == Outcome(Reply(200, RateSuccess(p.picture.value, p.rating)),
                       b.Replace(k, RatedMetadata(b.objects[k].metadata, RatingText(p.rating), p.picture.value)))
  {
    assert !p.rating.RText? && !p.rating.RNull? && !p.rating.RAbsent?;
    assert b.Head(faults, k) == Some(b.objects[k].metadata);
  }

  /** A rating of JSON `true` passes validation and is stored as `"True"`, which the
      listing cannot read back: the entry then falls back to rating 0 and the file name. */
  lemma BoolRatingIsUnreadable(b: Bucket, faults: Faults, p: Payload, k: Key)
    requires b.Valid() && Given(p.picture) && p.rating == RBool(true)
    requires RateOutcome(b, faults, Json(p)).response.status == 200
    requires Resolve(Fuzzy, b, faults, b.Listing(), p.picture.value) == Some(k)
    ensures var b' := RateOutcome(b, faults, Json(p)).bucket;
            k in b'.objects && Entry(b', faults, k) == Picture(LastSegment(k), b.objects[k].lastModified, None, 0, [])
  {
    TrueTextIsNotAnInteger();
  }

  // ================================================================ add_comment

  /** `add_comment`. */
  function CommentOutcome(b: Bucket, faults: Faults, env: Env, body: RequestBody): Outcome {
    match body
    case NoBody => Outcome(Reply(500, Error("Failed to add comment")), b)
    case Unparseable => Outcome(Reply(500, Error("Failed to add comment")), b)
    case Json(p) =>
      if !(Given(p.picture) && Given(p.author) && Given(p.text)) then
        Outcome(Reply(400, Error("Missing required fields: picture, author, text")), b)
      else
        var name := p.picture.value;
        match Resolve(Exact, b, faults, b.Listing(), name)
        case None => Outcome(Reply(404, Error("Picture not found: " + name)), b)
        case Some(k) =>
          var c := Comment(p.author.value, p.text.value, env.isoNow);
          Outcome(Reply(200, Commented("Comment added successfully", c)),
                  b.Replace(k, CommentedMetadata(b.objects[k].metadata, c)))
  }

  method AddComment(store: Store, faults: Faults, env: Env, body: RequestBody) returns (resp: Response)
    requires store.Valid()
    modifies store
    ensures store.Valid()
    ensures Outcome(resp, store.State()) == CommentOutcome(old(store.State()), faults, env, body)
  {
    if body.NoBody? || body.Unparseable? {
      return Reply(500, Error("Failed to add comment"));
    }
    var p := body.payload;
    if !(Given(p.picture) && Given(p.author) && Given(p.text)) {
      return Reply(400, Error("Missing required fields: picture, author, text"));
    }
    var name := p.picture.value;
    var listing := store.ListObjects();
    var target := Scan(store, faults, listing, Exact, name);
    if target.None? {
      return Reply(404, Error("Picture not found: " + name));
    }
    var md := store.HeadObject(faults, target.value);
    var c := Comment(p.author.value, p.text.value, env.isoNow);
    store.CopyReplace(target.value, CommentedMetadata(md.value, c));
    resp := Reply(200, Commented("Comment added successfully", c));
  }

  /** A comment succeeds exactly when the request names a picture, an author and a text,
      and the name resolves exactly; a missing field gives 400 and a name that does not
      resolve 404; only a success changes the store. */
  lemma CommentSucceeds(b: Bucket, faults: Faults, env: Env, body: RequestBody)
    ensures body.Json? && !(Given(body.payload.picture) && Given(body.payload.author) && Given(body.payload.text)) ==>
              CommentOutcome(b, faults, env, body)
              == Outcome(Reply(400, Error("Missing required fields: picture, author, text")), b)
    ensures body.Json? && Given(body.payload.picture) && Given(body.payload.author) && Given(body.payload.text)
            && Resolve(Exact, b, faults, b.Listing(), body.payload.picture.value).None? ==>
              CommentOutcome(b, faults, env, body)
              == Outcome(Reply(404, Error("Picture not found: " + body.payload.picture.value)), b)
    ensures CommentOutcome(b, faults, env, body).response.status == 200 <==>
              body.Json? && Given(body.payload.picture) && Given(body.payload.author) && Given(body.payload.text)
              && Resolve(Exact, b, faults, b.Listing(), body.payload.picture.value).Some?
    ensures CommentOutcome(b, faults, env, body).response.status != 200 ==> CommentOutcome(b, faults, env, body).bucket == b
  {
  }

  /** A complete comment on a name that resolves to `k` is appended to the metadata of `k`. */
  lemma CommentedAt(b: Bucket, faults: Faults, env: Env, p: Payload, k: Key)
    requires Given(p.picture) && Given(p.author) && Given(p.text)
    requires Resolve(Exact, b, faults, b.Listing(), p.picture.value) == Some(k)
    ensures k in b.objects
    ensures CommentOutcome(b, faults, env, Json(p)).bucket
            == b.Replace(k, CommentedMetadata(b.objects[k].metadata, Comment(p.author.value, p.text.value, env.isoNow)))
  {
  }

  /** A successful comment goes to the object the name resolves to, an image whose
      stored name equals the requested one; only that object's `comments` changes, and
      the listing then shows its earlier comments, in order, followed by the new one. */
  lemma CommentAppends(b: Bucket, faults: Faults, env: Env, p: Payload, k: Key)
    requires b.Valid()
    requires CommentOutcome(b, faults, env, Json(p)).response.status == 200
    requires Resolve(Exact, b, faults, b.Listing(), p.picture.value) == Some(k)
    ensures var b' := CommentOutcome(b, faults, env, Json(p)).bucket;
            var md := b.objects[k].metadata;
            IsImageKey(k) && NameOf(md, k) == p.picture.value
            && b'.keys == b.keys
            && (forall k' :: k' in b.objects && k' != k ==> k' in b'.objects && b'.objects[k'] == b.objects[k'])
            && k in b'.objects
            && (forall key :: key in md && key != CommentsKey ==>
                  key in b'.objects[k].metadata && b'.objects[k].metadata[key] == md[key])
            && CommentsOf(b'.objects[k].metadata)
               == CommentsOf(md) + [Comment(p.author.value, p.text.value, env.isoNow)]
  {
    CommentSucceeds(b, faults, env, Json(p));
    CommentedAt(b, faults, env, p, k);
  }

  // ================================================================ upload_picture

  function UploadMetadata(name: string, env: Env): Metadata {
    map[NameKey := name, "upload_date" := env.isoNow, RatingKey := "0"]
  }

  /** `upload_picture`. */
  function UploadOutcome(b: Bucket, env: Env, body: RequestBody): Outcome {
    match body
    case NoBody => Outcome(Reply(500, Error("Failed to upload picture")), b)
    case Unparseable => Outcome(Reply(500, Error("Failed to upload picture")), b)
    case Json(p) =>
      if p.data == [] then Outcome(Reply(400, Error("No picture data provided")), b)
      else
        var name := UploadName(p, env);
        var key := UploadKey(name, env);
        Outcome(Reply(200, Uploaded("Picture uploaded successfully", key, name)),
                b.Put(key, StoredObject(UploadMetadata(name, env), p.data, env.now)))
  }

  method UploadPicture(store: Store, env: Env, body: RequestBody) returns (resp: Response)
    requires store.Valid()
    modifies store
    ensures store.Valid()
    ensures Outcome(resp, store.State()) == UploadOutcome(old(store.State()), env, body)
  {
    if body.NoBody? || body.Unparseable? {
      return Reply(500, Error("Failed to upload picture"));
    }
    var p := body.payload;
    if p.data == [] {
      return Reply(400, Error("No picture data provided"));
    }
    var name := UploadName(p, env);
    var key := UploadKey(name, env);
    store.PutObject(key, StoredObject(UploadMetadata(name, env), p.data, env.now));
    resp := Reply(200, Uploaded("Picture uploaded successfully", key, name));
  }

  /** An upload without data is refused and writes nothing. Otherwise the new key is
      `pictures/{stamp}_{hex}.{ext}`, where `ext` follows the name's last dot (`jpg` when
      it has none), the stored metadata holds the name and rating `'0'`, and every other
      object is as it was. */
  lemma UploadContract(b: Bucket, env: Env, p: Payload)
    ensures p.data == [] ==> UploadOutcome(b, env, Json(p)) == Outcome(Reply(400, Error("No picture data provided")), b)
    ensures p.data != [] ==>
              var name := UploadName(p, env);
              var key := UploadOutcome(b, env, Json(p)).response.body.key;
              var b' := UploadOutcome(b, env, Json(p)).bucket;
              key == Prefix + env.stamp + "_" + env.keyHex + "." + Extension(name)
              && ('.' in name ==> EndsWith(name, "." + Extension(name)))
              && ('.' !in name ==> Extension(name) == "jpg")
              && key in b'.objects
              && b'.objects[key].bytes == p.data
              && b'.objects[key].metadata[NameKey] == name
              && b'.objects[key].metadata[RatingKey] == "0"
    ensures p.data != [] ==>
              var key := UploadOutcome(b, env, Json(p)).response.body.key;
              var b' := UploadOutcome(b, env, Json(p)).bucket;
              (forall k :: k != key ==> (k in b'.objects <==> k in b.objects))
              && (forall k :: k != key && k in b.objects ==> b'.objects[k] == b.objects[k])
  {
  }

  /** The listing reads a fresh upload back under its given name, with its upload time,
      rating 0 and no comments. */
  lemma UploadedEntry(b: Bucket, faults: Faults, env: Env, p: Payload)
    requires p.data != []
    requires UploadKey(UploadName(p, env), env) !in faults.head
    ensures var key := UploadKey(UploadName(p, env), env);
            var b' := UploadOutcome(b, env, Json(p)).bucket;
            key in b'.objects && Entry(b', faults, key) == Picture(UploadName(p, env), env.now, None, 0, [])
  {
    var name := UploadName(p, env);
    var key := UploadKey(name, env);
    var md := UploadMetadata(name, env);
    var b' := b.Put(key, StoredObject(md, p.data, env.now));
    assert UploadOutcome(b, env, Json(p)).bucket == b';
    assert b'.Head(faults, key) == Some(md);
    assert md[RatingKey] == IntText(0);
    StoredRatingReadBack(md, 0);
    assert CommentsKey !in md;
  }

  /** After an upload the new key is listed; it is among the pictures the gallery shows
      exactly when its extension is an image extension, and then with the given name,
      rating 0 and no comments. */
  lemma UploadThenList(b: Bucket, faults: Faults, env: Env, p: Payload)
    requires b.Valid() && p.data != []
    requires UploadKey(UploadName(p, env), env) !in faults.head
    ensures var name := UploadName(p, env);
            var key := UploadKey(name, env);
            var b' := UploadOutcome(b, env, Json(p)).bucket;
            key in b'.Listing()
            && (key in ImageKeys(b'.Listing()) <==> IsImageExtension(Lower(Extension(name))))
            && Entry(b', faults, key) == Picture(name, env.now, None, 0, [])
  {
    var name := UploadName(p, env);
    var key := UploadKey(name, env);
    assert StartsWith(key, Prefix) by {
      assert key[..|Prefix|] == Prefix;
    }
    UploadKeyIsImage(p, env);
    UploadedEntry(b, faults, env, p);
  }

  // ================================================================ routing

  datatype Route = Preflight | Static(kind: AssetKind) | Api(handler: Handler) | NoRoute

  /** The static front-end paths, answered whatever the method. */
  const StaticRoutes: map<string, AssetKind> :=
    map["/" := Html, "/index.html" := Html, "/style.css" := Css, "/script.js" := Js]

  /** The `if`/`elif` chain of `lambda_handler` on a path and an HTTP method (`verb`),
      which agrees with the route tables:
      preflight first, then the static paths, then the API table, else no route. */
  function Dispatch(path: string, verb: string): (r: Route)
    ensures verb == "OPTIONS" ==> r == Preflight
    ensures verb != "OPTIONS" && path in StaticRoutes ==> r == Static(StaticRoutes[path])
    ensures verb != "OPTIONS" && path !in StaticRoutes && (path, verb) in ApiRoutes
            ==> r == Api(ApiRoutes[(path, verb)])
    ensures verb != "OPTIONS" && path !in StaticRoutes && (path, verb) !in ApiRoutes ==> r == NoRoute
  {
    if verb == "OPTIONS" then Preflight
    else if path == "/" || path == "/index.html" then Static(Html)
    else if path == "/style.css" then Static(Css)
    else if path == "/script.js" then Static(Js)
    else if path == "/api/pictures" && verb == "GET" then Api(ListHandler)
    else if path == "/api/pictures" && verb == "POST" then Api(UploadHandler)
    else if path == "/api/pictures" && verb == "DELETE" then Api(DeleteHandler)
    else if path == "/api/pictures/rate" && verb == "POST" then Api(RateHandler)
    else if path == "/api/pictures/comment" && verb == "POST" then Api(CommentHandler)
    else if path == "/api/pictures/download" && verb == "POST" then Api(DownloadHandler)
    else if path == "/api/stats" && verb == "GET" then Api(StatsHandler)
    else NoRoute
  }

  /** `serve_html`, `serve_css`, `serve_js`: the content type and an open origin. */
  function AssetResponse(kind: AssetKind): Response {
    var contentType := match kind case Html => "text/html" case Css => "text/css" case Js => "application/javascript";
    Response(200, map["Content-Type" := contentType, "Access-Control-Allow-Origin" := "*"], Asset(kind))
  }

  /** `lambda_handler`. */
  function HandleOutcome(b: Bucket, faults: Faults, env: Env, e: Event): Outcome
    requires b.Valid()
  {
    match Dispatch(e.Path(), e.Method())
    case Preflight => Outcome(Reply(200, Empty), b)
    case Static(kind) => Outcome(AssetResponse(kind), b)
    case NoRoute => Outcome(Reply(404, Error("Not found")), b)
    case Api(h) =>
      match h
      case ListHandler =>
        var ps := ListPictures(b, faults);
        Outcome(Reply(200, PictureList(ps, |ps|)), b)
      case UploadHandler => UploadOutcome(b, env, e.body)
      case DeleteHandler => DeleteOutcome(b, faults, e.body)
      case RateHandler => RateOutcome(b, faults, e.body)
      case CommentHandler => CommentOutcome(b, faults, env, e.body)
      case DownloadHandler => Outcome(DownloadOutcome(b, faults, e.body, AllowMethods, env.day), b)
      case StatsHandler =>
        Outcome(Reply(200, StorageStats(|ImageKeys(b.Listing())|, TotalStorage(b, b.Listing()))), b)
  }

  method Handle(store: Store, faults: Faults, env: Env, e: Event) returns (resp: Response)
    requires store.Valid()
    modifies store
    ensures store.Valid()
    ensures Outcome(resp, store.State()) == HandleOutcome(old(store.State()), faults, env, e)
  {
    var route := Dispatch(e.Path(), e.Method());
    match route
    case Preflight => resp := Reply(200, Empty);
    case Static(kind) => resp := AssetResponse(kind);
    case NoRoute => resp := Reply(404, Error("Not found"));
    case Api(h) =>
      match h
      case ListHandler => resp := GetPictures(store, faults);
      case UploadHandler => resp := UploadPicture(store, env, e.body);
      case DeleteHandler => resp := DeletePictures(store, faults, e.body);
      case RateHandler => resp := RatePicture(store, faults, e.body);
      case CommentHandler => resp := AddComment(store, faults, env, e.body);
      case DownloadHandler => resp := Download(store, faults, e.body, AllowMethods, env.day);
      case StatsHandler => resp := GetStats(store);
  }

  /** A preflight is answered 200 with an empty body on any path; a request that matches
      no route is answered 404 `Not found`; neither touches the store. Only the listed API
      routes reach a handler. */
  lemma RoutingContract(b: Bucket, faults: Faults, env: Env, e: Event)
    requires b.Valid()
    ensures e.Method() == "OPTIONS" ==>
              HandleOutcome(b, faults, env, e) == Outcome(Response(200, CorsHeaders(AllowMethods), Empty), b)
    ensures e.Method() != "OPTIONS" && e.Path() !in StaticRoutes && (e.Path(), e.Method()) !in ApiRoutes ==>
              HandleOutcome(b, faults, env, e) == Outcome(Response(404, CorsHeaders(AllowMethods), Error("Not found")), b)
    ensures Dispatch(e.Path(), e.Method()).Api? ==> (e.Path(), e.Method()) in ApiRoutes
  {
  }
}
