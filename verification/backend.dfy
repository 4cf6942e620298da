/** backend_lambda.py: the API-only Lambda (the front end is served elsewhere).

    Its handlers differ from unified_lambda.py's in what they skip and how they match:
    the listing drops an object whose metadata cannot be read instead of showing
    defaults, every name is matched exactly, a delete removes at most one object per
    requested name, and the statistics report ratings and comments. As in the unified
    file, each handler is a method proved to produce the `Outcome` of a specification
    function, and the lemmas state what the handlers promise about those functions. */
module Backend {
  import opened Prelude
  import opened Text
  import opened Codec
  import opened Storage
  import opened Http
  import opened Gallery

  const AllowMethods := "GET, POST, DELETE, OPTIONS"

  /** A JSON response with this file's CORS headers. */
  function Reply(status: int, body: Body): Response {
    Response(status, CorsHeaders(AllowMethods), body)
  }

  // ================================================================ get_pictures

  /** The listing entry of an image key, or `None` where `head_object` or
      `int(rating)` raises and the object is left out of the listing. */
  function Entry(b: Bucket, faults: Faults, key: Key): Option<Picture>
    requires key in b.objects
  {
    match b.Head(faults, key)
    case None => None
    case Some(md) =>
      match StrictRating(md)
      case None => None
      case Some(rating) =>
        Some(Picture(NameOf(md, key), b.objects[key].lastModified, Some(b.objects[key].Size()),
                     rating, CommentsOf(md)))
  }

  /** `pictures` after the collection loop: the entries of the image keys that could be
      read, in listing order. (Listed keys are stored; a key that is not adds nothing.) */
  function Collected(b: Bucket, faults: Faults, keys: seq<Key>): seq<Picture>
    decreases |keys|
  {
    if keys == [] then []
    else
      var k := keys[|keys| - 1];
      Collected(b, faults, keys[..|keys| - 1])
        + (if IsImageKey(k) && k in b.objects && Entry(b, faults, k).Some? then [Entry(b, faults, k).value] else [])
  }

  lemma CollectedSnoc(b: Bucket, faults: Faults, keys: seq<Key>, k: Key)
    ensures Collected(b, faults, keys + [k])
              == Collected(b, faults, keys)
                 + (if IsImageKey(k) && k in b.objects && Entry(b, faults, k).Some? then [Entry(b, faults, k).value] else [])
  {
    assert (keys + [k])[..|keys|] == keys;
  }

  /** The listing holds at most one entry per image key, and one for each when every
      image key can be read. */
  lemma {:induction false} CollectedLength(b: Bucket, faults: Faults, keys: seq<Key>)
    requires forall k :: k in keys ==> k in b.objects
    ensures |Collected(b, faults, keys)| <= |ImageKeys(keys)|
    ensures (forall k :: k in keys && IsImageKey(k) ==> Entry(b, faults, k).Some?) ==>
              |Collected(b, faults, keys)| == |ImageKeys(keys)|
    decreases |keys|
  {
    if keys != [] {
      var init := keys[..|keys| - 1];
      var k := keys[|keys| - 1];
      CollectedLength(b, faults, init);
      assert keys == init + [k];
      FilterSnoc(init, k, IsImageKey);
    }
  }

  /** Every readable image key has its entry in the listing. */
  lemma {:induction false} CollectedHasEntries(b: Bucket, faults: Faults, keys: seq<Key>)
    requires forall k :: k in keys ==> k in b.objects
    ensures forall k :: k in keys && IsImageKey(k) && Entry(b, faults, k).Some? ==>
              Entry(b, faults, k).value in Collected(b, faults, keys)
    decreases |keys|
  {
    if keys != [] {
      var init := keys[..|keys| - 1];
      var k := keys[|keys| - 1];
      CollectedHasEntries(b, faults, init);
      assert keys == init + [k];
      CollectedSnoc(b, faults, init, k);
    }
  }

  /** Every entry of the listing is the entry of a readable image key. */
  lemma {:induction false} CollectedFromEntries(b: Bucket, faults: Faults, keys: seq<Key>)
    requires forall k :: k in keys ==> k in b.objects
    ensures forall p :: p in Collected(b, faults, keys) ==>
              exists k :: k in keys && IsImageKey(k) && Entry(b, faults, k) == Some(p)
    decreases |keys|
  {
    if keys != [] {
      var init := keys[..|keys| - 1];
      var k := keys[|keys| - 1];
      CollectedFromEntries(b, faults, init);
      assert keys == init + [k];
      CollectedSnoc(b, faults, init, k);
      forall p | p in Collected(b, faults, keys)
        ensures exists k' :: k' in keys && IsImageKey(k') && Entry(b, faults, k') == Some(p)
      {
        if p in Collected(b, faults, init) {
          var k' :| k' in init && IsImageKey(k') && Entry(b, faults, k') == Some(p);
          assert k' in keys;
        } else {
          assert IsImageKey(k) && Entry(b, faults, k) == Some(p);
        }
      }
    }
  }

  method GetPictures(store: Store, faults: Faults) returns (resp: Response)
    requires store.Valid()
    ensures resp == Reply(200, PictureArray(Collected(store.State(), faults, store.State().Listing())))
  {
    var listing := store.ListObjects();
    ghost var b := store.State();
    var pictures: seq<Picture> := [];
    var i := 0;
    while i < |listing|
      invariant 0 <= i <= |listing|
      invariant pictures == Collected(b, faults, listing[..i])
    {
      var key := listing[i];
      TakeOneMore(listing, i);
      CollectedSnoc(b, faults, listing[..i], key);
      if IsImageKey(key) {
        ListedKeyStored(b, i);
        var entry := ReadEntry(store, faults, key);
        if entry.Some? {
          pictures := pictures + [entry.value];
        }
      }
      i := i + 1;
    }
    TakeAll(listing);
    resp := Reply(200, PictureArray(pictures));
  }

  /** The `head_object` call and the entry built from it for one listed key. */
  method ReadEntry(store: Store, faults: Faults, key: Key) returns (entry: Option<Picture>)
    requires key in store.objects
    ensures entry == Entry(store.State(), faults, key)
  {
    entry := None;
    var md := store.HeadObject(faults, key);
    if md.Some? {
      var rating := StrictRating(md.value);
      if rating.Some? {
        var obj := store.objects[key];
        entry := Some(Picture(NameOf(md.value, key), obj.lastModified, Some(obj.Size()),
                              rating.value, CommentsOf(md.value)));
      }
    }
  }

  // ================================================================ upload_picture

  function UploadMetadata(name: string, env: Env): Metadata {
    map[NameKey := name, "upload-date" := env.isoNow, RatingKey := "0", CommentsKey := "[]"]
  }

  /** `upload_picture`. */
  function UploadOutcome(b: Bucket, env: Env, body: RequestBody): Outcome {
    match body
    case NoBody => Outcome(Reply(500, Error("Failed to upload picture")), b)
    case Unparseable => Outcome(Reply(500, Error("Failed to upload picture")), b)
    case Json(p) =>
      if p.data == [] then Outcome(Reply(400, Error("No picture data provided")), b)
      else
        var name := UploadName(p, env);
        var key := UploadKey(name, env);
        Outcome(Reply(200, Uploaded("Picture uploaded successfully", key, name)),
                b.Put(key, StoredObject(UploadMetadata(name, env), p.data, env.now)))
  }

  method UploadPicture(store: Store, env: Env, body: RequestBody) returns (resp: Response)
    requires store.Valid()
    modifies store
    ensures store.Valid()
    ensures Outcome(resp, store.State()) == UploadOutcome(old(store.State()), env, body)
  {
    if body.NoBody? || body.Unparseable? {
      return Reply(500, Error("Failed to upload picture"));
    }
    var p := body.payload;
    if p.data == [] {
      return Reply(400, Error("No picture data provided"));
    }
    var name := UploadName(p, env);
    var key := UploadKey(name, env);
    store.PutObject(key, StoredObject(UploadMetadata(name, env), p.data, env.now));
    resp := Reply(200, Uploaded("Picture uploaded successfully", key, name));
  }

  /** An upload without data is refused with 400 and writes nothing. Otherwise the answer
      is 200 with the new key and the name; the key is `pictures/{stamp}_{hex}.{ext}`,
      where `ext` follows the name's last dot (`jpg` when it has none); the object holds
      the data and the metadata `original-name`, `upload-date`, rating `'0'` and comments
      `'[]'`; and every other object is as it was. */
  lemma UploadContract(b: Bucket, env: Env, p: Payload)
    ensures p.data == [] ==> UploadOutcome(b, env, Json(p)) == Outcome(Reply(400, Error("No picture data provided")), b)
    ensures p.data != [] ==>
              var name := UploadName(p, env);
              var o := UploadOutcome(b, env, Json(p));
              var key := Prefix + env.stamp + "_" + env.keyHex + "." + Extension(name);
              o.response.status == 200
              && o.response.body == Uploaded("Picture uploaded successfully", key, name)
              && key in o.bucket.objects
              && o.bucket.objects[key].bytes == p.data
              && o.bucket.objects[key].metadata
                 == map[NameKey := name, "upload-date" := env.isoNow, RatingKey := "0", CommentsKey := "[]"]
              && (forall k :: k != key ==> (k in o.bucket.objects <==> k in b.objects))
              && (forall k :: k != key && k in b.objects ==> o.bucket.objects[k] == b.objects[k])
  {
  }

  /** The listing reads a fresh upload back under its given name, with its upload time,
      its size, rating 0 and no comments (the stored `"[]"`). */
  lemma UploadedEntry(b: Bucket, faults: Faults, env: Env, p: Payload)
    requires p.data != []
    requires UploadKey(UploadName(p, env), env) !in faults.head
    ensures var key := UploadKey(UploadName(p, env), env);
            var b' := UploadOutcome(b, env, Json(p)).bucket;
            key in b'.objects
            && Entry(b', faults, key) == Some(Picture(UploadName(p, env), env.now, Some(|p.data|), 0, []))
  {
    var name := UploadName(p, env);
    var key := UploadKey(name, env);
    var md := UploadMetadata(name, env);
    var b' := b.Put(key, StoredObject(md, p.data, env.now));
    assert UploadOutcome(b, env, Json(p)).bucket == b';
    assert b'.Head(faults, key) == Some(md);
    UploadMetadataReadBack(name, env, key);
  }

  /** The stored upload metadata reads back as the given name, rating 0 and no comments. */
  lemma UploadMetadataReadBack(name: string, env: Env, key: Key)
    ensures var md := UploadMetadata(name, env);
            NameOf(md, key) == name && StrictRating(md) == Some(0) && CommentsOf(md) == []
  {
    var md := UploadMetadata(name, env);
    assert NameKey in md && md[NameKey] == name;
    assert RatingKey in md && md[RatingKey] == IntText(0);
    assert CommentsKey in md && md[CommentsKey] == "[]";
    StoredRatingReadBack(md, 0);
    EmptyListText();
  }

  /** After an upload the new key is listed; it is among the pictures exactly when its
      extension is an image extension, and the listing then shows it with the given
      name, rating 0 and no comments. */
  lemma UploadThenList(b: Bucket, faults: Faults, env: Env, p: Payload)
    requires b.Valid() && p.data != []
    requires UploadKey(UploadName(p, env), env) !in faults.head
    ensures var name := UploadName(p, env);
            var key := UploadKey(name, env);
            var b' := UploadOutcome(b, env, Json(p)).bucket;
            key in b'.Listing()
            && (key in ImageKeys(b'.Listing()) <==> IsImageExtension(Lower(Extension(name))))
            && Entry(b', faults, key) == Some(Picture(name, env.now, Some(|p.data|), 0, []))
  {
    var name := UploadName(p, env);
    var key := UploadKey(name, env);
    assert StartsWith(key, Prefix) by {
      assert key[..|Prefix|] == Prefix;
    }
    UploadKeyIsImage(p, env);
    UploadedEntry(b, faults, env, p);
  }

  // ================================================================ delete_pictures

  /** The object a name deletes: an image key whose metadata can be read (in the store as
      it is when the name comes up), whose name is the requested one, and whose deletion
      succeeds. A failed deletion lets the scan go on to the next object. */
  predicate Deletes(b: Bucket, faults: Faults, key: Key, name: string) {
    Matches(Exact, b, faults, key, name) && key !in faults.delete
  }

  function DeletesName(b: Bucket, faults: Faults, name: string): Key -> bool {
    k => Deletes(b, faults, k, name)
  }

  /** The first object of `listing` that `name` deletes. */
  function DeleteTarget(b: Bucket, faults: Faults, listing: seq<Key>, name: string): (r: Option<Key>)
    ensures r.Some? ==> r.value in listing && Deletes(b, faults, r.value, name)
    ensures r.None? ==> forall k :: k in listing ==> !Deletes(b, faults, k, name)
  {
    match FirstIndex(listing, DeletesName(b, faults, name))
    case None => None
    case Some(i) => Some(listing[i])
  }

  /** The store and the count after the names have been handled in order. */
  datatype Run = Run(bucket: Bucket, count: nat)

  /** The outer loop of `delete_pictures`: every name scans the listing taken before the
      loop, against the store as earlier names left it. */
  function DeleteRun(b: Bucket, faults: Faults, listing: seq<Key>, names: seq<string>): Run
    decreases |names|
  {
    if names == [] then Run(b, 0)
    else
      var r := DeleteRun(b, faults, listing, names[..|names| - 1]);
      match DeleteTarget(r.bucket, faults, listing, names[|names| - 1])
      case None => r
      case Some(k) => Run(r.bucket.Remove(k), r.count + 1)
  }

  lemma DeleteRunSnoc(b: Bucket, faults: Faults, listing: seq<Key>, names: seq<string>, n: string)
    ensures DeleteRun(b, faults, listing, names + [n])
              == var r := DeleteRun(b, faults, listing, names);
                 match DeleteTarget(r.bucket, faults, listing, n)
                 case None => r
                 case Some(k) => Run(r.bucket.Remove(k), r.count + 1)
  {
    assert (names + [n])[..|names|] == names;
  }

  /** At most one object goes per requested name; every object that goes was listed, is
      an image, could be read, carries one of the requested names and could be deleted;
      the objects that stay are unchanged. */
  lemma {:induction false} DeleteRunEffect(b: Bucket, faults: Faults, listing: seq<Key>, names: seq<string>)
    requires b.Valid()
    ensures var r := DeleteRun(b, faults, listing, names);
            r.count <= |names|
            && r.bucket.Valid()
            && |r.bucket.objects| + r.count == |b.objects|
            && (forall k :: k in r.bucket.objects ==> k in b.objects && r.bucket.objects[k] == b.objects[k])
            && (forall k :: k in b.objects && k !in r.bucket.objects ==>
                  k in listing && IsImageKey(k) && k !in faults.head && k !in faults.delete
                  && NameOf(b.objects[k].metadata, k) in names)
    decreases |names|
  {
    if names != [] {
      var init := names[..|names| - 1];
      var n := names[|names| - 1];
      DeleteRunEffect(b, faults, listing, init);
      assert names == init + [n];
      var r := DeleteRun(b, faults, listing, init);
      match DeleteTarget(r.bucket, faults, listing, n)
      case None =>
      case Some(k) =>
        RemoveOneObject(r.bucket, k);
    }
  }

  /** The inner loop for one name: the first object it deletes is deleted, and nothing
      else changes. */
  method DeleteFirst(store: Store, faults: Faults, listing: seq<Key>, name: string) returns (deleted: bool)
    requires store.Valid()
    modifies store
    ensures store.Valid()
    ensures deleted <==> DeleteTarget(old(store.State()), faults, listing, name).Some?
    ensures deleted ==> store.State() == old(store.State()).Remove(DeleteTarget(old(store.State()), faults, listing, name).value)
    ensures !deleted ==> store.State() == old(store.State())
  {
    ghost var start := store.State();
    var i := 0;
    while i < |listing|
      invariant 0 <= i <= |listing|
      invariant store.Valid() && store.State() == start
      invariant forall j :: 0 <= j < i ==> !Deletes(start, faults, listing[j], name)
    {
      var key := listing[i];
      var candidate := NamedImage(store, faults, key, name);
      if candidate {
        var ok := store.DeleteObject(faults, key);
        if ok {
          assert store.State() == start.Remove(key);
          DeleteTargetAt(start, faults, listing, name, i);
          return true;
        }
      }
      assert !Deletes(start, faults, key, name);
      forall j | 0 <= j < i + 1
        ensures !Deletes(start, faults, listing[j], name)
      {
        if j == i {
          assert listing[j] == key;
        }
      }
      i := i + 1;
    }
    DeleteTargetNone(start, faults, listing, name);
    return false;
  }

  /** The test inside the inner loop: an image key whose metadata can be read and whose
      stored name is the requested one. */
  method NamedImage(store: Store, faults: Faults, key: Key, name: string) returns (c: bool)
    ensures c <==> Matches(Exact, store.State(), faults, key, name)
  {
    c := false;
    if IsImageKey(key) {
      var md := store.HeadObject(faults, key);
      c := md.Some? && NameOf(md.value, key) == name;
    }
  }

  /** A scan that deletes at position `i` has found the target. */
  lemma DeleteTargetAt(b: Bucket, faults: Faults, listing: seq<Key>, name: string, i: nat)
    requires i < |listing| && Deletes(b, faults, listing[i], name)
    requires forall j :: 0 <= j < i ==> !Deletes(b, faults, listing[j], name)
    ensures DeleteTarget(b, faults, listing, name) == Some(listing[i])
  {
    FirstIndexAt(listing, DeletesName(b, faults, name), i);
  }

  /** A scan that deletes nothing has no target. */
  lemma DeleteTargetNone(b: Bucket, faults: Faults, listing: seq<Key>, name: string)
    requires forall j :: 0 <= j < |listing| ==> !Deletes(b, faults, listing[j], name)
    ensures DeleteTarget(b, faults, listing, name) == None
  {
    FirstIndexNone(listing, DeletesName(b, faults, name));
  }

  /** `f'Successfully deleted {deleted_count} picture(s)'`. */
  function DeletedMessage(n: nat): string {
    "Successfully deleted " + NatText(n) + " picture(s)"
  }

  /** `delete_pictures`. */
  function DeleteOutcome(b: Bucket, faults: Faults, body: RequestBody): Outcome {
    match body
    case NoBody => Outcome(Reply(500, Error("Failed to delete pictures")), b)
    case Unparseable => Outcome(Reply(500, Error("Failed to delete pictures")), b)
    case Json(p) =>
      if p.pictures == [] then Outcome(Reply(400, Error("No pictures specified for deletion")), b)
      else if b.Listing() == [] then Outcome(Reply(404, Error("No pictures found")), b)
      else
        var r := DeleteRun(b, faults, b.Listing(), p.pictures);
        Outcome(Reply(200, DeletedCount(DeletedMessage(r.count), r.count)), r.bucket)
  }

  method DeletePictures(store: Store, faults: Faults, body: RequestBody) returns (resp: Response)
    requires store.Valid()
    modifies store
    ensures store.Valid()
    ensures Outcome(resp, store.State()) == DeleteOutcome(old(store.State()), faults, body)
  {
    if body.NoBody? || body.Unparseable? {
      return Reply(500, Error("Failed to delete pictures"));
    }
    var names := body.payload.pictures;
    if names == [] {
      return Reply(400, Error("No pictures specified for deletion"));
    }
    var listing := store.ListObjects();
    if listing == [] {
      return Reply(404, Error("No pictures found"));
    }
    ghost var start := store.State();
    var count := 0;
    var i := 0;
    while i < |names|
      invariant 0 <= i <= |names|
      invariant store.Valid()
      invariant Run(store.State(), count) == DeleteRun(start, faults, listing, names[..i])
    {
      TakeOneMore(names, i);
      DeleteRunSnoc(start, faults, listing, names[..i], names[i]);
      var deleted := DeleteFirst(store, faults, listing, names[i]);
      if deleted {
        count := count + 1;
      }
      i := i + 1;
    }
    TakeAll(names);
    resp := Reply(200, DeletedCount(DeletedMessage(count), count));
  }

  /** No names gives 400 and an empty listing 404. A request that reaches the deletion
      loop reports how many objects went, which is at most the number of names, and the
      store shrinks by exactly that many; every refused request leaves the store as it was. */
  lemma DeleteContract(b: Bucket, faults: Faults, body: RequestBody)
    requires b.Valid()
    ensures body.Json? && body.payload.pictures == [] ==>
              DeleteOutcome(b, faults, body) == Outcome(Reply(400, Error("No pictures specified for deletion")), b)
    ensures body.Json? && body.payload.pictures != [] && b.Listing() == [] ==>
              DeleteOutcome(b, faults, body) == Outcome(Reply(404, Error("No pictures found")), b)
    ensures body.Json? && body.payload.pictures != [] && b.Listing() != [] ==>
              DeleteOutcome(b, faults, body).response.status == 200
    ensures var o := DeleteOutcome(b, faults, body);
            o.response.status != 200 ==> o.bucket == b
    ensures var o := DeleteOutcome(b, faults, body);
            o.response.status == 200 ==>
              o.response.body.DeletedCount? && o.response.body.deletedCount <= |body.payload.pictures|
              && |o.bucket.objects| + o.response.body.deletedCount == |b.objects|
              && o.bucket.Valid()
  {
    if body.Json? {
      DeleteRunEffect(b, faults, b.Listing(), body.payload.pictures);
    }
  }

  // ================================================================ rate_picture

  /** `rate_picture`. A rating that is present but not a number makes the range test
      raise, which the handler reports as a failure. */
  function RateOutcome(b: Bucket, faults: Faults, body: RequestBody): Outcome {
    match body
    case NoBody => Outcome(Reply(500, Error("Failed to rate picture")), b)
    case Unparseable => Outcome(Reply(500, Error("Failed to rate picture")), b)
    case Json(p) =>
      if !Given(p.picture) || p.rating.RAbsent? || p.rating.RNull? then
        Outcome(Reply(400, Error("Picture name and rating are required")), b)
      else if p.rating.RText? then Outcome(Reply(500, Error("Failed to rate picture")), b)
      else if !ValidRating(p.rating) then Outcome(Reply(400, Error("Rating must be between 1 and 5")), b)
      else
        var name := p.picture.value;
        match Resolve(Exact, b, faults, b.Listing(), name)
        case None => Outcome(Reply(404, Error("Picture not found")), b)
        case Some(k) =>
          Outcome(Reply(200, RateSaved("Rating saved successfully", name, p.rating)),
                  b.Replace(k, WithRating(b.objects[k].metadata, RatingText(p.rating))))
  }

  method RatePicture(store: Store, faults: Faults, body: RequestBody) returns (resp: Response)
    requires store.Valid()
    modifies store
    ensures store.Valid()
    ensures Outcome(resp, store.State()) == RateOutcome(old(store.State()), faults, body)
  {
    if body.NoBody? || body.Unparseable? {
      return Reply(500, Error("Failed to rate picture"));
    }
    var p := body.payload;
    if !Given(p.picture) || p.rating.RAbsent? || p.rating.RNull? {
      return Reply(400, Error("Picture name and rating are required"));
    }
    if p.rating.RText? {
      return Reply(500, Error("Failed to rate picture"));
    }
    if !ValidRating(p.rating) {
      return Reply(400, Error("Rating must be between 1 and 5"));
    }
    var name := p.picture.value;
    var listing := store.ListObjects();
    var target := Scan(store, faults, listing, Exact, name);
    if target.None? {
      return Reply(404, Error("Picture not found"));
    }
    var md := store.HeadObject(faults, target.value);
    store.CopyReplace(target.value, WithRating(md.value, RatingText(p.rating)));
    resp := Reply(200, RateSaved("Rating saved successfully", name, p.rating));
  }

  /** Which requests are refused before the store is searched: a missing name or rating,
      a rating that is not a number (500), and one outside 1 to 5, where `False` counts
      as 0 and `True` as 1. None of them changes the store. */
  lemma RateValidation(b: Bucket, faults: Faults, p: Payload)
    ensures !Given(p.picture) || p.rating.RAbsent? || p.rating.RNull? ==>
              RateOutcome(b, faults, Json(p)) == Outcome(Reply(400, Error("Picture name and rating are required")), b)
    ensures Given(p.picture) && p.rating.RText? ==>
              RateOutcome(b, faults, Json(p)) == Outcome(Reply(500, Error("Failed to rate picture")), b)
    ensures Given(p.picture) && (p.rating == RBool(false) || (p.rating.RInt? && !(1 <= p.rating.n <= 5))) ==>
              RateOutcome(b, faults, Json(p)) == Outcome(Reply(400, Error("Rating must be between 1 and 5")), b)
    ensures RateOutcome(b, faults, Json(p)).response.status == 200 ==>
              ValidRating(p.rating) && Given(p.picture)
              && Resolve(Exact, b, faults, b.Listing(), p.picture.value).Some?
  {
  }

  /** A successful rating rewrites the `rating` of the object the name resolves to (the
      first image whose stored name is the requested one), and nothing else. */
  lemma RateChangesOnlyRating(b: Bucket, faults: Faults, p: Payload, n: int, k: Key)
    requires b.Valid() && p.rating == RInt(n)
    requires RateOutcome(b, faults, Json(p)).response.status == 200
    requires Resolve(Exact, b, faults, b.Listing(), p.picture.value) == Some(k)
    ensures var b' := RateOutcome(b, faults, Json(p)).bucket;
            var md := b.objects[k].metadata;
            k in b'.objects
            && b'.keys == b.keys
            && (forall k' :: k' in b.objects && k' != k ==> k' in b'.objects && b'.objects[k'] == b.objects[k'])
            && b'.objects[k].bytes == b.objects[k].bytes
            && b'.objects[k].metadata.Keys == md.Keys + {RatingKey}
            && (forall key :: key in md && key != RatingKey ==> b'.objects[k].metadata[key] == md[key])
  {
    RateValidation(b, faults, p);
    RateSavedAt(b, faults, p, k);
  }

  /** After a successful rating the listing shows the picture under the same name, date,
      size and comments, with the new rating. */
  lemma RateShowsInListing(b: Bucket, faults: Faults, p: Payload, n: int, k: Key)
    requires b.Valid() && p.rating == RInt(n)
    requires RateOutcome(b, faults, Json(p)).response.status == 200
    requires Resolve(Exact, b, faults, b.Listing(), p.picture.value) == Some(k)
    ensures var b' := RateOutcome(b, faults, Json(p)).bucket;
            k in b'.objects
            && Entry(b', faults, k)
               == Some(Picture(p.picture.value, b.objects[k].lastModified, Some(b.objects[k].Size()),
                               n, CommentsOf(b.objects[k].metadata)))
  {
    var md := b.objects[k].metadata;
    var md' := WithRating(md, IntText(n));
    RateValidation(b, faults, p);
    RateSavedAt(b, faults, p, k);
    StoredRatingReadBack(md', n);
    SameViews(md, md', RatingKey);
    EntryAfterReplace(b, faults, k, md');
  }

  /** A valid rating of a name that resolves to `k` is saved into the metadata of `k`. */
  lemma RateSavedAt(b: Bucket, faults: Faults, p: Payload, k: Key)
    requires Given(p.picture) && ValidRating(p.rating)
    requires Resolve(Exact, b, faults, b.Listing(), p.picture.value) == Some(k)
    ensures k in b.objects
    ensures RateOutcome(b, faults, Json(p))
            == Outcome(Reply(200, RateSaved("Rating saved successfully", p.picture.value, p.rating)),
                       b.Replace(k, WithRating(b.objects[k].metadata, RatingText(p.rating))))
  {
    assert !p.rating.RText? && !p.rating.RNull? && !p.rating.RAbsent?;
  }

  /** A rating of JSON `true` passes the range test and is stored as `"True"`, which
      `int` rejects: from then on the listing leaves the picture out. */
  lemma BoolRatingHidesPicture(b: Bucket, faults: Faults, p: Payload, k: Key)
    requires b.Valid() && p.rating == RBool(true)
    requires RateOutcome(b, faults, Json(p)).response.status == 200
    requires Resolve(Exact, b, faults, b.Listing(), p.picture.value) == Some(k)
    ensures var b' := RateOutcome(b, faults, Json(p)).bucket;
            k in b'.objects && Entry(b', faults, k) == None
  {
    TrueTextIsNotAnInteger();
  }

  // ================================================================ add_comment

  /** `add_comment`. */
  function CommentOutcome(b: Bucket, faults: Faults, env: Env, body: RequestBody): Outcome {
    match body
    case NoBody => Outcome(Reply(500, Error("Failed to add comment")), b)
    case Unparseable => Outcome(Reply(500, Error("Failed to add comment")), b)
    case Json(p) =>
      if !(Given(p.picture) && Given(p.author) && Given(p.text)) then
        Outcome(Reply(400, Error("Picture name, author, and comment text are required")), b)
      else
        match Resolve(Exact, b, faults, b.Listing(), p.picture.value)
        case None => Outcome(Reply(404, Error("Picture not found")), b)
        case Some(k) =>
          var c := Comment(p.author.value, p.text.value, env.isoNow);
          Outcome(Reply(200, Commented("Comment added successfully", c)),
                  b.Replace(k, CommentedMetadata(b.objects[k].metadata, c)))
  }

  method AddComment(store: Store, faults: Faults, env: Env, body: RequestBody) returns (resp: Response)
    requires store.Valid()
    modifies store
    ensures store.Valid()
    ensures Outcome(resp, store.State()) == CommentOutcome(old(store.State()), faults, env, body)
  {
    if body.NoBody? || body.Unparseable? {
      return Reply(500, Error("Failed to add comment"));
    }
    var p := body.payload;
    if !(Given(p.picture) && Given(p.author) && Given(p.text)) {
      return Reply(400, Error("Picture name, author, and comment text are required"));
    }
    var listing := store.ListObjects();
    var target := Scan(store, faults, listing, Exact, p.picture.value);
    if target.None? {
      return Reply(404, Error("Picture not found"));
    }
    var md := store.HeadObject(faults, target.value);
    var c := Comment(p.author.value, p.text.value, env.isoNow);
    store.CopyReplace(target.value, CommentedMetadata(md.value, c));
    resp := Reply(200, Commented("Comment added successfully", c));
  }

  /** A comment succeeds exactly when the request names a picture, an author and a text,
      and the name resolves; a missing field gives 400 and a name that does not resolve
      404; only a success changes the store. */
  lemma CommentSucceeds(b: Bucket, faults: Faults, env: Env, body: RequestBody)
    ensures body.Json? && !(Given(body.payload.picture) && Given(body.payload.author) && Given(body.payload.text)) ==>
              CommentOutcome(b, faults, env, body)
              == Outcome(Reply(400, Error("Picture name, author, and comment text are required")), b)
    ensures body.Json? && Given(body.payload.picture) && Given(body.payload.author) && Given(body.payload.text)
            && Resolve(Exact, b, faults, b.Listing(), body.payload.picture.value).None? ==>
              CommentOutcome(b, faults, env, body) == Outcome(Reply(404, Error("Picture not found")), b)
    ensures CommentOutcome(b, faults, env, body).response.status == 200 <==>
              body.Json? && Given(body.payload.picture) && Given(body.payload.author) && Given(body.payload.text)
              && Resolve(Exact, b, faults, b.Listing(), body.payload.picture.value).Some?
    ensures CommentOutcome(b, faults, env, body).response.status != 200 ==> CommentOutcome(b, faults, env, body).bucket == b
  {
  }

  /** A complete comment on a name that resolves to `k` is appended to the metadata of `k`. */
  lemma CommentedAt(b: Bucket, faults: Faults, env: Env, p: Payload, k: Key)
    requires Given(p.picture) && Given(p.author) && Given(p.text)
    requires Resolve(Exact, b, faults, b.Listing(), p.picture.value) == Some(k)
    ensures k in b.objects
    ensures CommentOutcome(b, faults, env, Json(p)).bucket
            == b.Replace(k, CommentedMetadata(b.objects[k].metadata, Comment(p.author.value, p.text.value, env.isoNow)))
  {
  }

  /** A successful comment is appended to the comments of the object the name resolves
      to (the first image whose stored name is the requested one), and nothing else
      changes. */
  lemma CommentAppends(b: Bucket, faults: Faults, env: Env, p: Payload, k: Key)
    requires b.Valid()
    requires CommentOutcome(b, faults, env, Json(p)).response.status == 200
    requires Resolve(Exact, b, faults, b.Listing(), p.picture.value) == Some(k)
    ensures var b' := CommentOutcome(b, faults, env, Json(p)).bucket;
            k in b'.objects
            && b'.keys == b.keys
            && (forall k' :: k' in b.objects && k' != k ==> k' in b'.objects && b'.objects[k'] == b.objects[k'])
            && CommentsOf(b'.objects[k].metadata)
               == CommentsOf(b.objects[k].metadata) + [Comment(p.author.value, p.text.value, env.isoNow)]
  {
    CommentSucceeds(b, faults, env, Json(p));
    CommentedAt(b, faults, env, p, k);
  }

  /** After a successful comment, a picture the listing showed before is shown with the
      same name, date and rating and the new comment last. */
  lemma CommentShowsInListing(b: Bucket, faults: Faults, env: Env, p: Payload, k: Key)
    requires b.Valid()
    requires CommentOutcome(b, faults, env, Json(p)).response.status == 200
    requires Resolve(Exact, b, faults, b.Listing(), p.picture.value) == Some(k)
    requires Entry(b, faults, k).Some?
    ensures var b' := CommentOutcome(b, faults, env, Json(p)).bucket;
            var e := Entry(b, faults, k).value;
            Entry(b', faults, k) == Some(e.(comments := e.comments + [Comment(p.author.value, p.text.value, env.isoNow)]))
  {
    var md := b.objects[k].metadata;
    var md' := CommentedMetadata(md, Comment(p.author.value, p.text.value, env.isoNow));
    CommentSucceeds(b, faults, env, Json(p));
    CommentedAt(b, faults, env, p, k);
    SameViews(md, md', CommentsKey);
    EntryAfterReplace(b, faults, k, md);
    EntryAfterReplace(b, faults, k, md');
  }

  /** The entry of a readable object whose metadata is replaced by `md`: the same date
      and size, and the name, rating and comments `md` gives. */
  lemma EntryAfterReplace(b: Bucket, faults: Faults, k: Key, md: Metadata)
    requires k in b.objects && k !in faults.head
    ensures var b' := b.Replace(k, md);
            k in b'.objects
            && Entry(b', faults, k)
               == if StrictRating(md).None? then None
                  else Some(Picture(NameOf(md, k), b.objects[k].lastModified, Some(b.objects[k].Size()),
                                    StrictRating(md).value, CommentsOf(md)))
  {
    var b' := b.Replace(k, md);
    assert b'.objects[k] == b.objects[k].(metadata := md);
    assert b'.Head(faults, k) == Some(md);
  }

  /** Metadata that differs from `md` at most under `changed` gives the same name, and
      the same rating or comments where those are not the changed key. */
  lemma SameViews(md: Metadata, md': Metadata, changed: string)
    requires md'.Keys == md.Keys + {changed}
    requires forall k :: k in md && k != changed ==> md'[k] == md[k]
    requires changed != NameKey
    ensures forall key :: NameOf(md', key) == NameOf(md, key)
    ensures changed != RatingKey ==> StrictRating(md') == StrictRating(md)
    ensures changed != CommentsKey ==> CommentsOf(md') == CommentsOf(md)
  {
    assert NameKey in md' <==> NameKey in md;
    assert RatingKey in md' <==> RatingKey in md || changed == RatingKey;
    assert CommentsKey in md' <==> CommentsKey in md || changed == CommentsKey;
  }

  // ================================================================ get_stats

  /** The running totals of `get_stats`. `ratingSum` and `rated` are the two halves of
      the average rating the handler reports. */
  datatype Tally = Tally(pictures: nat, size: nat, ratingSum: int, rated: nat, comments: nat,
                         mostRecent: Option<int>)

  /** `most_recent_date is None or obj['LastModified'] > most_recent_date`. */
  function Later(recent: Option<int>, t: int): Option<int> {
    if recent.None? || t > recent.value then Some(t) else recent
  }

  /** One image key counted: its size and date always; its rating and comments only when
      its metadata can be read and its rating parses. */
  function CountKey(b: Bucket, faults: Faults, t: Tally, k: Key): Tally
    requires k in b.objects
  {
    var obj := b.objects[k];
    var t1 := t.(pictures := t.pictures + 1, size := t.size + obj.Size(),
                 mostRecent := Later(t.mostRecent, obj.lastModified));
    match b.Head(faults, k)
    case None => t1
    case Some(md) =>
      match StrictRating(md)
      case None => t1
      case Some(r) =>
        t1.(ratingSum := if r > 0 then t1.ratingSum + r else t1.ratingSum,
            rated := if r > 0 then t1.rated + 1 else t1.rated,
            comments := t1.comments + |CommentsOf(md)|)
  }

  /** The totals after the loop over `keys`. */
  function StatsOf(b: Bucket, faults: Faults, keys: seq<Key>): Tally
    decreases |keys|
  {
    if keys == [] then Tally(0, 0, 0, 0, 0, None)
    else
      var k := keys[|keys| - 1];
      var t := StatsOf(b, faults, keys[..|keys| - 1]);
      if IsImageKey(k) && k in b.objects then CountKey(b, faults, t, k) else t
  }

  lemma StatsSnoc(b: Bucket, faults: Faults, keys: seq<Key>, k: Key)
    ensures StatsOf(b, faults, keys + [k])
              == var t := StatsOf(b, faults, keys); if IsImageKey(k) && k in b.objects then CountKey(b, faults, t, k) else t
  {
    assert (keys + [k])[..|keys|] == keys;
  }

  /** Every image key is counted; the rated pictures are among them and each adds at
      least 1 to the rating sum; the most recent date is absent exactly when there is no
      image. */
  lemma {:induction false} StatsCounts(b: Bucket, faults: Faults, keys: seq<Key>)
    requires forall k :: k in keys ==> k in b.objects
    ensures var t := StatsOf(b, faults, keys);
            t.pictures == |ImageKeys(keys)|
            && t.rated <= t.pictures
            && t.ratingSum >= t.rated
            && (t.mostRecent.None? <==> ImageKeys(keys) == [])
    decreases |keys|
  {
    if keys != [] {
      var init := keys[..|keys| - 1];
      var k := keys[|keys| - 1];
      assert keys == init + [k];
      StatsCounts(b, faults, init);
      StatsSnoc(b, faults, init, k);
      FilterSnoc(init, k, IsImageKey);
    }
  }

  /** When there is an image, the most recent date is the date of one of them and no
      image is newer. */
  lemma {:induction false} StatsLatest(b: Bucket, faults: Faults, keys: seq<Key>)
    requires forall k :: k in keys ==> k in b.objects
    ensures var t := StatsOf(b, faults, keys);
            t.mostRecent.Some? ==>
              (exists k :: k in keys && IsImageKey(k) && b.objects[k].lastModified == t.mostRecent.value)
              && forall k :: k in keys && IsImageKey(k) ==> b.objects[k].lastModified <= t.mostRecent.value
    decreases |keys|
  {
    if keys != [] {
      var init := keys[..|keys| - 1];
      var k := keys[|keys| - 1];
      assert keys == init + [k];
      StatsLatest(b, faults, init);
      StatsCounts(b, faults, init);
      StatsSnoc(b, faults, init, k);
      var before := StatsOf(b, faults, init).mostRecent;
      if IsImageKey(k) {
        var date := b.objects[k].lastModified;
        assert StatsOf(b, faults, keys).mostRecent == Later(before, date);
        assert forall k' :: k' in init && IsImageKey(k') ==> k' in ImageKeys(init);
      }
    }
  }

  /** The comments of the listed pictures, added up. */
  function CommentTotal(ps: seq<Picture>): nat
    decreases |ps|
  {
    if ps == [] then 0 else CommentTotal(ps[..|ps| - 1]) + |ps[|ps| - 1].comments|
  }

  /** The positive ratings of the listed pictures: how many, and their sum. */
  function RatedCount(ps: seq<Picture>): nat
    decreases |ps|
  {
    if ps == [] then 0 else RatedCount(ps[..|ps| - 1]) + (if ps[|ps| - 1].rating > 0 then 1 else 0)
  }

  function RatingSum(ps: seq<Picture>): int
    decreases |ps|
  {
    if ps == [] then 0
    else RatingSum(ps[..|ps| - 1]) + (if ps[|ps| - 1].rating > 0 then ps[|ps| - 1].rating else 0)
  }

  lemma PictureTotalsSnoc(ps: seq<Picture>, p: Picture)
    ensures CommentTotal(ps + [p]) == CommentTotal(ps) + |p.comments|
    ensures RatedCount(ps + [p]) == RatedCount(ps) + (if p.rating > 0 then 1 else 0)
    ensures RatingSum(ps + [p]) == RatingSum(ps) + (if p.rating > 0 then p.rating else 0)
  {
    assert (ps + [p])[..|ps|] == ps;
  }

  /** One key adds to the comment and rating totals exactly what its listing entry holds. */
  lemma CountKeyTotals(b: Bucket, faults: Faults, t: Tally, k: Key)
    requires k in b.objects
    ensures var t' := CountKey(b, faults, t, k);
            var ps := if Entry(b, faults, k).Some? then [Entry(b, faults, k).value] else [];
            t'.comments == t.comments + CommentTotal(ps)
            && t'.rated == t.rated + RatedCount(ps)
            && t'.ratingSum == t.ratingSum + RatingSum(ps)
  {
    var ps := if Entry(b, faults, k).Some? then [Entry(b, faults, k).value] else [];
    if Entry(b, faults, k).Some? {
      PictureTotalsSnoc([], Entry(b, faults, k).value);
      assert [] + ps == ps;
    }
  }

  /** The statistics and the listing read the metadata the same way: the comment total,
      the number of rated pictures and the rating sum are exactly those of the pictures
      the listing shows. */
  lemma {:induction false} StatsAgreeWithListing(b: Bucket, faults: Faults, keys: seq<Key>)
    requires forall k :: k in keys ==> k in b.objects
    ensures var t := StatsOf(b, faults, keys);
            var ps := Collected(b, faults, keys);
            t.comments == CommentTotal(ps) && t.rated == RatedCount(ps) && t.ratingSum == RatingSum(ps)
    decreases |keys|
  {
    if keys != [] {
      var init := keys[..|keys| - 1];
      var k := keys[|keys| - 1];
      StatsAgreeWithListing(b, faults, init);
      assert keys == init + [k];
      StatsSnoc(b, faults, init, k);
      CollectedSnoc(b, faults, init, k);
      var t0 := StatsOf(b, faults, init);
      var ps0 := Collected(b, faults, init);
      if !(IsImageKey(k) && k in b.objects) {
        assert StatsOf(b, faults, keys) == t0;
        assert Collected(b, faults, keys) == ps0 + [];
        assert ps0 + [] == ps0;
      } else if Entry(b, faults, k).None? {
        CountKeyTotals(b, faults, t0, k);
        assert Collected(b, faults, keys) == ps0 + [];
        assert ps0 + [] == ps0;
      } else {
        CountKeyTotals(b, faults, t0, k);
        PictureTotalsSnoc(ps0, Entry(b, faults, k).value);
      }
    }
  }

  /** The response body of `get_stats`. */
  function StatsBody(t: Tally): Body {
    GalleryStats(t.pictures, t.size, t.ratingSum, t.rated, t.comments, t.mostRecent)
  }

  method GetStats(store: Store, faults: Faults) returns (resp: Response)
    requires store.Valid()
    ensures resp == Reply(200, StatsBody(StatsOf(store.State(), faults, store.State().Listing())))
  {
    var listing := store.ListObjects();
    ghost var b := store.State();
    var t := Tally(0, 0, 0, 0, 0, None);
    var i := 0;
    while i < |listing|
      invariant 0 <= i <= |listing|
      invariant t == StatsOf(b, faults, listing[..i])
    {
      var key := listing[i];
      TakeOneMore(listing, i);
      StatsSnoc(b, faults, listing[..i], key);
      if IsImageKey(key) {
        ListedKeyStored(b, i);
        t := CountObject(store, faults, t, key);
      }
      i := i + 1;
    }
    TakeAll(listing);
    resp := Reply(200, StatsBody(t));
  }

  /** The body of the stats loop for one image key. */
  method CountObject(store: Store, faults: Faults, t0: Tally, key: Key) returns (t: Tally)
    requires key in store.objects
    ensures t == CountKey(store.State(), faults, t0, key)
  {
    var obj := store.objects[key];
    t := t0.(pictures := t0.pictures + 1, size := t0.size + obj.Size());
    if t.mostRecent.None? || obj.lastModified > t.mostRecent.value {
      t := t.(mostRecent := Some(obj.lastModified));
    }
    var md := store.HeadObject(faults, key);
    if md.Some? {
      var rating := StrictRating(md.value);
      if rating.Some? {
        if rating.value > 0 {
          t := t.(ratingSum := t.ratingSum + rating.value, rated := t.rated + 1);
        }
        t := t.(comments := t.comments + |CommentsOf(md.value)|);
      }
    }
  }

  // ================================================================ routing

  datatype Route = Preflight | Api(handler: Handler) | NoRoute

  /** The `if`/`elif` chain of `lambda_handler` on a path and an HTTP method (`verb`):
      preflight first, then the API table, else no route. */
  function Dispatch(path: string, verb: string): (r: Route)
    ensures verb == "OPTIONS" ==> r == Preflight
    ensures verb != "OPTIONS" && (path, verb) in ApiRoutes ==> r == Api(ApiRoutes[(path, verb)])
    ensures verb != "OPTIONS" && (path, verb) !in ApiRoutes ==> r == NoRoute
  {
    if verb == "OPTIONS" then Preflight
    else if path == "/api/pictures" && verb == "GET" then Api(ListHandler)
    else if path == "/api/pictures" && verb == "POST" then Api(UploadHandler)
    else if path == "/api/pictures" && verb == "DELETE" then Api(DeleteHandler)
    else if path == "/api/pictures/rate" && verb == "POST" then Api(RateHandler)
    else if path == "/api/pictures/comment" && verb == "POST" then Api(CommentHandler)
    else if path == "/api/pictures/download" && verb == "POST" then Api(DownloadHandler)
    else if path == "/api/stats" && verb == "GET" then Api(StatsHandler)
    else NoRoute
  }

  /** `lambda_handler`. */
  function HandleOutcome(b: Bucket, faults: Faults, env: Env, e: Event): Outcome
    requires b.Valid()
  {
    match Dispatch(e.Path(), e.Method())
    case Preflight => Outcome(Reply(200, Empty), b)
    case NoRoute => Outcome(Reply(404, Error("Not found")), b)
    case Api(h) =>
      match h
      case ListHandler => Outcome(Reply(200, PictureArray(Collected(b, faults, b.Listing()))), b)
      case UploadHandler => UploadOutcome(b, env, e.body)
      case DeleteHandler => DeleteOutcome(b, faults, e.body)
      case RateHandler => RateOutcome(b, faults, e.body)
      case CommentHandler => CommentOutcome(b, faults, env, e.body)
      case DownloadHandler => Outcome(DownloadOutcome(b, faults, e.body, AllowMethods, env.day), b)
      case StatsHandler => Outcome(Reply(200, StatsBody(StatsOf(b, faults, b.Listing()))), b)
  }

  method Handle(store: Store, faults: Faults, env: Env, e: Event) returns (resp: Response)
    requires store.Valid()
    modifies store
    ensures store.Valid()
    ensures Outcome(resp, store.State()) == HandleOutcome(old(store.State()), faults, env, e)
  {
    var route := Dispatch(e.Path(), e.Method());
    match route
    case Preflight => resp := Reply(200, Empty);
    case NoRoute => resp := Reply(404, Error("Not found"));
    case Api(h) =>
      match h
      case ListHandler => resp := GetPictures(store, faults);
      case UploadHandler => resp := UploadPicture(store, env, e.body);
      case DeleteHandler => resp := DeletePictures(store, faults, e.body);
      case RateHandler => resp := RatePicture(store, faults, e.body);
      case CommentHandler => resp := AddComment(store, faults, env, e.body);
      case DownloadHandler => resp := Download(store, faults, e.body, AllowMethods, env.day);
      case StatsHandler => resp := GetStats(store, faults);
  }

  /** A preflight is answered 200 with an empty body on any path, and a request that
      matches no API route 404 `Not found`; neither touches the store. The front-end
      paths are not served here. */
  lemma RoutingContract(b: Bucket, faults: Faults, env: Env, e: Event)
    requires b.Valid()
    ensures e.Method() == "OPTIONS" ==>
              HandleOutcome(b, faults, env, e) == Outcome(Response(200, CorsHeaders(AllowMethods), Empty), b)
    ensures e.Method() != "OPTIONS" && (e.Path(), e.Method()) !in ApiRoutes ==>
              HandleOutcome(b, faults, env, e) == Outcome(Response(404, CorsHeaders(AllowMethods), Error("Not found")), b)
    ensures e.Path() == "/" && e.Method() != "OPTIONS" ==>
              HandleOutcome(b, faults, env, e).response.status == 404
  {
  }
}
