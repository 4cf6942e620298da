/** What both handler files do the same way: find the object a requested picture name
    refers to, build a download archive, and rewrite an object's metadata to rate it or
    to append a comment. */
module Gallery {
  import opened Prelude
  import opened Text
  import opened Codec
  import opened Storage
  import opened Http

  /** The name a listed object answers to: its `original-name`, else its file name. */
  function NameOf(md: Metadata, key: Key): string {
    DisplayName(md, LastSegment(key))
  }

  /** The image keys of a listing, in listing order. */
  function ImageKeys(listing: seq<Key>): (r: seq<Key>)
    ensures forall k {:trigger k in r} :: k in r <==> k in listing && IsImageKey(k)
  {
    Filter(listing, IsImageKey)
  }

  // ---------------------------------------------------------------- name resolution

  /** The two ways a requested name is matched against the objects of a listing.
      `Exact`: among image keys, the stored name equals the requested one; an object
      whose metadata cannot be read is skipped. `Fuzzy` (unified_lambda.py rate and
      delete): over all keys, the names are equal or either contains the other, ignoring
      case; an object whose metadata cannot be read matches when its file name contains
      the requested name, ignoring case. */
  datatype Policy = Exact | Fuzzy

  /** `stored == requested or requested.lower() in stored.lower() or stored.lower() in requested.lower()`. */
  predicate FuzzyName(stored: string, requested: string) {
    stored == requested
    || Contains(Lower(stored), Lower(requested))
    || Contains(Lower(requested), Lower(stored))
  }

  /** Whether `key` answers to `name`, given what `head_object` gave for it. */
  predicate Answers(policy: Policy, md: Option<Metadata>, key: Key, name: string) {
    match policy
    case Exact => IsImageKey(key) && md.Some? && NameOf(md.value, key) == name
    case Fuzzy =>
      if md.Some? then FuzzyName(NameOf(md.value, key), name)
      else Contains(Lower(LastSegment(key)), Lower(name))
  }

  predicate Matches(policy: Policy, b: Bucket, faults: Faults, key: Key, name: string) {
    Answers(policy, b.Head(faults, key), key, name)
  }

  /** `Matches` for one requested name, as a test on keys. */
  function MatchesName(policy: Policy, b: Bucket, faults: Faults, name: string): Key -> bool {
    k => Matches(policy, b, faults, k, name)
  }

  /** The first object of the listing that answers to `name`, if any: every object before
      it does not answer to `name` (the search stops at the first hit). */
  function Resolve(policy: Policy, b: Bucket, faults: Faults, listing: seq<Key>, name: string): (r: Option<Key>)
    ensures r.Some? ==> r.value in listing && Matches(policy, b, faults, r.value, name)
    ensures r.Some? ==> var i := FirstIndex(listing, MatchesName(policy, b, faults, name)).value;
                        listing[i] == r.value
                        && forall j :: 0 <= j < i ==> !Matches(policy, b, faults, listing[j], name)
    ensures r.None? ==> forall k :: k in listing ==> !Matches(policy, b, faults, k, name)
  {
    match FirstIndex(listing, MatchesName(policy, b, faults, name))
    case None => None
    case Some(i) => Some(listing[i])
  }

  /** An exactly matched name is the stored name of an image key under the prefix,
      and every name is matched by its own object. */
  lemma ExactResolves(b: Bucket, faults: Faults, name: string)
    requires b.Valid()
    ensures Resolve(Exact, b, faults, b.Listing(), name).Some? ==>
              var k := Resolve(Exact, b, faults, b.Listing(), name).value;
              IsImageKey(k) && StartsWith(k, Prefix) && k in b.objects && k !in faults.head
              && NameOf(b.objects[k].metadata, k) == name
    ensures forall k :: k in b.Listing() && IsImageKey(k) && k !in faults.head
                        && NameOf(b.objects[k].metadata, k) == name
                        ==> Resolve(Exact, b, faults, b.Listing(), name).Some?
  {
  }

  /** The resolution loop shared by every handler: head each candidate in listing order
      and stop at the first that answers to `name`. */
  method Scan(store: Store, faults: Faults, listing: seq<Key>, policy: Policy, name: string)
    returns (found: Option<Key>)
    ensures found == Resolve(policy, store.State(), faults, listing, name)
  {
    ghost var p := MatchesName(policy, store.State(), faults, name);
    var i := 0;
    while i < |listing|
      invariant 0 <= i <= |listing|
      invariant forall j :: 0 <= j < i ==> !p(listing[j])
    {
      var key := listing[i];
      if policy == Fuzzy || IsImageKey(key) {
        var md := store.HeadObject(faults, key);
        if Answers(policy, md, key, name) {
          FirstIndexAt(listing, p, i);
          return Some(key);
        }
      }
      assert !p(key);
      forall j | 0 <= j < i + 1
        ensures !p(listing[j])
      {
        if j == i {
          assert listing[j] == key;
        }
      }
      i := i + 1;
    }
    FirstIndexNone(listing, p);
    return None;
  }

  // ---------------------------------------------------------------- download archive

  /** The archive entry a requested name contributes: the name itself and the bytes of
      the object it resolves to exactly, when that object can be read. */
  function EntryFor(b: Bucket, faults: Faults, listing: seq<Key>, name: string): (r: Option<(string, seq<byte>)>)
    ensures r.Some? ==> r.value.0 == name
    ensures r.Some? <==> Resolve(Exact, b, faults, listing, name).Some?
                         && b.Get(faults, Resolve(Exact, b, faults, listing, name).value).Some?
    ensures r.Some? ==> r.value.1 == b.objects[Resolve(Exact, b, faults, listing, name).value].bytes
  {
    match Resolve(Exact, b, faults, listing, name)
    case None => None
    case Some(k) =>
      match b.Get(faults, k)
      case None => None
      case Some(bytes) => Some((name, bytes))
  }

  /** The archive: one entry per requested name that resolves and downloads, in request order. */
  function ArchiveOf(b: Bucket, faults: Faults, listing: seq<Key>, names: seq<string>): seq<(string, seq<byte>)>
    decreases |names|
  {
    if names == [] then []
    else
      var n := names[|names| - 1];
      ArchiveOf(b, faults, listing, names[..|names| - 1])
        + (match EntryFor(b, faults, listing, n) case None => [] case Some(e) => [e])
  }

  lemma ArchiveSnoc(b: Bucket, faults: Faults, listing: seq<Key>, names: seq<string>, n: string)
    ensures ArchiveOf(b, faults, listing, names + [n]) == ArchiveOf(b, faults, listing, names)
              + (match EntryFor(b, faults, listing, n) case None => [] case Some(e) => [e])
  {
    assert (names + [n])[..|names|] == names;
  }

  /** The requested names that resolve exactly and whose bytes can be read. */
  function Downloads(b: Bucket, faults: Faults, listing: seq<Key>): string -> bool {
    n => EntryFor(b, faults, listing, n).Some?
  }

  /** The names the entries of an archive are written under, in archive order. */
  function EntryNames(entries: seq<(string, seq<byte>)>): (r: seq<string>)
    ensures |r| == |entries|
    ensures forall i :: 0 <= i < |entries| ==> r[i] == entries[i].0
  {
    seq(|entries|, i requires 0 <= i < |entries| => entries[i].0)
  }

  /** The archive holds one entry for every requested name that resolves and downloads,
      in request order (a name requested twice is written twice), and nothing else. */
  lemma {:induction false} ArchiveNames(b: Bucket, faults: Faults, listing: seq<Key>, names: seq<string>)
    ensures EntryNames(ArchiveOf(b, faults, listing, names)) == Filter(names, Downloads(b, faults, listing))
    decreases |names|
  {
    if names != [] {
      var init := names[..|names| - 1];
      var n := names[|names| - 1];
      ArchiveNames(b, faults, listing, init);
      assert names == init + [n];
      FilterSnoc(init, n, Downloads(b, faults, listing));
      var a0 := ArchiveOf(b, faults, listing, init);
      var tail := match EntryFor(b, faults, listing, n) case None => [] case Some(e) => [e];
      assert ArchiveOf(b, faults, listing, names) == a0 + tail;
      assert EntryNames(a0 + tail) == EntryNames(a0) + EntryNames(tail);
    }
  }

  /** Every entry is named by a requested name and holds what that name resolves to;
      there is at most one entry per requested name; every requested name that resolves
      and downloads has its entry; the archive is empty exactly when no requested name
      resolves and downloads. */
  lemma {:induction false} ArchiveEntries(b: Bucket, faults: Faults, listing: seq<Key>, names: seq<string>)
    ensures |ArchiveOf(b, faults, listing, names)| <= |names|
    ensures forall e :: e in ArchiveOf(b, faults, listing, names) ==>
              e.0 in names && EntryFor(b, faults, listing, e.0) == Some(e)
    ensures ArchiveOf(b, faults, listing, names) == [] <==>
              forall n :: n in names ==> EntryFor(b, faults, listing, n).None?
    ensures forall n :: n in names && EntryFor(b, faults, listing, n).Some? ==>
              EntryFor(b, faults, listing, n).value in ArchiveOf(b, faults, listing, names)
    decreases |names|
  {
    if names != [] {
      var init := names[..|names| - 1];
      ArchiveEntries(b, faults, listing, init);
      assert forall n :: n in names <==> n in init || n == names[|names| - 1];
    }
  }

  /** The download loop: for each requested name, resolve it, fetch the bytes and add an
      entry; `found` is the `found_pictures` counter. */
  method CollectArchive(store: Store, faults: Faults, listing: seq<Key>, names: seq<string>)
    returns (entries: seq<(string, seq<byte>)>, found: nat)
    ensures entries == ArchiveOf(store.State(), faults, listing, names)
    ensures found == |entries|
  {
    ghost var b := store.State();
    entries, found := [], 0;
    var i := 0;
    while i < |names|
      invariant 0 <= i <= |names|
      invariant entries == ArchiveOf(b, faults, listing, names[..i])
      invariant found == |entries|
    {
      TakeOneMore(names, i);
      ArchiveSnoc(b, faults, listing, names[..i], names[i]);
      var entry := FetchEntry(store, faults, listing, names[i]);
      if entry.Some? {
        entries := entries + [entry.value];
        found := found + 1;
      }
      i := i + 1;
    }
    TakeAll(names);
  }

  /** One pass of the download loop: resolve the name, then fetch the object's bytes. */
  method FetchEntry(store: Store, faults: Faults, listing: seq<Key>, name: string)
    returns (entry: Option<(string, seq<byte>)>)
    ensures entry == EntryFor(store.State(), faults, listing, name)
  {
    entry := None;
    var target := Scan(store, faults, listing, Exact, name);
    if target.Some? {
      var bytes := store.GetObject(faults, target.value);
      if bytes.Some? {
        entry := Some((name, bytes.value));
      }
    }
  }

  /** `download_pictures`, identical in both files but for the allowed CORS methods. */
  function DownloadOutcome(b: Bucket, faults: Faults, body: RequestBody, allowMethods: string, day: string): (r: Response)
  {
    var headers := CorsHeaders(allowMethods);
    match body
    case NoBody => Response(500, headers, Error("Failed to create download"))
    case Unparseable => Response(500, headers, Error("Failed to create download"))
    case Json(p) =>
      if p.pictures == [] then Response(400, headers, Error("No pictures specified for download"))
      else if b.Listing() == [] then Response(404, headers, Error("No pictures found"))
      else
        var entries := ArchiveOf(b, faults, b.Listing(), p.pictures);
        if entries == [] then Response(404, headers, Error("None of the requested pictures were found"))
        else Response(200, ZipHeaders(allowMethods, day), Archive(entries))
  }

  method Download(store: Store, faults: Faults, body: RequestBody, allowMethods: string, day: string)
    returns (resp: Response)
    ensures resp == DownloadOutcome(store.State(), faults, body, allowMethods, day)
  {
    var headers := CorsHeaders(allowMethods);
    if body.NoBody? || body.Unparseable? {
      return Response(500, headers, Error("Failed to create download"));
    }
    var names := body.payload.pictures;
    if names == [] {
      return Response(400, headers, Error("No pictures specified for download"));
    }
    var listing := store.ListObjects();
    if listing == [] {
      return Response(404, headers, Error("No pictures found"));
    }
    var entries, found := CollectArchive(store, faults, listing, names);
    if found == 0 {
      return Response(404, headers, Error("None of the requested pictures were found"));
    }
    resp := Response(200, ZipHeaders(allowMethods, day), Archive(entries));
  }

  /** What a download promises: an empty request is refused; a success carries at least
      one entry, each named by a requested name and holding the bytes of the object that
      name resolves to; when some requested name resolves and downloads the answer is 200
      with the whole archive and the ZIP headers; and when none does the answer is 404. */
  lemma DownloadContract(b: Bucket, faults: Faults, body: RequestBody, allowMethods: string, day: string)
    ensures body.Json? && body.payload.pictures == [] ==> DownloadOutcome(b, faults, body, allowMethods, day).status == 400
    ensures var r := DownloadOutcome(b, faults, body, allowMethods, day);
            r.status == 200 ==>
              body.Json? && r.body.Archive? && r.body.entries != []
              && forall e :: e in r.body.entries ==>
                   e.0 in body.payload.pictures && EntryFor(b, faults, b.Listing(), e.0) == Some(e)
    ensures body.Json? && body.payload.pictures != []
            && (forall n :: n in body.payload.pictures ==> EntryFor(b, faults, b.Listing(), n).None?)
            ==> DownloadOutcome(b, faults, body, allowMethods, day).status == 404
    ensures body.Json? && body.payload.pictures != []
            && (exists n :: n in body.payload.pictures && EntryFor(b, faults, b.Listing(), n).Some?)
            ==> DownloadOutcome(b, faults, body, allowMethods, day)
                == Response(200, ZipHeaders(allowMethods, day), Archive(ArchiveOf(b, faults, b.Listing(), body.payload.pictures)))
  {
    if body.Json? {
      ArchiveEntries(b, faults, b.Listing(), body.payload.pictures);
    }
  }

  // ---------------------------------------------------------------- metadata rewrites

  /** The metadata after appending comment `c`: only `comments` changes, and it now reads
      as the old comments, in order, followed by `c`. Malformed or missing comments read
      as none, so they are replaced by `[c]`. */
  function CommentedMetadata(md: Metadata, c: Comment): (r: Metadata)
    ensures r.Keys == md.Keys + {CommentsKey}
    ensures forall k :: k in md && k != CommentsKey ==> r[k] == md[k]
    ensures CommentsOf(r) == CommentsOf(md) + [c]
  {
    var r := md[CommentsKey := EncodeComments(CommentsOf(md) + [c])];
    CommentsOfEncoded(r, CommentsOf(md) + [c]);
    r
  }

  /** The metadata with `rating` set to `text`; nothing else changes. */
  function WithRating(md: Metadata, text: string): (r: Metadata)
    ensures r.Keys == md.Keys + {RatingKey}
    ensures forall k :: k in md && k != RatingKey ==> r[k] == md[k]
    ensures RatingKey in r && r[RatingKey] == text
  {
    md[RatingKey := text]
  }

  // ---------------------------------------------------------------- uploads

  /** `data.get('name', f'picture_{uuid}.jpg')`. */
  function UploadName(p: Payload, env: Env): string {
    p.name.GetOr("picture_" + env.nameHex + ".jpg")
  }

  /** `pictures/{timestamp}_{uuid}.{extension}`. */
  function UploadKey(name: string, env: Env): Key {
    Prefix + env.stamp + "_" + env.keyHex + "." + Extension(name)
  }

  /** The new key counts as an image exactly when the name's extension, lower-cased, is an
      image extension. */
  lemma UploadKeyIsImage(p: Payload, env: Env)
    ensures var name := UploadName(p, env);
            IsImageKey(UploadKey(name, env)) <==> IsImageExtension(Lower(Extension(name)))
  {
    var name := UploadName(p, env);
    var stem := Prefix + env.stamp + "_" + env.keyHex;
    assert UploadKey(name, env) == stem + "." + Extension(name);
    ImageKeyByExtension(stem, Extension(name));
  }
}
