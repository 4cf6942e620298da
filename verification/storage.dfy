/** The object store both handlers run against (an S3 bucket in the source): keys in
    listing order, each with its user metadata, its bytes and its last-modified time.

    `Bucket` is the store as a value, and its functions say what each store call does;
    `Store` is the mutable store the handlers call, whose methods are proved to move
    between `Bucket` values exactly as those functions say. Store calls that raise are
    described by `Faults`: a call on a key in the matching set raises. */
module Storage {
  import opened Prelude
  import opened Text
  import opened Codec

  type Key = string

  /** Every handler lists the bucket under this prefix. */
  const Prefix := "pictures/"

  datatype StoredObject = StoredObject(metadata: Metadata, bytes: seq<byte>, lastModified: int) {
    /** The `Size` a listing reports. */
    function Size(): nat {
      |bytes|
    }
  }

  /** Which store calls raise: `head_object`, `get_object` and `delete_object` (or the
      per-key error of a batch delete) on the keys of the matching set. */
  datatype Faults = Faults(head: set<Key>, get: set<Key>, delete: set<Key>)

  /** The keys whose deletion succeeds, and those whose deletion fails. */
  function Deletable(faults: Faults): Key -> bool {
    k => k !in faults.delete
  }

  function Undeletable(faults: Faults): Key -> bool {
    k => k in faults.delete
  }

  datatype Bucket = Bucket(keys: seq<Key>, objects: map<Key, StoredObject>) {
    /** The keys are listed once each, and exactly the stored keys are listed. */
    ghost predicate Valid() {
      Distinct(keys) && forall k :: k in objects <==> k in keys
    }

    /** `list_objects_v2(Prefix='pictures/')`: the keys under the prefix, in listing order. */
    function Listing(): (r: seq<Key>)
      ensures forall k {:trigger k in r} :: k in r <==> k in keys && StartsWith(k, Prefix)
    {
      Filter(keys, k => StartsWith(k, Prefix))
    }

    /** `head_object`: a copy of the metadata, or `None` where the call raises, which is
        also the case for a key that is no longer stored. */
    function Head(faults: Faults, key: Key): (r: Option<Metadata>)
      ensures r.Some? <==> key in objects && key !in faults.head
      ensures r.Some? ==> r.value == objects[key].metadata
    {
      if key in faults.head || key !in objects then None else Some(objects[key].metadata)
    }

    /** `get_object(...)['Body'].read()`, or `None` where the call raises. */
    function Get(faults: Faults, key: Key): (r: Option<seq<byte>>)
      ensures r.Some? <==> key in objects && key !in faults.get
      ensures r.Some? ==> r.value == objects[key].bytes
    {
      if key in faults.get || key !in objects then None else Some(objects[key].bytes)
    }

    /** `put_object`: stores `obj` under `key`; a new key is listed last. */
    function Put(key: Key, obj: StoredObject): (b: Bucket)
      ensures b.objects == objects[key := obj]
      ensures key in objects ==> b.keys == keys
      ensures key !in objects ==> b.keys == keys + [key]
      ensures Valid() ==> b.Valid()
    {
      if key in objects then Bucket(keys, objects[key := obj])
      else Bucket(keys + [key], objects[key := obj])
    }

    /** `copy_object` of a key onto itself with `MetadataDirective='REPLACE'`: the whole
        metadata map is replaced; bytes, time and listing position are kept. */
    function Replace(key: Key, md: Metadata): (b: Bucket)
      requires key in objects
      ensures b.keys == keys
      ensures b.objects == objects[key := objects[key].(metadata := md)]
      ensures Valid() ==> b.Valid()
    {
      Bucket(keys, objects[key := objects[key].(metadata := md)])
    }

    /** `delete_object`: the key is gone from the map and from the listing. */
    function Remove(key: Key): (b: Bucket)
      ensures b.objects == objects - {key}
      ensures forall k :: k in b.keys <==> k in keys && k != key
      ensures Valid() ==> b.Valid()
    {
      FilterDistinct(keys, k => k != key);
      Bucket(Filter(keys, k => k != key), objects - {key})
    }

    /** The keys of `batch` removed one after another. */
    function RemoveAll(batch: seq<Key>): Bucket
      decreases |batch|
    {
      if batch == [] then this else RemoveAll(batch[..|batch| - 1]).Remove(batch[|batch| - 1])
    }
  }

  /** After removing `batch`, a key is stored exactly when it was stored before and is
      not in `batch`; the objects that stay are unchanged. */
  lemma {:induction false} RemoveAllObjects(b: Bucket, batch: seq<Key>)
    ensures forall k :: k in b.RemoveAll(batch).objects <==> k in b.objects && k !in batch
    ensures forall k :: k in b.RemoveAll(batch).objects ==> b.RemoveAll(batch).objects[k] == b.objects[k]
    decreases |batch|
  {
    if batch != [] {
      var init := batch[..|batch| - 1];
      RemoveAllObjects(b, init);
      assert forall k :: k in batch <==> k in init || k == batch[|batch| - 1];
    }
  }

  /** A listed key is stored. */
  lemma ListedKeyStored(b: Bucket, i: nat)
    requires b.Valid() && i < |b.Listing()|
    ensures b.Listing()[i] in b.objects
  {
    assert b.Listing()[i] in b.Listing();
  }

  /** A read after `put_object` sees the new metadata and bytes under the written key
      (unless that read fails) and what was there before under every other key. */
  lemma ReadAfterPut(b: Bucket, faults: Faults, key: Key, obj: StoredObject, other: Key)
    requires other != key
    ensures b.Put(key, obj).Head(faults, key) == if key in faults.head then None else Some(obj.metadata)
    ensures b.Put(key, obj).Get(faults, key) == if key in faults.get then None else Some(obj.bytes)
    ensures b.Put(key, obj).Head(faults, other) == b.Head(faults, other)
    ensures b.Put(key, obj).Get(faults, other) == b.Get(faults, other)
  {
  }

  /** A read after a metadata copy sees the new metadata under the copied key, unless that
      read fails; the bytes of every key, and the metadata of every other key, are as before. */
  lemma ReadAfterReplace(b: Bucket, faults: Faults, key: Key, md: Metadata, other: Key)
    requires key in b.objects && other != key
    ensures b.Replace(key, md).Head(faults, key) == if key in faults.head then None else Some(md)
    ensures b.Replace(key, md).Get(faults, key) == b.Get(faults, key)
    ensures b.Replace(key, md).Head(faults, other) == b.Head(faults, other)
    ensures b.Replace(key, md).Get(faults, other) == b.Get(faults, other)
  {
  }

  /** After `delete_object` every read of the key fails, and other keys read as before. */
  lemma ReadAfterRemove(b: Bucket, faults: Faults, key: Key, other: Key)
    requires other != key
    ensures b.Remove(key).Head(faults, key).None? && b.Remove(key).Get(faults, key).None?
    ensures b.Remove(key).Head(faults, other) == b.Head(faults, other)
    ensures b.Remove(key).Get(faults, other) == b.Get(faults, other)
  {
  }

  /** Removing a stored key makes the store one object smaller. */
  lemma RemoveOneObject(b: Bucket, key: Key)
    requires key in b.objects
    ensures |b.Remove(key).objects| + 1 == |b.objects|
  {
    assert b.Remove(key).objects.Keys == b.objects.Keys - {key};
  }

  /** Removing a batch of distinct stored keys makes the store smaller by the batch size. */
  lemma {:induction false} RemoveAllCount(b: Bucket, batch: seq<Key>)
    requires Distinct(batch) && forall k :: k in batch ==> k in b.objects
    ensures |b.RemoveAll(batch).objects| + |batch| == |b.objects|
    decreases |batch|
  {
    if batch != [] {
      var init := batch[..|batch| - 1];
      var last := batch[|batch| - 1];
      assert Distinct(init);
      assert forall k :: k in init ==> k in batch;
      RemoveAllCount(b, init);
      RemoveAllObjects(b, init);
      assert last !in init;
      RemoveOneObject(b.RemoveAll(init), last);
    }
  }

  lemma RemoveAllSnoc(b: Bucket, batch: seq<Key>, key: Key)
    ensures b.RemoveAll(batch + [key]) == b.RemoveAll(batch).Remove(key)
  {
    assert (batch + [key])[..|batch|] == batch;
  }

  /** The mutable store. `keys` is the listing order, `objects` the stored objects. */
  class Store {
    var keys: seq<Key>
    var objects: map<Key, StoredObject>

    /** The store as a value. */
    function State(): Bucket
      reads this
    {
      Bucket(keys, objects)
    }

    ghost predicate Valid()
      reads this
    {
      State().Valid()
    }

    /** An empty store. */
    constructor ()
      ensures Valid() && State() == Bucket([], map[])
    {
      keys := [];
      objects := map[];
    }

    // The S3 client's read calls, each answering as the `Bucket` function of the same name.

    method ListObjects() returns (listing: seq<Key>)
      ensures listing == State().Listing()
    {
      listing := Filter(keys, k => StartsWith(k, Prefix));
    }

    method HeadObject(faults: Faults, key: Key) returns (md: Option<Metadata>)
      ensures md == State().Head(faults, key)
    {
      if key in faults.head || key !in objects {
        md := None;
      } else {
        md := Some(objects[key].metadata);
      }
    }

    method GetObject(faults: Faults, key: Key) returns (bytes: Option<seq<byte>>)
      ensures bytes == State().Get(faults, key)
    {
      if key in faults.get || key !in objects {
        bytes := None;
      } else {
        bytes := Some(objects[key].bytes);
      }
    }

    method PutObject(key: Key, obj: StoredObject)
      requires Valid()
      modifies this
      ensures Valid() && State() == old(State()).Put(key, obj)
    {
      if key !in objects {
        keys := keys + [key];
      }
      objects := objects[key := obj];
    }

    method CopyReplace(key: Key, md: Metadata)
      requires Valid() && key in objects
      modifies this
      ensures Valid() && State() == old(State()).Replace(key, md)
    {
      objects := objects[key := objects[key].(metadata := md)];
    }

    /** `delete_object`; `ok` is false where the call raises, and then nothing changes. */
    method DeleteObject(faults: Faults, key: Key) returns (ok: bool)
      requires Valid()
      modifies this
      ensures ok <==> key !in faults.delete
      ensures Valid()
      ensures ok ==> State() == old(State()).Remove(key)
      ensures !ok ==> State() == old(State())
    {
      ok := key !in faults.delete;
      if ok {
        var b := State().Remove(key);
        keys, objects := b.keys, b.objects;
      }
    }

    /** `delete_objects` on a batch: the keys that can be deleted are (`deleted`), the
        others are reported as per-key errors (`errors`); both keep batch order. */
    method DeleteObjects(faults: Faults, batch: seq<Key>) returns (deleted: seq<Key>, errors: seq<Key>)
      requires Valid()
      modifies this
      ensures deleted == Filter(batch, Deletable(faults))
      ensures errors == Filter(batch, Undeletable(faults))
      ensures Valid() && State() == old(State()).RemoveAll(deleted)
    {
      ghost var start := State();
      deleted, errors := [], [];
      var i := 0;
      while i < |batch|
        invariant 0 <= i <= |batch|
        invariant deleted == Filter(batch[..i], Deletable(faults))
        invariant errors == Filter(batch[..i], Undeletable(faults))
        invariant Valid() && State() == start.RemoveAll(deleted)
      {
        TakeOneMore(batch, i);
        FilterSnoc(batch[..i], batch[i], Deletable(faults));
        FilterSnoc(batch[..i], batch[i], Undeletable(faults));
        var ok := DeleteObject(faults, batch[i]);
        if ok {
          RemoveAllSnoc(start, deleted, batch[i]);
          deleted := deleted + [batch[i]];
        } else {
          errors := errors + [batch[i]];
        }
        i := i + 1;
      }
      TakeAll(batch);
    }
  }
}
