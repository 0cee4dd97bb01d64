/**
 * The object store, reduced to what the storage logic relies on: a bucket
 * maps keys to stored objects, `upload` puts one object and reports its
 * location, `deleteObject` removes a key whether or not it is there.
 */
module Store {

  /** The body and the `ContentType` of one stored object. */
  datatype StoredObject = StoredObject(body: seq<bv8>, contentType: string)

  /** One put: the key and the object stored under it. */
  datatype Put = Put(key: string, obj: StoredObject)

  class Bucket {
    /** The public base URL under which the bucket's objects are reachable. */
    const baseUrl: string
    var objects: map<string, StoredObject>

    constructor (baseUrl: string, objects: map<string, StoredObject>)
      ensures this.baseUrl == baseUrl && this.objects == objects
    {
      this.baseUrl := baseUrl;
      this.objects := objects;
    }

    /** `S3.upload`: stores the object under the key and answers its location. */
    method Upload(key: string, obj: StoredObject) returns (location: string)
      modifies this
      ensures objects == old(objects)[key := obj]
      ensures location == baseUrl + "/" + key
    {
      objects := objects[key := obj];
      location := baseUrl + "/" + key;
    }

    /** `S3.deleteObject`: removes the key; a missing key is not an error. */
    method DeleteObject(key: string)
      modifies this
      ensures objects == old(objects) - {key}
    {
      objects := objects - {key};
    }
  }

  /** The store after a sequence of puts, the later ones overwriting the earlier. */
  function PutAll(m: map<string, StoredObject>, puts: seq<Put>): map<string, StoredObject>
  {
    if puts == [] then m
    else PutAll(m, puts[..|puts| - 1])[puts[|puts| - 1].key := puts[|puts| - 1].obj]
  }

  /** The store after removing a sequence of keys one by one. */
  function RemoveAll(m: map<string, StoredObject>, keys: seq<string>): map<string, StoredObject>
  {
    if keys == [] then m
    else RemoveAll(m, keys[..|keys| - 1]) - {keys[|keys| - 1]}
  }

  /** Extending a prefix of the puts by one applies that one put. */
  lemma PutAllStep(m: map<string, StoredObject>, puts: seq<Put>, i: nat)
    requires i < |puts|
    ensures PutAll(m, puts[..i + 1]) == PutAll(m, puts[..i])[puts[i].key := puts[i].obj]
  {
    assert puts[..i + 1][..i] == puts[..i];
  }

  /** Extending a prefix of the keys by one removes that one key. */
  lemma RemoveAllStep(m: map<string, StoredObject>, keys: seq<string>, i: nat)
    requires i < |keys|
    ensures RemoveAll(m, keys[..i + 1]) == RemoveAll(m, keys[..i]) - {keys[i]}
  {
    assert keys[..i + 1][..i] == keys[..i];
  }

  /** Removing one run of keys and then another is removing both runs. */
  lemma {:induction false} RemoveAllAppend(m: map<string, StoredObject>, a: seq<string>, b: seq<string>)
    ensures RemoveAll(RemoveAll(m, a), b) == RemoveAll(m, a + b)
  {
    if b != [] {
      RemoveAllAppend(m, a, b[..|b| - 1]);
      assert (a + b)[..|a + b| - 1] == a + b[..|b| - 1];
    } else {
      assert a + b == a;
    }
  }

  function PutKeys(puts: seq<Put>): set<string>
  {
    set i | 0 <= i < |puts| :: puts[i].key
  }

  /** A put that no later put overwrites leaves its object under its key. */
  lemma {:induction false} PutAllObject(m: map<string, StoredObject>, puts: seq<Put>, i: nat)
    requires i < |puts|
    requires forall j :: i < j < |puts| ==> puts[j].key != puts[i].key
    ensures puts[i].key in PutAll(m, puts) && PutAll(m, puts)[puts[i].key] == puts[i].obj
  {
    var last := |puts| - 1;
    if i < last {
      var init := puts[..last];
      assert init[i] == puts[i];
      assert forall j :: i < j < |init| ==> init[j] == puts[j];
      PutAllObject(m, init, i);
      assert puts[last].key != puts[i].key;
    }
  }

  /**
   * After the puts, every put key is present and holds the object of its
   * last put, and every other key is as before.
   */
  lemma {:induction false} PutAllEffect(m: map<string, StoredObject>, puts: seq<Put>)
    ensures PutAll(m, puts).Keys == m.Keys + PutKeys(puts)
    ensures forall k :: k in m && k !in PutKeys(puts) ==> PutAll(m, puts)[k] == m[k]
    ensures forall i :: 0 <= i < |puts| && (forall j :: i < j < |puts| ==> puts[j].key != puts[i].key) ==>
      PutAll(m, puts)[puts[i].key] == puts[i].obj
  {
    forall i | 0 <= i < |puts| && (forall j :: i < j < |puts| ==> puts[j].key != puts[i].key)
      ensures puts[i].key in PutAll(m, puts) && PutAll(m, puts)[puts[i].key] == puts[i].obj
    {
      PutAllObject(m, puts, i);
    }
    if puts != [] {
      var init := puts[..|puts| - 1];
      PutAllEffect(m, init);
      assert PutKeys(puts) == PutKeys(init) + {puts[|puts| - 1].key} by {
        forall k | k in PutKeys(puts) ensures k in PutKeys(init) + {puts[|puts| - 1].key} {
          var i :| 0 <= i < |puts| && puts[i].key == k;
          if i < |puts| - 1 {
            assert init[i] == puts[i];
          }
        }
        forall k | k in PutKeys(init) ensures k in PutKeys(puts) {
          var i :| 0 <= i < |init| && init[i].key == k;
          assert puts[i] == init[i];
        }
      }
    }
  }

  /** Removing keys one by one is removing the set of them at once. */
  lemma {:induction false} RemoveAllIsSubtraction(m: map<string, StoredObject>, keys: seq<string>)
    ensures RemoveAll(m, keys) == m - set k | k in keys
  {
    if keys != [] {
      var init := keys[..|keys| - 1];
      RemoveAllIsSubtraction(m, init);
      assert (set k | k in keys) == (set k | k in init) + {keys[|keys| - 1]} by {
        assert keys == init + [keys[|keys| - 1]];
      }
    }
  }

  /** Deleting the same keys a second time changes nothing. */
  lemma RemoveAllIdempotent(m: map<string, StoredObject>, keys: seq<string>)
    ensures RemoveAll(RemoveAll(m, keys), keys) == RemoveAll(m, keys)
  {
    RemoveAllIsSubtraction(m, keys);
    RemoveAllIsSubtraction(RemoveAll(m, keys), keys);
  }

  /**
   * Upload then delete: when the deleted keys cover the put keys, none of
   * the uploaded objects survives, and keys outside both are untouched.
   */
  lemma UploadThenRemove(m: map<string, StoredObject>, puts: seq<Put>, keys: seq<string>)
    requires forall i :: 0 <= i < |puts| ==> puts[i].key in keys
    ensures forall i :: 0 <= i < |puts| ==> puts[i].key !in RemoveAll(PutAll(m, puts), keys)
    ensures forall k :: k !in keys && k !in PutKeys(puts) ==>
      (k in RemoveAll(PutAll(m, puts), keys) <==> k in m) &&
      (k in m ==> RemoveAll(PutAll(m, puts), keys)[k] == m[k])
  {
    PutAllEffect(m, puts);
    RemoveAllIsSubtraction(PutAll(m, puts), keys);
  }
}
