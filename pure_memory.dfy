/**
 * `Sass::CacheStores::PureMemory` (lib/sass/cache_stores/pure_memory.rb): an
 * in-process store of parsed trees keyed by a cache key, each entry guarded by
 * the sha of the source it was parsed from. `retrieve` answers the stored
 * object only when the sha asked for is the sha stored.
 *
 * `store` belongs to the parent class `Memory`, which is not part of this
 * model; it is given the plain overwrite behaviour here.
 */
module CacheStores {
  import opened Wrappers

  /** A stored entry, `{:sha => sha, :obj => obj}`. */
  datatype Bucket<O> = Bucket(sha: string, obj: O)

  datatype PureMemory<O> = PureMemory(contents: map<string, Bucket<O>>)
  {
    /** `retrieve(key, sha)`: the stored object when the bucket exists and its sha matches, else `nil`. */
    function Retrieve(key: string, sha: string): (r: Option<O>)
      ensures r.Some? <==> key in contents && contents[key].sha == sha
      ensures r.Some? ==> r.value == contents[key].obj
    {
      if key in contents && contents[key].sha == sha then Some(contents[key].obj) else None
    }

    /** `store(key, sha, obj)`: replaces the whole bucket of `key`. */
    function Store(key: string, sha: string, obj: O): (s: PureMemory<O>)
      ensures s.contents.Keys == contents.Keys + {key}
      ensures s.contents[key] == Bucket(sha, obj)
      ensures forall k :: k in contents && k != key ==> s.contents[k] == contents[k]
    {
      PureMemory(contents[key := Bucket(sha, obj)])
    }
  }

  /** A key with no bucket is a miss, whatever sha is asked for. */
  lemma MissingKeyMisses<O>(m: PureMemory<O>, key: string, sha: string)
    requires key !in m.contents
    ensures m.Retrieve(key, sha) == None
  {
  }

  /** Retrieving with the sha just stored answers the object just stored. */
  lemma RetrieveAfterStore<O>(m: PureMemory<O>, key: string, sha: string, obj: O)
    ensures m.Store(key, sha, obj).Retrieve(key, sha) == Some(obj)
  {
  }

  /** Retrieving with any other sha is a miss: a changed source is never answered from the cache. */
  lemma RetrieveWithOtherShaMisses<O>(m: PureMemory<O>, key: string, sha: string, other: string, obj: O)
    requires other != sha
    ensures m.Store(key, sha, obj).Retrieve(key, other) == None
  {
  }

  /** Storing under one key does not change what any other key answers. */
  lemma StoreLeavesOtherKeys<O>(m: PureMemory<O>, key: string, sha: string, obj: O, k: string, s: string)
    requires k != key
    ensures m.Store(key, sha, obj).Retrieve(k, s) == m.Retrieve(k, s)
  {
  }
}
