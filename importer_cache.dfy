/**
 * `Sass::Plugin::ImporterCache` (lib/sass/plugin/importer_cache.rb): a hash from
 * importers to hashes from uris to cached values. The outer hash has a default
 * block that stores a fresh empty inner hash for an importer the first time it
 * is looked up, which happens on every read, write and delete.
 *
 * A read answers `None` (Ruby's `nil`) for a pair never written; a value such
 * as a negative marker is a stored value and is answered as `Some`.
 */
module ImporterCaches {
  import opened Wrappers

  /** The outer hash after the default block has run for `i`. */
  function Touched<I, U, V>(m: map<I, map<U, V>>, i: I): (r: map<I, map<U, V>>)
    ensures r.Keys == m.Keys + {i}
    ensures i in m ==> r == m
    ensures i !in m ==> r[i] == map[]
    ensures forall j :: j in m ==> r[j] == m[j]
  {
    if i in m then m else m[i := map[]]
  }

  /** The value stored for `(i, u)`, or `None` when there is none. */
  function Lookup<I, U, V>(m: map<I, map<U, V>>, i: I, u: U): (r: Option<V>)
    ensures r.Some? <==> i in m && u in m[i]
    ensures r.Some? ==> r.value == m[i][u]
  {
    if i in m && u in m[i] then Some(m[i][u]) else None
  }

  /** The cache after `cache[i, u] = c`. */
  function Written<I, U, V>(m: map<I, map<U, V>>, i: I, u: U, c: V): map<I, map<U, V>>
  {
    var t := Touched(m, i);
    t[i := t[i][u := c]]
  }

  /** The cache after `cache.delete(i, u)`. */
  function Removed<I, U, V>(m: map<I, map<U, V>>, i: I, u: U): map<I, map<U, V>>
  {
    var t := Touched(m, i);
    t[i := t[i] - {u}]
  }

  /** The default block adds an empty inner hash and no uri entry: no value read changes. */
  lemma TouchAddsNoEntry<I, U, V>(m: map<I, map<U, V>>, i: I, j: I, v: U)
    ensures Lookup(Touched(m, i), j, v) == Lookup(m, j, v)
  {
  }

  /** After `cache[i, u] = c`, `cache[i, u]` is `c`. */
  lemma ReadAfterWrite<I, U, V>(m: map<I, map<U, V>>, i: I, u: U, c: V)
    ensures Lookup(Written(m, i, u, c), i, u) == Some(c)
  {
  }

  /** Writing `(i, u)` leaves the value of every other pair as it was. */
  lemma WriteLeavesOtherPairs<I, U, V>(m: map<I, map<U, V>>, i: I, u: U, c: V, j: I, v: U)
    requires j != i || v != u
    ensures Lookup(Written(m, i, u, c), j, v) == Lookup(m, j, v)
  {
  }

  /** After `delete(i, u)`, `cache[i, u]` is `nil`. */
  lemma ReadAfterDelete<I, U, V>(m: map<I, map<U, V>>, i: I, u: U)
    ensures Lookup(Removed(m, i, u), i, u) == None
  {
  }

  /** Deleting `(i, u)` leaves the value of every other pair as it was. */
  lemma DeleteLeavesOtherPairs<I, U, V>(m: map<I, map<U, V>>, i: I, u: U, j: I, v: U)
    requires j != i || v != u
    ensures Lookup(Removed(m, i, u), j, v) == Lookup(m, j, v)
  {
  }

  /** A stored negative marker reads back as itself, which is distinct from the `nil` of a pair never written. */
  lemma NegativeEntryIsNotAbsent<I, U, V>(i: I, u: U, negative: V)
    ensures Lookup<I, U, V>(map[], i, u) == None
    ensures Lookup(Written(map[], i, u, negative), i, u) == Some(negative)
  {
  }

  class ImporterCache<I(==), U(==), V> {
    /** The outer hash: importer to (uri to cached value). */
    var entries: map<I, map<U, V>>

    /** `initialize`: an empty hash whose default block stores an empty inner hash. */
    constructor ()
      ensures entries == map[]
    {
      entries := map[];
    }

    /** `cache[importer, uri]`. */
    method Get(importer: I, uri: U) returns (v: Option<V>)
      modifies this
      ensures v == Lookup(old(entries), importer, uri)
      ensures entries == Touched(old(entries), importer)
    {
      if importer !in entries {
        entries := entries[importer := map[]];
      }
      var inner := entries[importer];
      v := if uri in inner then Some(inner[uri]) else None;
    }

    /** `cache[importer, uri] = c`. */
    method Set(importer: I, uri: U, c: V)
      modifies this
      ensures entries == Written(old(entries), importer, uri, c)
      ensures Lookup(entries, importer, uri) == Some(c)
      ensures forall j, u :: j != importer || u != uri ==> Lookup(entries, j, u) == Lookup(old(entries), j, u)
    {
      if importer !in entries {
        entries := entries[importer := map[]];
      }
      entries := entries[importer := entries[importer][uri := c]];
    }

    /** `cache.delete(importer, uri)`: answers the removed value, `nil` when there was none. */
    method Delete(importer: I, uri: U) returns (removed: Option<V>)
      modifies this
      ensures removed == Lookup(old(entries), importer, uri)
      ensures entries == Removed(old(entries), importer, uri)
      ensures Lookup(entries, importer, uri) == None
      ensures forall j, u :: j != importer || u != uri ==> Lookup(entries, j, u) == Lookup(old(entries), j, u)
    {
      if importer !in entries {
        entries := entries[importer := map[]];
      }
      var inner := entries[importer];
      removed := if uri in inner then Some(inner[uri]) else None;
      entries := entries[importer := inner - {uri}];
    }
  }
}
