/**
 * A loading cache abstracted as a map in front of a backing source: a lookup
 * answers from the map when the key is cached and otherwise loads the entry
 * from the source and remembers it. A cached entry is not re-read, so it may
 * be stale: different from the source's, or present where the source no
 * longer has the key. Size bounds and expiry are not modelled.
 */
module Caching {
  import opened Options

  /** The entry a map holds for a key, as an Option. */
  function Lookup<K, V>(m: map<K, V>, key: K): Option<V> {
    if key in m then Some(m[key]) else None
  }

  /** What lookups through the cache see: a cached entry shadows the source's. */
  function View<K, V>(cache: map<K, V>, source: map<K, V>): map<K, V> {
    source + cache
  }

  /** `cache` still holds every entry of `before`, unchanged. */
  ghost predicate Extends<K, V>(cache: map<K, V>, before: map<K, V>) {
    forall k :: k in before ==> k in cache && cache[k] == before[k]
  }

  /** Every cached entry is the one the source holds for that key. */
  ghost predicate Coherent<K, V>(cache: map<K, V>, source: map<K, V>) {
    forall k :: k in cache ==> k in source && cache[k] == source[k]
  }

  /** Only a stale entry can make the view differ from the source. */
  lemma CoherentView<K, V>(cache: map<K, V>, source: map<K, V>)
    requires Coherent(cache, source)
    ensures View(cache, source) == source
  {
    forall k | k in View(cache, source)
      ensures k in source && View(cache, source)[k] == source[k]
    {
      if k in cache {
        assert View(cache, source)[k] == cache[k];
      }
    }
  }

  /**
   * Look `key` up through the cache. On a miss the entry is loaded from the
   * source and added; a key the source lacks yields None and caches nothing.
   */
  function LoadOnMiss<K, V>(cache: map<K, V>, source: map<K, V>, key: K): (res: (Option<V>, map<K, V>))
    ensures res.0 == Lookup(View(cache, source), key)
    ensures key in cache ==> res.0 == Some(cache[key]) && res.1 == cache
    ensures View(res.1, source) == View(cache, source)
    ensures res.1.Keys == if key in View(cache, source) then cache.Keys + {key} else cache.Keys
    ensures Extends(res.1, cache)
  {
    if key in cache then (Some(cache[key]), cache)
    else if key in source then (Some(source[key]), cache[key := source[key]])
    else (None, cache)
  }

  /** A lookup keeps a coherent cache coherent: what it loads comes from the source. */
  lemma LoadOnMissCoherent<K, V>(cache: map<K, V>, source: map<K, V>, key: K)
    requires Coherent(cache, source)
    ensures Coherent(LoadOnMiss(cache, source, key).1, source)
  {
  }
}
