/** The cache in front of the unified store. Despite its name, overflow evicts arbitrary keys;
    entries may also expire. Time is a parameter of the operations that read the clock. */
module LruCache {
  import opened Prelude

  datatype Entry<+V> = Entry(value: V, createdAt: real, ttl: Option<real>)
  {
    predicate IsExpired(now: real) {
      ttl.Some? && now - createdAt > ttl.value
    }
  }

  class LruCache<K(==), V> {
    var entries: map<K, Entry<V>>
    var hits: nat
    var misses: nat
    var evictions: nat
    var size: nat
    const maxSize: nat

    /** The cache is within its bound and `size` is the number of entries. */
    ghost predicate Valid()
      reads this
    {
      |entries| <= maxSize && size == |entries|
    }

    constructor (maxSize: nat)
      ensures Valid() && entries == map[] && this.maxSize == maxSize
      ensures hits == misses == evictions == 0
    {
      this.maxSize := maxSize;
      entries := map[];
      hits, misses, evictions, size := 0, 0, 0, 0;
    }

    /** Drops exactly the expired entries. */
    method EvictExpired(now: real)
      requires Valid()
      modifies this`entries, this`evictions, this`size
      ensures Valid()
      ensures entries == map k | k in old(entries) && !old(entries)[k].IsExpired(now) :: old(entries)[k]
      ensures evictions - old(evictions) == |old(entries)| - |entries|
    {
      ghost var before := entries;
      var toRemove := set k | k in entries && entries[k].IsExpired(now);
      while toRemove != {}
        invariant Valid() && toRemove <= before.Keys
        invariant forall k :: k in toRemove ==> before[k].IsExpired(now)
        invariant forall k :: k in entries <==> k in before && (k in toRemove || !before[k].IsExpired(now))
        invariant forall k :: k in entries ==> entries[k] == before[k]
        invariant evictions - old(evictions) == |before| - |entries|
        decreases toRemove
      {
        var k :| k in toRemove;
        RemoveSize(entries, k);
        entries := entries - {k};
        evictions := evictions + 1;
        size := SaturatingSub(size, 1);
        toRemove := toRemove - {k};
      }
    }

    /** A hit returns the stored value; the second clock reading may find the entry expired. */
    method Get(key: K, now: real, later: real) returns (r: Option<V>)
      requires Valid()
      modifies this`entries, this`evictions, this`size, this`hits, this`misses
      ensures Valid()
      ensures entries == map k | k in old(entries) && !old(entries)[k].IsExpired(now) :: old(entries)[k]
      ensures r == if key in entries && !entries[key].IsExpired(later) then Some(entries[key].value) else None
      ensures hits == old(hits) + (if r.Some? then 1 else 0)
      ensures misses == old(misses) + (if r.None? then 1 else 0)
    {
      EvictExpired(now);
      if key in entries && !entries[key].IsExpired(later) {
        hits := hits + 1;
        return Some(entries[key].value);
      }
      misses := misses + 1;
      return None;
    }

    /** Inserts, then evicts arbitrary entries, possibly the new one, until the bound holds. */
    method Put(key: K, value: V, ttl: Option<real>, now: real)
      requires Valid()
      modifies this`entries, this`evictions, this`size
      ensures Valid()
      ensures forall k :: k in entries ==> if k == key then entries[k] == Entry(value, now, ttl)
                                           else k in old(entries) && entries[k] == old(entries)[k]
      ensures |old(entries)[key := Entry(value, now, ttl)]| <= maxSize ==>
                entries == old(entries)[key := Entry(value, now, ttl)]
      ensures evictions - old(evictions) + |entries| == |old(entries)[key := Entry(value, now, ttl)]|
    {
      entries := entries[key := Entry(value, now, ttl)];
      ghost var full := entries;
      while |entries| > maxSize
        invariant |full| <= maxSize ==> entries == full
        invariant forall k :: k in entries ==> k in full && entries[k] == full[k]
        invariant evictions - old(evictions) + |entries| == |full| && evictions >= old(evictions)
        decreases |entries|
      {
        assert entries != map[];
        var k :| k in entries;
        RemoveSize(entries, k);
        entries := entries - {k};
        evictions := evictions + 1;
      }
      size := |entries|;
    }

    method Remove(key: K)
      requires Valid()
      modifies this`entries, this`size
      ensures Valid() && entries == old(entries) - {key}
    {
      if key in entries {
        RemoveSize(entries, key);
        entries := entries - {key};
        size := SaturatingSub(size, 1);
      } else {
        assert entries - {key} == entries;
      }
    }

    method Clear()
      modifies this`entries, this`size
      ensures Valid() && entries == map[]
    {
      entries, size := map[], 0;
    }
  }

  lemma RemoveSize<K, V>(m: map<K, V>, k: K)
    requires k in m
    ensures |m - {k}| == |m| - 1
  {
    assert (m - {k}).Keys == m.Keys - {k};
    assert |m| == |m.Keys| && |m - {k}| == |(m - {k}).Keys|;
  }
}
