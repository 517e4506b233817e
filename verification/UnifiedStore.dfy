/** The unified store: a vector store and a scalar store behind a cache. The cache must never be
    visible in an answer. Histories are sequential; JSON encoding is taken to be lossless. */
module UnifiedStore {
  import opened Prelude
  import opened LruCache

  type Key = string

  /** JSON values; only the two-field metadata object built by the store is given structure. */
  datatype Json = EmptyObject | Other(id: nat) | Combined(vectorMetadata: Json, scalarMetadata: Json)

  datatype VectorData = VectorData(vector: seq<real>, metadata: Json, dimension: nat, namespace: string)

  datatype ScalarData = ScalarData(value: Json, metadata: Json)

  datatype HybridData = HybridData(vector: Option<seq<real>>, value: Json, metadata: Json)

  /** The contents of the two stores. */
  datatype Contents = Contents(vectors: map<Key, VectorData>, scalars: map<Key, ScalarData>)

  datatype Error = NotFound(key: Key) | BadJson

  function Assemble(v: VectorData, s: ScalarData): HybridData {
    HybridData(Some(v.vector), s.value, Combined(v.metadata, s.metadata))
  }

  // ---------------------------------------------------------------------------------------
  // The store without a cache

  datatype Op =
    | Store(key: Key, vector: VectorData, scalar: ScalarData)
    | Get(key: Key)
    | Delete(key: Key)
    | BatchStore(records: seq<(Key, HybridData)>)
    | BatchPut(kvs: seq<(Key, Option<HybridData>)>)  // `None`: a value that is not valid JSON
    | BatchGet(keys: seq<Key>)

  datatype Answer = Done | Failed(error: Error) | One(data: HybridData) | Many(found: seq<Option<HybridData>>)

  function Lookup(c: Contents, key: Key): Result<HybridData, Error> {
    if key in c.vectors && key in c.scalars then Ok(Assemble(c.vectors[key], c.scalars[key]))
    else Err(NotFound(key))
  }

  function Write(c: Contents, key: Key, v: VectorData, s: ScalarData): Contents {
    Contents(c.vectors[key := v], c.scalars[key := s])
  }

  /** A batch record without a vector is skipped; otherwise the vector gets empty metadata. */
  function WriteRecord(c: Contents, key: Key, data: HybridData): Contents {
    if data.vector.None? then c
    else Write(c, key, VectorData(data.vector.value, EmptyObject, |data.vector.value|, "default"),
               ScalarData(data.value, data.metadata))
  }

  /** `put` stores the metadata with the vector and with the scalar. */
  function PutRecord(c: Contents, key: Key, data: HybridData): Contents {
    if data.vector.None? then c
    else Write(c, key, VectorData(data.vector.value, data.metadata, |data.vector.value|, "default"),
               ScalarData(data.value, data.metadata))
  }

  function WriteAll(c: Contents, records: seq<(Key, HybridData)>): Contents
    decreases |records|
  {
    if records == [] then c
    else WriteAll(WriteRecord(c, records[0].0, records[0].1), records[1..])
  }

  /** Stops at the first value that does not parse; what came before it stays written. */
  function PutAll(c: Contents, kvs: seq<(Key, Option<HybridData>)>): (Contents, Answer)
    decreases |kvs|
  {
    if kvs == [] then (c, Done)
    else if kvs[0].1.None? then (c, Failed(BadJson))
    else PutAll(PutRecord(c, kvs[0].0, kvs[0].1.value), kvs[1..])
  }

  function LookupAll(c: Contents, keys: seq<Key>): (r: seq<Option<HybridData>>)
    ensures |r| == |keys|
    ensures forall i :: 0 <= i < |keys| ==>
              r[i] == if Lookup(c, keys[i]).Ok? then Some(Lookup(c, keys[i]).value) else None
  {
    seq(|keys|, i requires 0 <= i < |keys| => if Lookup(c, keys[i]).Ok? then Some(Lookup(c, keys[i]).value) else None)
  }

  function Apply(c: Contents, op: Op): (Contents, Answer) {
    match op
    case Store(k, v, s) => (Write(c, k, v, s), Done)
    case Get(k) => (c, match Lookup(c, k) case Ok(d) => One(d) case Err(e) => Failed(e))
    case Delete(k) => (Contents(c.vectors - {k}, c.scalars - {k}), Done)
    case BatchStore(rs) => (WriteAll(c, rs), Done)
    case BatchPut(kvs) => PutAll(c, kvs)
    case BatchGet(ks) => (c, Many(LookupAll(c, ks)))
  }

  function ApplyAll(c: Contents, ops: seq<Op>): (Contents, seq<Answer>)
    decreases |ops|
  {
    if ops == [] then (c, [])
    else
      var before := ApplyAll(c, ops[..|ops| - 1]);
      var now := Apply(before.0, ops[|ops| - 1]);
      (now.0, before.1 + [now.1])
  }

  // ---------------------------------------------------------------------------------------
  // The store with its cache

  class InMemoryVectorStore {
    var vectors: map<Key, VectorData>

    constructor ()
      ensures vectors == map[]
    {
      vectors := map[];
    }

    method Set(key: Key, value: VectorData)
      modifies this
      ensures vectors == old(vectors)[key := value]
    {
      vectors := vectors[key := value];
    }

    method Delete(key: Key)
      modifies this
      ensures vectors == old(vectors) - {key}
    {
      vectors := vectors - {key};
    }

    method GetVector(key: Key) returns (r: Option<VectorData>)
      ensures r == if key in vectors then Some(vectors[key]) else None
    {
      r := if key in vectors then Some(vectors[key]) else None;
    }
  }

  class InMemoryScalarStore {
    var data: map<Key, ScalarData>

    constructor ()
      ensures data == map[]
    {
      data := map[];
    }

    method Set(key: Key, value: ScalarData)
      modifies this
      ensures data == old(data)[key := value]
    {
      data := data[key := value];
    }

    method Delete(key: Key)
      modifies this
      ensures data == old(data) - {key}
    {
      data := data - {key};
    }

    method GetScalar(key: Key) returns (r: Option<ScalarData>)
      ensures r == if key in data then Some(data[key]) else None
    {
      r := if key in data then Some(data[key]) else None;
    }
  }

  class UnifiedStoreImpl {
    const vectorStore: InMemoryVectorStore
    const database: InMemoryScalarStore
    const cache: LruCache<Key, HybridData>

    ghost function View(): Contents
      reads vectorStore, database
    {
      Contents(vectorStore.vectors, database.data)
    }

    /** Whatever the cache holds is what the stores would assemble. */
    ghost predicate Valid()
      reads vectorStore, database, cache
    {
      && cache.Valid()
      && forall k :: k in cache.entries ==> Lookup(View(), k) == Ok(cache.entries[k].value)
    }

    constructor (maxSize: nat)
      ensures Valid() && fresh(vectorStore) && fresh(database) && fresh(cache)
      ensures View() == Contents(map[], map[]) && cache.maxSize == maxSize
    {
      vectorStore := new InMemoryVectorStore();
      database := new InMemoryScalarStore();
      cache := new LruCache(maxSize);
    }

    method StoreHybrid(key: Key, v: VectorData, s: ScalarData)
      requires Valid()
      modifies vectorStore, database, cache
      ensures Valid() && View() == Write(old(View()), key, v, s)
    {
      vectorStore.Set(key, v);
      database.Set(key, s);
      var now: real := *;
      cache.Put(key, HybridData(Some(v.vector), s.value, Combined(v.metadata, s.metadata)), None, now);
    }

    method GetHybrid(key: Key) returns (r: Result<HybridData, Error>)
      requires Valid()
      modifies cache
      ensures Valid() && View() == old(View())
      ensures r == Lookup(View(), key)
    {
      var now: real, later: real := *, *;
      var cached := cache.Get(key, now, later);
      if cached.Some? {
        return Ok(cached.value);
      }
      var v := vectorStore.GetVector(key);
      var s := database.GetScalar(key);
      if v.Some? && s.Some? {
        var data := HybridData(Some(v.value.vector), s.value.value, Combined(v.value.metadata, s.value.metadata));
        now := *;
        cache.Put(key, data, None, now);
        return Ok(data);
      }
      return Err(NotFound(key));
    }

    method Delete(key: Key)
      requires Valid()
      modifies vectorStore, database, cache
      ensures Valid() && View() == Contents(old(View()).vectors - {key}, old(View()).scalars - {key})
    {
      vectorStore.Delete(key);
      database.Delete(key);
      cache.Remove(key);
    }

    method BatchStoreHybrid(records: seq<(Key, HybridData)>)
      requires Valid()
      modifies vectorStore, database, cache
      ensures Valid() && View() == WriteAll(old(View()), records)
    {
      for i := 0 to |records|
        invariant Valid() && WriteAll(View(), records[i..]) == WriteAll(old(View()), records)
      {
        var (key, data) := records[i];
        assert records[i..][1..] == records[i + 1..];
        if data.vector.Some? {
          var vec := data.vector.value;
          StoreHybrid(key, VectorData(vec, EmptyObject, |vec|, "default"), ScalarData(data.value, data.metadata));
        }
      }
    }

    method BatchPutAll(kvs: seq<(Key, Option<HybridData>)>) returns (r: Answer)
      requires Valid()
      modifies vectorStore, database, cache
      ensures Valid() && (View(), r) == PutAll(old(View()), kvs)
    {
      for i := 0 to |kvs|
        invariant Valid() && PutAll(View(), kvs[i..]) == PutAll(old(View()), kvs)
      {
        var (key, parsed) := kvs[i];
        assert kvs[i..][1..] == kvs[i + 1..];
        if parsed.None? {
          return Failed(BadJson);
        }
        var data := parsed.value;
        if data.vector.Some? {
          var vec := data.vector.value;
          StoreHybrid(key, VectorData(vec, data.metadata, |vec|, "default"), ScalarData(data.value, data.metadata));
        }
      }
      return Done;
    }

    method BatchGetAll(keys: seq<Key>) returns (found: seq<Option<HybridData>>)
      requires Valid()
      modifies cache
      ensures Valid() && View() == old(View())
      ensures found == LookupAll(View(), keys)
    {
      found := [];
      for i := 0 to |keys|
        invariant Valid() && View() == old(View())
        invariant found == LookupAll(View(), keys)[..i]
      {
        var r := GetHybrid(keys[i]);
        found := found + [if r.Ok? then Some(r.value) else None];
      }
    }

    /** What the other holders of the shared cache may do between calls: remove keys, and insert
        what the stores hold, with any time to live. */
    method DisturbCache()
      requires Valid()
      modifies cache
      ensures Valid() && View() == old(View())
    {
      var rounds: nat :| rounds >= 0;
      for i := 0 to rounds
        invariant Valid() && View() == old(View())
      {
        var key: Key, drop: bool := *, *;
        if drop {
          cache.Remove(key);
        } else {
          var v := vectorStore.GetVector(key);
          var s := database.GetScalar(key);
          if v.Some? && s.Some? {
            var ttl: Option<real>, now: real := *, *;
            cache.Put(key, Assemble(v.value, s.value), ttl, now);
          }
        }
      }
    }

    method Perform(op: Op) returns (a: Answer)
      requires Valid()
      modifies vectorStore, database, cache
      ensures Valid() && (View(), a) == Apply(old(View()), op)
    {
      match op {
        case Store(k, v, s) => StoreHybrid(k, v, s); a := Done;
        case Get(k) =>
          var r := GetHybrid(k);
          a := match r case Ok(d) => One(d) case Err(e) => Failed(e);
        case Delete(k) => Delete(k); a := Done;
        case BatchStore(rs) => BatchStoreHybrid(rs); a := Done;
        case BatchPut(kvs) => a := BatchPutAll(kvs);
        case BatchGet(ks) =>
          var found := BatchGetAll(ks);
          a := Many(found);
      }
    }
  }

  /** Cache transparency: over every sequential history, with whatever evictions, expiries,
      removals and coherent insertions happen in the cache on the way, the answers are those of
      the store without a cache, and the cache stays within its bound and counts its entries. */
  method History(maxSize: nat, ops: seq<Op>) returns (answers: seq<Answer>, store: UnifiedStoreImpl)
    ensures answers == ApplyAll(Contents(map[], map[]), ops).1
    ensures store.View() == ApplyAll(Contents(map[], map[]), ops).0
    ensures |store.cache.entries| <= maxSize && store.cache.size == |store.cache.entries|
  {
    store := new UnifiedStoreImpl(maxSize);
    answers := [];
    for i := 0 to |ops|
      invariant fresh(store.vectorStore) && fresh(store.database) && fresh(store.cache) && store.Valid()
      invariant (store.View(), answers) == ApplyAll(Contents(map[], map[]), ops[..i])
    {
      assert ops[..i + 1][..i] == ops[..i];
      store.DisturbCache();
      var a := store.Perform(ops[i]);
      answers := answers + [a];
    }
    store.DisturbCache();
    assert ops[..|ops|] == ops;
  }
}
