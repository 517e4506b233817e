/** `parallel_map` and `parallel_for`: data is cut into chunks, one task per chunk, and the
    results come back in whatever order the pool finishes the tasks. */
module Parallel {
  import opened Prelude
  import opened ThreadPool

  /** The sequential meaning of mapping `f` over `xs`. */
  function Map<T, U>(f: T -> U, xs: seq<T>): (ys: seq<U>)
    ensures |ys| == |xs| && forall i :: 0 <= i < |xs| ==> ys[i] == f(xs[i])
  {
    seq(|xs|, i requires 0 <= i < |xs| => f(xs[i]))
  }

  /** A result sent back by a finished task, tagged with the number of its chunk. */
  datatype Message<U> = Message(chunk: nat, results: seq<U>)

  /** Each of the chunks `0..n` finishes exactly once. */
  ghost predicate IsFinishOrder(order: seq<nat>, n: nat) {
    && |order| == n && NoDup(order)
    && forall i :: 0 <= i < |order| ==> order[i] < n
  }

  function CeilDiv(a: nat, b: nat): nat
    requires b > 0
  {
    (a + b - 1) / b
  }

  /** Number of pieces when `len` items are cut for `workers` workers. */
  function ChunkCount(len: nat, workers: nat): nat
    requires len > 0
  {
    var w := if workers == 0 then 1 else workers;
    CeilDiv(len, CeilDiv(len, w))
  }

  lemma CeilDivBounds(a: nat, b: nat)
    requires b > 0
    ensures CeilDiv(a, b) * b >= a
    ensures a > 0 ==> CeilDiv(a, b) > 0 && (CeilDiv(a, b) - 1) * b < a
  {
    var q, r := (a + b - 1) / b, (a + b - 1) % b;
    assert a + b - 1 == q * b + r;
    assert (q - 1) * b == q * b - b;
    assert a > 0 ==> q > 0;
  }

  /** There is never more than one chunk per worker. */
  lemma AtMostOneChunkPerWorker(len: nat, workers: nat)
    requires len > 0 && workers > 0
    ensures 1 <= ChunkCount(len, workers) <= workers
  {
    var c := CeilDiv(len, workers);
    CeilDivBounds(len, workers);
    CeilDivBounds(len, c);
    var n := CeilDiv(len, c);
    if n > workers {
      assert (n - 1) * c >= workers * c by { MulMonotone(workers, n - 1, c); }
      assert false;
    }
  }

  lemma MulMonotone(a: int, b: int, c: nat)
    requires a <= b
    ensures a * c <= b * c
  {
    assert (b - a) * c >= 0;
    assert b * c == a * c + (b - a) * c;
  }

  /** Where chunk `k` starts. */
  function Cut(k: nat, size: nat, len: nat): (c: nat)
    ensures c <= len
  {
    if k * size < len then k * size else len
  }

  lemma CutsIncrease(k: nat, size: nat, len: nat)
    ensures Cut(k, size, len) <= Cut(k + 1, size, len)
    ensures Cut(k + 1, size, len) == if Cut(k, size, len) + size < len then Cut(k, size, len) + size else len
  {
    assert (k + 1) * size == k * size + size;
  }

  function Chunk<T>(data: seq<T>, size: nat, k: nat): seq<T> {
    CutsIncrease(k, size, |data|);
    data[Cut(k, size, |data|)..Cut(k + 1, size, |data|)]
  }

  ghost predicate SortedByChunk<U>(ms: seq<Message<U>>) {
    forall i, j :: 0 <= i < j < |ms| ==> ms[i].chunk <= ms[j].chunk
  }

  /** Sorts messages by chunk number. */
  method SortByChunk<U>(ms: seq<Message<U>>) returns (sorted: seq<Message<U>>)
    ensures SortedByChunk(sorted)
    ensures multiset(sorted) == multiset(ms)
  {
    sorted := [];
    for i := 0 to |ms|
      invariant SortedByChunk(sorted)
      invariant multiset(sorted) == multiset(ms[..i])
    {
      assert ms[..i + 1] == ms[..i] + [ms[i]];
      sorted := InsertByChunk(sorted, ms[i]);
    }
    assert ms[..|ms|] == ms;
  }

  method InsertByChunk<U>(ms: seq<Message<U>>, m: Message<U>) returns (r: seq<Message<U>>)
    requires SortedByChunk(ms)
    ensures SortedByChunk(r)
    ensures multiset(r) == multiset(ms) + multiset{m}
  {
    var p := |ms|;
    while p > 0 && m.chunk < ms[p - 1].chunk
      invariant 0 <= p <= |ms|
      invariant forall q :: p <= q < |ms| ==> m.chunk < ms[q].chunk
    {
      p := p - 1;
    }
    InsertAtMultiset(ms, p, m);
    r := InsertAt(ms, p, m);
    forall i, j | 0 <= i < j < |r| ensures r[i].chunk <= r[j].chunk {
      assert r[i] == (if i < p then ms[i] else if i == p then m else ms[i - 1]);
      assert r[j] == (if j < p then ms[j] else if j == p then m else ms[j - 1]);
    }
  }

  /** A sorted arrangement of `0..n` without repetition is `0, 1, 2, ...`. */
  lemma {:induction false} SortedRangeIsIdentity(keys: seq<nat>, i: nat)
    requires NoDup(keys) && i < |keys|
    requires forall i, j :: 0 <= i < j < |keys| ==> keys[i] <= keys[j]
    requires forall i :: 0 <= i < |keys| ==> keys[i] < |keys|
    ensures keys[i] == i
  {
    AtLeastIndex(keys, i);
    AtMostIndex(keys, i);
  }

  lemma {:induction false} AtLeastIndex(keys: seq<nat>, i: nat)
    requires NoDup(keys) && i < |keys|
    requires forall i, j :: 0 <= i < j < |keys| ==> keys[i] <= keys[j]
    ensures keys[i] >= i
  {
    if i > 0 { AtLeastIndex(keys, i - 1); }
  }

  lemma {:induction false} AtMostIndex(keys: seq<nat>, i: nat)
    requires NoDup(keys) && i < |keys|
    requires forall i, j :: 0 <= i < j < |keys| ==> keys[i] <= keys[j]
    requires forall i :: 0 <= i < |keys| ==> keys[i] < |keys|
    ensures keys[i] <= i
    decreases |keys| - i
  {
    if i + 1 < |keys| { AtMostIndex(keys, i + 1); }
  }

  /** Sorting puts message `k` at position `k`, whatever the order of arrival. */
  lemma SortingRestoresOrder<U>(arrived: seq<Message<U>>, sorted: seq<Message<U>>, order: seq<nat>)
    requires IsFinishOrder(order, |arrived|)
    requires forall i :: 0 <= i < |arrived| ==> arrived[i].chunk == order[i]
    requires SortedByChunk(sorted) && multiset(sorted) == multiset(arrived)
    ensures |sorted| == |arrived|
    ensures forall k :: 0 <= k < |sorted| ==> sorted[k].chunk == k && sorted[k] in arrived
  {
    assert |sorted| == |multiset(sorted)| == |arrived|;
    var keys := seq(|sorted|, i requires 0 <= i < |sorted| => sorted[i].chunk);
    forall k | 0 <= k < |sorted| ensures sorted[k] in arrived {
      assert sorted[k] in multiset(arrived);
    }
    NoDupOccurs(arrived);
    NoDupOccurs(sorted);
    assert NoDup(arrived);
    assert NoDup(sorted) by { assert forall x :: Occurs(sorted, x) == Occurs(arrived, x); }
    forall i, j | 0 <= i < j < |keys| ensures keys[i] != keys[j] {
      assert sorted[i] in arrived && sorted[j] in arrived && sorted[i] != sorted[j];
    }
    forall k | 0 <= k < |sorted| ensures sorted[k].chunk == k { SortedRangeIsIdentity(keys, k); }
  }

  /** `data.chunks(size)`, numbered from zero. */
  method CutIntoChunks<T>(data: seq<T>, size: nat) returns (chunks: seq<(nat, seq<T>)>)
    requires size > 0 && data != []
    ensures |chunks| == CeilDiv(|data|, size)
    ensures forall k :: 0 <= k < |chunks| ==> chunks[k] == (k, Chunk(data, size, k))
  {
    chunks := [];
    var pos := 0;
    while pos < |data|
      invariant pos == Cut(|chunks|, size, |data|)
      invariant |chunks| > 0 ==> (|chunks| - 1) * size < |data|
      invariant forall k :: 0 <= k < |chunks| ==> chunks[k] == (k, Chunk(data, size, k))
      decreases |data| - pos
    {
      CutsIncrease(|chunks|, size, |data|);
      var end := if pos + size < |data| then pos + size else |data|;
      chunks := chunks + [(|chunks|, data[pos..end])];
      pos := end;
    }
    CeilDivUnique(|data|, size, |chunks|);
  }

  /** Puts the results back together: sort by chunk number, then concatenate. */
  method Collect<T, U>(arrived: seq<Message<U>>, ghost data: seq<T>, ghost f: T -> U, ghost size: nat,
                       ghost order: seq<nat>)
    returns (out: seq<U>)
    requires size > 0 && data != []
    requires IsFinishOrder(order, CeilDiv(|data|, size)) && |arrived| == |order|
    requires forall k :: 0 <= k < |arrived| ==> arrived[k] == Message(order[k], Map(f, Chunk(data, size, order[k])))
    ensures out == Map(f, data)
  {
    var sorted := SortByChunk(arrived);
    SortingRestoresOrder(arrived, sorted, order);
    out := [];
    for k := 0 to |sorted|
      invariant out == Map(f, data[..Cut(k, size, |data|)])
    {
      CutsIncrease(k, size, |data|);
      assert sorted[k].results == Map(f, Chunk(data, size, k));
      out := out + sorted[k].results;
    }
    assert Cut(|sorted|, size, |data|) == |data| by { CeilDivBounds(|data|, size); }
    assert data[..|data|] == data;
  }

  /** `parallel_map`, with the order in which the pool finishes the chunks as a parameter. */
  method ParallelMap<T, U>(workers: nat, data: seq<T>, f: T -> U, finish: seq<nat>) returns (out: seq<U>)
    requires data != [] ==> IsFinishOrder(finish, ChunkCount(|data|, workers))
    ensures out == Map(f, data)
  {
    if data == [] {
      return [];
    }
    var numWorkers := if workers == 0 then 1 else workers;
    var size := (|data| + numWorkers - 1) / numWorkers;
    CeilDivBounds(|data|, numWorkers);
    var chunks := CutIntoChunks(data, size);
    var arrived: seq<Message<U>> := [];
    for i := 0 to |finish|
      invariant |arrived| == i
      invariant forall k :: 0 <= k < i ==> arrived[k] == Message(finish[k], Map(f, Chunk(data, size, finish[k])))
    {
      var (idx, chunk) := chunks[finish[i]];
      arrived := arrived + [Message(idx, Map(f, chunk))];
    }
    out := Collect(arrived, data, f, size, finish);
  }

  lemma CeilDivUnique(a: nat, b: nat, q: nat)
    requires b > 0 && q > 0 && (q - 1) * b < a <= q * b
    ensures q == CeilDiv(a, b)
  {
    var c := CeilDiv(a, b);
    CeilDivBounds(a, b);
    if q < c { MulMonotone(q, c - 1, b); }
    if c < q { MulMonotone(c, q - 1, b); }
  }

  // ---------------------------------------------------------------------------------------
  // parallel_for

  datatype ForOutcome = Panicked | Done(visited: seq<nat>)

  lemma ChunkOfIndex(i: nat, k: nat, size: nat, len: nat)
    requires size > 0 && i < len
    ensures Cut(k, size, len) <= i < Cut(k + 1, size, len) <==> i / size == k
  {
    assert (k + 1) * size == k * size + size;
    var q, r := i / size, i % size;
    assert i == q * size + r && 0 <= r < size;
    if q < k {
      MulMonotone(q + 1, k, size);
      assert (q + 1) * size == q * size + size;
    } else if k < q {
      MulMonotone(k + 1, q, size);
    }
  }

  /** Distinct numbers below `n`, `n` of them, leave out none. */
  lemma OrderCovers(order: seq<nat>, n: nat, k: nat)
    requires IsFinishOrder(order, n) && k < n
    ensures k in order
  {
    DistinctSize(order);
    assert Elements(order) <= UpTo(n);
    SubsetSize(Elements(order), UpTo(n));
    assert k in UpTo(n);
  }

  /** One task of `parallel_for`: visits the indices of chunk `idx`. */
  method VisitChunk(visited: seq<nat>, idx: nat, size: nat, len: nat) returns (r: seq<nat>)
    requires size > 0 && NoDup(visited)
    requires forall i :: i in visited ==> i < len && i / size != idx
    ensures NoDup(r)
    ensures forall i: nat :: i in r <==> i in visited || (i < len && i / size == idx)
  {
    var start := Cut(idx, size, len);
    var end := if start + size < len then start + size else len;
    CutsIncrease(idx, size, len);
    forall i: nat | i < len ensures start <= i < end <==> i / size == idx { ChunkOfIndex(i, idx, size, len); }
    r := visited;
    for i := start to end
      invariant NoDup(r)
      invariant forall j: nat :: j in r <==> j in visited || start <= j < i
    {
      assert i !in r;
      r := r + [i];
    }
  }

  /** `parallel_for` over `len` items: the indices handed to the closure, in the order in which
      they are visited. Cutting an empty slice divides by the zero chunk size. */
  method ParallelFor(workers: nat, len: nat, finish: seq<nat>) returns (r: ForOutcome)
    requires len > 0 && workers > 0 ==> IsFinishOrder(finish, ChunkCount(len, workers))
    ensures r.Panicked? <==> len == 0 || workers == 0
    ensures r.Done? ==> NoDup(r.visited) && forall i: nat :: i in r.visited <==> i < len
  {
    if workers == 0 {
      return Panicked;
    }
    var size := (len + workers - 1) / workers;
    CeilDivBounds(len, workers);
    if size == 0 {
      return Panicked;
    }
    assert len > 0;
    var numChunks := (len + size - 1) / size;
    var visited: seq<nat> := [];
    for c := 0 to numChunks
      invariant NoDup(visited)
      invariant forall i: nat :: i in visited <==> i < len && i / size in finish[..c]
    {
      visited := VisitChunk(visited, finish[c], size, len);
      assert finish[..c + 1] == finish[..c] + [finish[c]];
    }
    forall i: nat | i < len ensures i / size in finish[..numChunks] {
      IndexHasChunk(i, size, len);
      OrderCovers(finish, numChunks, i / size);
      assert finish[..numChunks] == finish;
    }
    r := Done(visited);
  }

  lemma IndexHasChunk(i: nat, size: nat, len: nat)
    requires size > 0 && i < len
    ensures i / size < CeilDiv(len, size)
  {
    CeilDivBounds(len, size);
    var q := i / size;
    if q >= CeilDiv(len, size) {
      MulMonotone(CeilDiv(len, size), q, size);
    }
  }

  // ---------------------------------------------------------------------------------------
  // The finish order comes from the pool

  /** Which chunks have been sent back, given the task ids under which they were submitted. */
  function Finished(executed: seq<TaskId>, ids: seq<TaskId>): seq<nat>
  {
    if executed == [] then []
    else
      var rest := Finished(executed[..|executed| - 1], ids);
      var id := executed[|executed| - 1];
      if id in ids then rest + [IndexOf(ids, id)] else rest
  }

  function IndexOf(ids: seq<TaskId>, id: TaskId): (k: nat)
    requires id in ids
    ensures k < |ids| && ids[k] == id
  {
    if ids[0] == id then 0 else 1 + IndexOf(ids[1..], id)
  }

  lemma {:induction false} FinishedOnce(executed: seq<TaskId>, ids: seq<TaskId>)
    requires NoDup(executed) && NoDup(ids)
    ensures NoDup(Finished(executed, ids))
    ensures forall k: nat :: k in Finished(executed, ids) <==> k < |ids| && ids[k] in executed
  {
    if executed != [] {
      var n := |executed| - 1;
      var p, id := executed[..n], executed[n];
      assert executed == p + [id];
      FinishedOnce(p, ids);
      assert id !in p;
    }
  }

  /** There is at most one message per chunk, and all of them make up a finish order. */
  lemma FinishedCount(executed: seq<TaskId>, ids: seq<TaskId>)
    requires NoDup(executed) && NoDup(ids)
    ensures |Finished(executed, ids)| <= |ids|
    ensures |Finished(executed, ids)| == |ids| ==> IsFinishOrder(Finished(executed, ids), |ids|)
  {
    hide Finished;
    var done := Finished(executed, ids);
    FinishedOnce(executed, ids);
    forall i | 0 <= i < |done| ensures done[i] < |ids| { assert done[i] in done; }
    AtMostBound(done, |ids|);
  }

  lemma AtMostBound(s: seq<nat>, n: nat)
    requires NoDup(s) && forall i :: 0 <= i < |s| ==> s[i] < n
    ensures |s| <= n
  {
    DistinctSize(s);
    assert Elements(s) <= UpTo(n);
    SubsetSize(Elements(s), UpTo(n));
  }

  lemma AllFinished(executed: seq<TaskId>, ids: seq<TaskId>)
    requires NoDup(executed) && NoDup(ids)
    requires forall k :: 0 <= k < |ids| ==> ids[k] in executed
    ensures |Finished(executed, ids)| == |ids|
  {
    FinishedCount(executed, ids);
    FinishedOnce(executed, ids);
    DistinctSize(Finished(executed, ids));
    SubsetSize(UpTo(|ids|), Elements(Finished(executed, ids)));
  }

  /** In any run of the pool, a collector that has received one message per submitted chunk has
      received them in a valid finish order, so `ParallelMap` and `ParallelFor` apply; and
      whenever the pool reads idle after the submissions returned, it has received them all. */
  lemma PoolGivesFinishOrder(tr: seq<Pool>, acts: seq<Action>, i: nat, j: nat, ids: seq<TaskId>)
    requires IsRun(tr, acts) && i <= j < |tr| && NoDup(ids)
    ensures var done := Finished(tr[j].executed, ids);
            && |done| <= |ids|
            && (|done| == |ids| ==> IsFinishOrder(done, |ids|))
            && ((forall k :: 0 <= k < |ids| ==> ids[k] in tr[i].returned) && tr[j].active == 0 ==> |done| == |ids|)
  {
    hide IsRun, Finished;
    ExactlyOnce(tr, acts, j);
    FinishedCount(tr[j].executed, ids);
    if (forall k :: 0 <= k < |ids| ==> ids[k] in tr[i].returned) && tr[j].active == 0 {
      forall k | 0 <= k < |ids| ensures ids[k] in tr[j].executed {
        WaitIdleWaits(tr, acts, i, j, ids[k]);
      }
      AllFinished(tr[j].executed, ids);
    }
  }

  /** `parallel_map` on a run of the pool: with one task id per chunk, in submission order, and one
      message received for each of them, the result is the sequential map. */
  method MapOnPool<T, U>(workers: nat, data: seq<T>, f: T -> U, executed: seq<TaskId>, ids: seq<TaskId>,
                         ghost tr: seq<Pool>, ghost acts: seq<Action>, ghost j: nat) returns (out: seq<U>)
    requires IsRun(tr, acts) && j < |tr| && tr[j].executed == executed && NoDup(ids)
    requires |ids| == if data == [] then 0 else ChunkCount(|data|, workers)
    requires |Finished(executed, ids)| == |ids|
    ensures out == Map(f, data)
  {
    hide IsRun, Finished;
    PoolGivesFinishOrder(tr, acts, j, j, ids);
    out := ParallelMap(workers, data, f, Finished(executed, ids));
  }

  /** `parallel_for` on a run of the pool: with one task id per chunk and one message received for
      each of them, every index has been visited exactly once. */
  method ForOnPool(workers: nat, len: nat, executed: seq<TaskId>, ids: seq<TaskId>,
                   ghost tr: seq<Pool>, ghost acts: seq<Action>, ghost j: nat) returns (r: ForOutcome)
    requires IsRun(tr, acts) && j < |tr| && tr[j].executed == executed && NoDup(ids)
    requires |ids| == if len > 0 && workers > 0 then ChunkCount(len, workers) else 0
    requires |Finished(executed, ids)| == |ids|
    ensures r.Panicked? <==> len == 0 || workers == 0
    ensures r.Done? ==> NoDup(r.visited) && forall n: nat :: n in r.visited <==> n < len
  {
    hide IsRun, Finished;
    PoolGivesFinishOrder(tr, acts, j, j, ids);
    r := ParallelFor(workers, len, Finished(executed, ids));
  }
}
