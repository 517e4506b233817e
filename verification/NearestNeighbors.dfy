/** The k-nearest-neighbour search: distances to every point, sorted and cut off. */
module NearestNeighbors {
  import opened Prelude
  import opened Cells
  import opened SpatialGrid

  datatype Neighbor = Neighbor(index: nat, distance: real)

  /** All points with their squared distances, in data order. */
  function Distances(query: Point, data: seq<Point>): (r: seq<Neighbor>)
    ensures |r| == |data|
    ensures forall i :: 0 <= i < |r| ==> r[i] == Neighbor(i, DistanceSquared(query, data[i]))
  {
    seq(|data|, i requires 0 <= i < |data| => Neighbor(i, DistanceSquared(query, data[i])))
  }

  ghost predicate Ordered(s: seq<Neighbor>) {
    forall i, j :: 0 <= i < j < |s| ==> s[i].distance <= s[j].distance
  }

  /** Equal distances keep the order of the data. */
  ghost predicate Stable(s: seq<Neighbor>) {
    forall i, j :: 0 <= i < j < |s| && s[i].distance == s[j].distance ==> s[i].index < s[j].index
  }

  /** A stable sort by distance. */
  method SortByDistance(list: seq<Neighbor>) returns (r: seq<Neighbor>)
    requires forall i, j :: 0 <= i < j < |list| ==> list[i].index < list[j].index
    ensures multiset(r) == multiset(list) && Ordered(r) && Stable(r)
  {
    r := [];
    for n := 0 to |list|
      invariant multiset(r) == multiset(list[..n]) && Ordered(r) && Stable(r)
      invariant forall x :: x in r ==> exists i :: 0 <= i < n && list[i] == x
    {
      var e := list[n];
      var k := |r|;
      while k > 0 && r[k - 1].distance > e.distance
        invariant 0 <= k <= |r|
        invariant forall j :: k <= j < |r| ==> r[j].distance > e.distance
      {
        k := k - 1;
      }
      assert forall j :: 0 <= j < |r| ==> r[j] in r;
      assert list[..n + 1] == list[..n] + [e];
      InsertAtMultiset(r, k, e);
      InsertOrdered(r, k, e);
      r := InsertAt(r, k, e);
    }
    assert list[..|list|] == list;
  }

  lemma InsertOrdered(r: seq<Neighbor>, k: nat, e: Neighbor)
    requires k <= |r| && Ordered(r) && Stable(r)
    requires k > 0 ==> r[k - 1].distance <= e.distance
    requires forall j :: k <= j < |r| ==> r[j].distance > e.distance
    requires forall j :: 0 <= j < |r| ==> r[j].index < e.index
    ensures Ordered(InsertAt(r, k, e)) && Stable(InsertAt(r, k, e))
    ensures forall x :: x in InsertAt(r, k, e) ==> x in r || x == e
  {
    assert forall j :: 0 <= j < k ==> r[j].distance <= e.distance;
  }

  /** The nearest points, nearest first and ties in data order: no point left out is nearer than
      one handed out. */
  method KnnSearch(query: Point, data: seq<Point>, k: nat) returns (r: seq<Neighbor>)
    ensures |r| == (if k < |data| then k else |data|)
    ensures Ordered(r) && Stable(r)
    ensures forall n :: n in r ==> n.index < |data| && n.distance == DistanceSquared(query, data[n.index])
    ensures forall i, j :: 0 <= i < j < |r| ==> r[i].index != r[j].index
    ensures forall n, i :: n in r && 0 <= i < |data| && Neighbor(i, DistanceSquared(query, data[i])) !in r ==>
              n.distance <= DistanceSquared(query, data[i])
  {
    var all := Distances(query, data);
    var sorted := SortByDistance(all);
    var size := if k < |data| then k else |data|;
    assert |sorted| == |all| by { assert |multiset(sorted)| == |multiset(all)|; }
    r := sorted[..size];
    CutOff(all, sorted, size);
  }

  /** A square root. */
  ghost predicate IsRoot(root: real -> real) {
    forall x: real :: x >= 0.0 ==> root(x) >= 0.0 && root(x) * root(x) == x
  }

  function Rooted(s: seq<Neighbor>, root: real -> real): (r: seq<Neighbor>)
    ensures |r| == |s| && forall i :: 0 <= i < |r| ==> r[i] == Neighbor(s[i].index, root(s[i].distance))
  {
    seq(|s|, i requires 0 <= i < |s| => Neighbor(s[i].index, root(s[i].distance)))
  }

  /** What one query promises, with true distances: `min(k, n)` different points, nearest first
      and ties in data order, and no point left out is nearer. */
  ghost predicate Nearest(query: Point, data: seq<Point>, k: nat, root: real -> real, r: seq<Neighbor>) {
    && |r| == (if k < |data| then k else |data|)
    && (forall i :: 0 <= i < |r| ==>
          r[i].index < |data| && r[i].distance == root(DistanceSquared(query, data[r[i].index])))
    && (forall i, j :: 0 <= i < j < |r| ==> r[i].index != r[j].index && r[i].distance <= r[j].distance)
    && (forall i, j :: 0 <= i < j < |r| && r[i].distance == r[j].distance ==> r[i].index < r[j].index)
    && (forall i, n :: 0 <= i < |r| && 0 <= n < |data| && (forall j :: 0 <= j < |r| ==> r[j].index != n) ==>
          r[i].distance <= root(DistanceSquared(query, data[n])))
  }

  lemma RootMonotone(root: real -> real, x: real, y: real)
    requires IsRoot(root) && 0.0 <= x <= y
    ensures root(x) <= root(y) && (root(x) == root(y) ==> x == y)
  {
    var a, b := root(x), root(y);
    assert a >= 0.0 && b >= 0.0 && a * a == x && b * b == y;
    assert (a - b) * (a + b) == a * a - b * b;
    if a > b {
      ProductPositive(a - b, a + b);
    }
  }

  lemma DistanceNonNegative(p: Point, q: Point)
    ensures DistanceSquared(p, q) >= 0.0
  {
    SquareNonNegative(p.x - q.x);
    SquareNonNegative(p.y - q.y);
    SquareNonNegative(p.z - q.z);
  }

  /** Taking roots keeps everything `KnnSearch` promises. */
  lemma RootsKeepNearest(query: Point, data: seq<Point>, k: nat, root: real -> real, s: seq<Neighbor>)
    requires IsRoot(root) && |s| == (if k < |data| then k else |data|) && Ordered(s) && Stable(s)
    requires forall n :: n in s ==> n.index < |data| && n.distance == DistanceSquared(query, data[n.index])
    requires forall i, j :: 0 <= i < j < |s| ==> s[i].index != s[j].index
    requires forall n, i :: n in s && 0 <= i < |data| && Neighbor(i, DistanceSquared(query, data[i])) !in s ==>
               n.distance <= DistanceSquared(query, data[i])
    ensures Nearest(query, data, k, root, Rooted(s, root))
  {
    hide DistanceSquared, IsRoot;
    var r := Rooted(s, root);
    forall i | 0 <= i < |s| ensures s[i] in s && s[i].distance >= 0.0 { DistanceNonNegative(query, data[s[i].index]); }
    forall i, j | 0 <= i < j < |s|
      ensures r[i].distance <= r[j].distance && (r[i].distance == r[j].distance ==> r[i].index < r[j].index)
    {
      RootMonotone(root, s[i].distance, s[j].distance);
    }
    forall i, n | 0 <= i < |r| && 0 <= n < |data| && (forall j :: 0 <= j < |r| ==> r[j].index != n)
      ensures r[i].distance <= root(DistanceSquared(query, data[n]))
    {
      assert forall j :: 0 <= j < |s| ==> r[j].index == s[j].index;
      assert Neighbor(n, DistanceSquared(query, data[n])) !in s;
      RootMonotone(root, s[i].distance, DistanceSquared(query, data[n]));
    }
  }

  /** One answer per query; without data every answer is empty. */
  method KnnSearchAll(queries: seq<Point>, data: seq<Point>, k: nat, root: real -> real)
    returns (out: seq<seq<Neighbor>>)
    requires IsRoot(root)
    ensures |out| == |queries|
    ensures forall q :: 0 <= q < |queries| ==> Nearest(queries[q], data, k, root, out[q])
  {
    if queries == [] || data == [] {
      return seq(|queries|, _ => []);
    }
    out := [];
    for q := 0 to |queries|
      invariant |out| == q && forall p :: 0 <= p < q ==> Nearest(queries[p], data, k, root, out[p])
    {
      hide Nearest;
      var r := KnnSearch(queries[q], data, k);
      RootsKeepNearest(queries[q], data, k, root, r);
      out := out + [Rooted(r, root)];
    }
  }

  lemma CutOff(all: seq<Neighbor>, sorted: seq<Neighbor>, size: nat)
    requires multiset(sorted) == multiset(all) && size <= |sorted| && Ordered(sorted) && Stable(sorted)
    requires forall i :: 0 <= i < |all| ==> all[i].index == i
    ensures forall n :: n in sorted[..size] ==> n.index < |all| && all[n.index] == n
    ensures forall i, j :: 0 <= i < j < size ==> sorted[i].index != sorted[j].index
    ensures forall n, i :: n in sorted[..size] && 0 <= i < |all| && all[i] !in sorted[..size] ==>
              n.distance <= all[i].distance
  {
    forall n | n in sorted ensures n.index < |all| && all[n.index] == n {
      assert n in multiset(all);
    }
    forall i, j | 0 <= i < j < size ensures sorted[i].index != sorted[j].index {
      assert sorted[i] in sorted && sorted[j] in sorted;
    }
    forall n, i | n in sorted[..size] && 0 <= i < |all| && all[i] !in sorted[..size]
      ensures n.distance <= all[i].distance {
      assert all[i] in multiset(sorted);
      var p :| 0 <= p < |sorted| && sorted[p] == all[i];
      var q :| 0 <= q < size && sorted[q] == n;
      assert forall t :: 0 <= t < size ==> sorted[t] == sorted[..size][t];
      assert p >= size;
    }
  }
}
