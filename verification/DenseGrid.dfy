/** The cache-optimised grid: a dense three-dimensional grid laid out in one array. */
module DenseGrid {
  import opened Prelude
  import opened Cells

  function IndexOf(x: nat, y: nat, z: nat, width: nat, height: nat): nat {
    z * width * height + y * width + x
  }

  lemma ProductGrows(a: nat, b: nat, w: nat)
    requires a < b
    ensures a * w + w <= b * w
  {
    assert (b - a - 1) * w >= 0;
    assert b * w == a * w + w + (b - a - 1) * w;
  }

  /** A number splits in only one way into a multiple of `w` and a remainder. */
  lemma SplitUnique(a: nat, x: nat, b: nat, y: nat, w: nat)
    requires x < w && y < w && a * w + x == b * w + y
    ensures a == b && x == y
  {
    if a < b { ProductGrows(a, b, w); }
    if b < a { ProductGrows(b, a, w); }
  }

  lemma IndexNested(x: nat, y: nat, z: nat, width: nat, height: nat)
    ensures IndexOf(x, y, z, width, height) == (z * height + y) * width + x
  {
    assert z * width * height == z * height * width;
    assert (z * height + y) * width == z * height * width + y * width;
  }

  /** Coordinates inside the grid index the array, and different coordinates different cells. */
  lemma IndexInRange(x: nat, y: nat, z: nat, width: nat, height: nat, depth: nat)
    requires x < width && y < height && z < depth
    ensures IndexOf(x, y, z, width, height) < width * height * depth
  {
    IndexNested(x, y, z, width, height);
    ProductGrows(z, depth, height);
    ProductGrows(z * height + y, depth * height, width);
    assert depth * height * width == width * height * depth;
  }

  lemma IndexInjective(x: nat, y: nat, z: nat, u: nat, v: nat, w: nat, width: nat, height: nat)
    requires x < width && u < width && y < height && v < height
    requires IndexOf(x, y, z, width, height) == IndexOf(u, v, w, width, height)
    ensures x == u && y == v && z == w
  {
    IndexNested(x, y, z, width, height);
    IndexNested(u, v, w, width, height);
    SplitUnique(z * height + y, x, w * height + v, u, width);
    SplitUnique(z, y, w, v, height);
  }

  class CacheOptimizedGrid<T> {
    const width: nat
    const height: nat
    const depth: nat
    const cellSize: real
    const data: array<T>

    ghost predicate Valid() {
      data.Length == width * height * depth && cellSize > 0.0
    }

    predicate Inside(x: nat, y: nat, z: nat) {
      x < width && y < height && z < depth
    }

    /** The value at a coordinate of the grid. */
    ghost function At(x: nat, y: nat, z: nat): T
      requires Valid() && Inside(x, y, z)
      reads data
    {
      IndexInRange(x, y, z, width, height, depth);
      data[IndexOf(x, y, z, width, height)]
    }

    constructor (width: nat, height: nat, depth: nat, cellSize: real, default: T)
      requires cellSize > 0.0
      ensures Valid() && fresh(data)
      ensures this.width == width && this.height == height && this.depth == depth && this.cellSize == cellSize
      ensures forall x: nat, y: nat, z: nat :: Inside(x, y, z) ==> At(x, y, z) == default
    {
      this.width, this.height, this.depth, this.cellSize := width, height, depth, cellSize;
      data := new T[width * height * depth](_ => default);
      new;
      forall x: nat, y: nat, z: nat | Inside(x, y, z) ensures At(x, y, z) == default {
        IndexInRange(x, y, z, width, height, depth);
      }
    }

    method Get(x: nat, y: nat, z: nat) returns (r: Option<T>)
      requires Valid()
      ensures r == if Inside(x, y, z) then Some(At(x, y, z)) else None
    {
      if x < width && y < height && z < depth {
        IndexInRange(x, y, z, width, height, depth);
        r := Some(data[IndexOf(x, y, z, width, height)]);
      } else {
        r := None;
      }
    }

    /** Writes one coordinate and no other. */
    method Set(x: nat, y: nat, z: nat, value: T) returns (ok: bool)
      requires Valid()
      modifies data
      ensures ok <==> Inside(x, y, z)
      ensures forall u: nat, v: nat, w: nat :: Inside(u, v, w) ==>
                At(u, v, w) == if ok && u == x && v == y && w == z then value else old(At(u, v, w))
    {
      if x < width && y < height && z < depth {
        IndexInRange(x, y, z, width, height, depth);
        data[IndexOf(x, y, z, width, height)] := value;
        forall u: nat, v: nat, w: nat | Inside(u, v, w)
          ensures At(u, v, w) == if u == x && v == y && w == z then value else old(At(u, v, w))
        {
          IndexInRange(u, v, w, width, height, depth);
          if IndexOf(u, v, w, width, height) == IndexOf(x, y, z, width, height) {
            IndexInjective(u, v, w, x, y, z, width, height);
          }
        }
        ok := true;
      } else {
        ok := false;
      }
    }

    /** The cell a position falls into: found exactly for the positions inside the grid's box, and
        then the position lies in that cell. */
    method PositionToCoord(p: Point) returns (r: Option<(nat, nat, nat)>)
      requires Valid()
      ensures r.Some? <==> OnAxis(p.x, width, cellSize) && OnAxis(p.y, height, cellSize) && OnAxis(p.z, depth, cellSize)
      ensures r.Some? ==>
                && Inside(r.value.0, r.value.1, r.value.2)
                && InCell(p.x, r.value.0, cellSize) && InCell(p.y, r.value.1, cellSize)
                && InCell(p.z, r.value.2, cellSize)
    {
      hide OnAxis, InCell;
      AxisCell(p.x, width, cellSize);
      AxisCell(p.y, height, cellSize);
      AxisCell(p.z, depth, cellSize);
      r := None;
      if p.x >= 0.0 && p.y >= 0.0 && p.z >= 0.0 {
        var x, y, z := (p.x / cellSize).Floor, (p.y / cellSize).Floor, (p.z / cellSize).Floor;
        if x >= 0 && y >= 0 && z >= 0 {
          if x < width && y < height && z < depth {
            r := Some((x, y, z));
          }
        }
      }
    }
  }

  /** Inside the grid's extent along one axis. */
  predicate OnAxis(p: real, cells: nat, size: real) {
    0.0 <= p < cells as real * size
  }

  predicate InCell(p: real, cell: nat, size: real) {
    cell as real * size <= p < cell as real * size + size
  }

  lemma Bracket(q: real, low: real, p: real, size: real)
    requires size > 0.0 && low <= q < low + 1.0 && q * size == p
    ensures low * size <= p
    ensures p < low * size + size
  {
    var high := low + 1.0;
    ProductDifference(q, low, size);
    if q > low { ProductPositive(q - low, size); }
    ProductDifference(high, q, size);
    ProductPositive(high - q, size);
    assert high * size > p;
    ProductDifference(high, low, size);
    assert (high - low) * size == size by { assert high - low == 1.0; }
  }

  lemma AxisFloor(p: real, size: real)
    requires size > 0.0
    ensures var low := (p / size).Floor as real; low * size <= p < low * size + size
  {
    Bracket(p / size, (p / size).Floor as real, p, size);
  }

  lemma AxisOrder(q: real, n: real, p: real, size: real)
    requires size > 0.0 && q * size == p
    ensures p < n * size <==> q < n
    ensures 0.0 <= p <==> 0.0 <= q
  {
    ScaleCompare(q, n, size);
    if q < 0.0 { ProductPositive(-q, size); }
    if q > 0.0 { ProductPositive(q, size); }
  }

  lemma AxisCell(p: real, cells: nat, size: real)
    requires size > 0.0
    ensures var c := (p / size).Floor;
            && (OnAxis(p, cells, size) <==> 0.0 <= p && 0 <= c < cells)
            && (c >= 0 ==> InCell(p, c, size))
  {
    var q, c, n := p / size, (p / size).Floor, cells as real;
    assert q * size == p;
    AxisFloor(p, size);
    AxisOrder(q, n, p, size);
    assert q < n <==> c < cells;
    assert 0.0 <= p ==> 0 <= c;
  }
}
