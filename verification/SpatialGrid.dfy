/** The spatial hash grid for neighbour queries, compared with the linear radius search.
    Coordinates are real numbers; rounding is not modelled. */
module SpatialGrid {
  import opened Prelude
  import opened Cells

  function CellOf(p: Point, size: real): Cell
    requires size > 0.0
  {
    Cell((p.x / size).Floor, (p.y / size).Floor, (p.z / size).Floor)
  }

  function Ceil(x: real): (n: int)
    ensures x <= n as real < x + 1.0
  {
    -((-x).Floor)
  }

  function DistanceSquared(p: Point, q: Point): real {
    (p.x - q.x) * (p.x - q.x) + (p.y - q.y) * (p.y - q.y) + (p.z - q.z) * (p.z - q.z)
  }

  predicate Within(p: Point, q: Point, radius: real) {
    DistanceSquared(p, q) <= radius * radius
  }

  /** The linear scan: the indices of all points within the radius, in ascending order. */
  function RadiusSearch(query: Point, data: seq<Point>, radius: real): (r: seq<nat>)
    ensures NoDup(r)
    ensures forall i: nat :: i in r <==> i < |data| && Within(query, data[i], radius)
  {
    if data == [] then []
    else
      var n := |data| - 1;
      var rest := RadiusSearch(query, data[..n], radius);
      assert forall i :: 0 <= i < |rest| ==> rest[i] in rest;
      if Within(query, data[n], radius) then rest + [n] else rest
  }

  /** Index `i` is in the cell of `positions[i]`, and nowhere else. */
  ghost predicate Placed(cells: map<Cell, seq<nat>>, positions: seq<Point>, size: real)
    requires size > 0.0
  {
    && Separate(cells)
    && (forall c, i: nat {:trigger i in cells[c]} :: c in cells && i in cells[c] ==>
        i < |positions| && CellOf(positions[i], size) == c)
    && (forall i: nat :: i < |positions| ==> i in Bucket(cells, CellOf(positions[i], size)))
  }

  class SpatialGrid {
    const cellSize: real
    var cells: map<Cell, seq<nat>>
    var itemCount: nat

    constructor (cellSize: real)
      ensures this.cellSize == cellSize && cells == map[] && itemCount == 0
    {
      this.cellSize := cellSize;
      cells, itemCount := map[], 0;
    }

    ghost predicate Indexes(positions: seq<Point>)
      reads this
      requires cellSize > 0.0
    {
      itemCount == |positions| && Placed(cells, positions, cellSize)
    }

    method Insert(index: nat, pos: Point)
      requires cellSize > 0.0
      modifies this
      ensures cells == old(cells)[CellOf(pos, cellSize) := Bucket(old(cells), CellOf(pos, cellSize)) + [index]]
      ensures itemCount == old(itemCount) + 1
    {
      var cell := CellOf(pos, cellSize);
      if cell !in cells {
        cells := cells[cell := []];
      }
      cells := cells[cell := cells[cell] + [index]];
      itemCount := itemCount + 1;
    }

    /** The indices stored in the block of cells around `pos`. */
    method QueryRadius(pos: Point, radius: real) returns (r: seq<nat>)
      requires cellSize > 0.0
      ensures var c, k := CellOf(pos, cellSize), Ceil(radius / cellSize);
              Collects(cells, Cell(c.x - k, c.y - k, c.z - k), Cell(c.x + k, c.y + k, c.z + k), r)
    {
      var cell := CellOf(pos, cellSize);
      var k := Ceil(radius / cellSize);
      r := CollectBox(cells, Cell(cell.x - k, cell.y - k, cell.z - k), Cell(cell.x + k, cell.y + k, cell.z + k));
    }
  }

  method BuildSpatialGrid(positions: seq<Point>, cellSize: real) returns (grid: SpatialGrid)
    requires cellSize > 0.0
    ensures fresh(grid) && grid.cellSize == cellSize && grid.Indexes(positions)
  {
    grid := new SpatialGrid(cellSize);
    assert positions[..0] == [];
    for i := 0 to |positions|
      invariant fresh(grid) && grid.cellSize == cellSize && grid.Indexes(positions[..i])
    {
      ghost var before := grid.cells;
      grid.Insert(i, positions[i]);
      InsertIndexes(before, positions[..i], positions[i], cellSize);
      assert positions[..i + 1] == positions[..i] + [positions[i]];
    }
    assert positions[..|positions|] == positions;
  }

  lemma InsertIndexes(cells: map<Cell, seq<nat>>, positions: seq<Point>, p: Point, size: real)
    requires size > 0.0 && Placed(cells, positions, size)
    ensures Placed(cells[CellOf(p, size) := Bucket(cells, CellOf(p, size)) + [|positions|]], positions + [p], size)
  {
    var c, n := CellOf(p, size), |positions|;
    var b := Bucket(cells, c) + [n];
    var cells' := cells[c := b];
    var positions' := positions + [p];
    assert forall d :: d in cells ==> n !in cells[d];
    NoDupConcat(Bucket(cells, c), [n]);
    assert Separate(cells');
    forall i: nat | i < |positions'| ensures i in Bucket(cells', CellOf(positions'[i], size)) {
      if i < n { assert i in Bucket(cells, CellOf(positions[i], size)); }
    }
  }

  // ---------------------------------------------------------------------------------------
  // Completeness

  /** Two numbers at most `r` apart have floors at most `ceil(r)` apart. */
  lemma FloorsClose(a: real, b: real, r: real)
    requires -r <= a - b <= r
    ensures -Ceil(r) <= a.Floor - b.Floor <= Ceil(r)
  {
  }

  lemma ScaledFloorsClose(p: real, q: real, radius: real, size: real)
    requires size > 0.0 && -radius <= p - q <= radius
    ensures var k := Ceil(radius / size);
            -k <= (p / size).Floor - (q / size).Floor <= k
  {
    var a, b, r := p / size, q / size, radius / size;
    assert a * size == p && b * size == q && r * size == radius;
    assert (a - b) * size == p - q && (-r) * size == -radius;
    ScaleCompare(a - b, r, size);
    ScaleCompare(-r, a - b, size);
    FloorsClose(a, b, r);
  }

  lemma AxisBound(d: real, rest: real, radius: real)
    requires radius >= 0.0 && rest >= 0.0 && d * d + rest <= radius * radius
    ensures -radius <= d <= radius
  {
    assert d * d - radius * radius == (d - radius) * (d + radius);
    if d > radius {
      ProductPositive(d - radius, d + radius);
    }
    if d < -radius {
      ProductPositive(-d - radius, -d + radius);
    }
  }

  lemma SquareNonNegative(d: real)
    ensures d * d >= 0.0
  {
    if d < 0.0 { assert d * d == (-d) * (-d); }
  }

  lemma AllAxesBound(dx: real, dy: real, dz: real, radius: real)
    requires radius >= 0.0 && dx * dx + dy * dy + dz * dz <= radius * radius
    ensures -radius <= dx <= radius && -radius <= dy <= radius && -radius <= dz <= radius
  {
    var x, y, z := dx * dx, dy * dy, dz * dz;
    SquareNonNegative(dx);
    SquareNonNegative(dy);
    SquareNonNegative(dz);
    AxisBound(dx, y + z, radius);
    AxisBound(dy, x + z, radius);
    AxisBound(dz, x + y, radius);
  }

  lemma WithinAxes(p: Point, q: Point, radius: real)
    requires radius >= 0.0 && Within(p, q, radius)
    ensures -radius <= q.x - p.x <= radius && -radius <= q.y - p.y <= radius && -radius <= q.z - p.z <= radius
  {
    AllAxesBound(p.x - q.x, p.y - q.y, p.z - q.z, radius);
  }

  /** Every point within the radius lies in one of the cells that `QueryRadius` visits. */
  lemma NearbyCell(p: Point, q: Point, radius: real, size: real)
    requires size > 0.0 && radius >= 0.0 && Within(p, q, radius)
    ensures var c, k := CellOf(p, size), Ceil(radius / size);
            InBox(CellOf(q, size), Cell(c.x - k, c.y - k, c.z - k), Cell(c.x + k, c.y + k, c.z + k))
  {
    hide Within;
    WithinAxes(p, q, radius);
    ScaledFloorsClose(q.x, p.x, radius, size);
    ScaledFloorsClose(q.y, p.y, radius, size);
    ScaledFloorsClose(q.z, p.z, radius, size);
  }

  /** Floors at most `k` apart mean that the numbers are less than `(k + 1) * size` apart. */
  lemma AxisSpread(p: real, q: real, k: int, size: real)
    requires size > 0.0 && -k <= (p / size).Floor - (q / size).Floor <= k
    ensures -((k + 1) as real * size) < p - q < (k + 1) as real * size
  {
    var a, b := p / size, q / size;
    assert a * size == p && b * size == q;
    assert (a - b) * size == p - q;
    var w := (k + 1) as real;
    assert -w < a - b < w;
    assert (w - (a - b)) * size > 0.0;
    assert ((a - b) + w) * size > 0.0;
  }

  /** On a built grid, a query returns each index at most once and includes every index the
      linear scan returns; no candidate is further away than the visited block allows. */
  method Candidates(grid: SpatialGrid, positions: seq<Point>, pos: Point, radius: real) returns (r: seq<nat>)
    requires grid.cellSize > 0.0 && grid.Indexes(positions) && radius >= 0.0
    ensures NoDup(r)
    ensures forall i: nat :: i in RadiusSearch(pos, positions, radius) ==> i in r
    ensures forall i: nat :: i in r ==>
              i < |positions| && Near(positions[i], pos, Ceil(radius / grid.cellSize), grid.cellSize)
  {
    r := grid.QueryRadius(pos, radius);
    ghost var c, k := CellOf(pos, grid.cellSize), Ceil(radius / grid.cellSize);
    ghost var lo, hi := Cell(c.x - k, c.y - k, c.z - k), Cell(c.x + k, c.y + k, c.z + k);
    hide RadiusSearch, CellOf;
    CandidatesComplete(grid.cells, positions, pos, radius, grid.cellSize, lo, hi, r);
    CandidatesNear(grid.cells, positions, pos, k, grid.cellSize, lo, hi, r);
  }

  lemma CandidatesComplete(cells: map<Cell, seq<nat>>, positions: seq<Point>, pos: Point, radius: real, size: real,
                           lo: Cell, hi: Cell, r: seq<nat>)
    requires size > 0.0 && radius >= 0.0 && Placed(cells, positions, size) && Collects(cells, lo, hi, r)
    requires var c, k := CellOf(pos, size), Ceil(radius / size);
             lo == Cell(c.x - k, c.y - k, c.z - k) && hi == Cell(c.x + k, c.y + k, c.z + k)
    ensures forall i: nat :: i in RadiusSearch(pos, positions, radius) ==> i in r
  {
    forall i: nat | i in RadiusSearch(pos, positions, radius) ensures i in r {
      NearbyCell(pos, positions[i], radius, size);
      assert i in Bucket(cells, CellOf(positions[i], size));
    }
  }

  lemma CandidatesNear(cells: map<Cell, seq<nat>>, positions: seq<Point>, pos: Point, k: int, size: real,
                       lo: Cell, hi: Cell, r: seq<nat>)
    requires size > 0.0 && Placed(cells, positions, size) && Collects(cells, lo, hi, r)
    requires var c := CellOf(pos, size); lo == Cell(c.x - k, c.y - k, c.z - k) && hi == Cell(c.x + k, c.y + k, c.z + k)
    ensures forall i: nat :: i in r ==> i < |positions| && Near(positions[i], pos, k, size)
  {
    forall i: nat | i in r ensures i < |positions| && Near(positions[i], pos, k, size) {
      var c :| c in cells && InBox(c, lo, hi) && i in cells[c];
      NearFromCells(positions[i], pos, k, size);
    }
  }

  /** Less than `k + 1` cell sizes apart on each axis. */
  predicate Near(p: Point, q: Point, k: int, size: real) {
    var w := (k + 1) as real * size;
    -w < p.x - q.x < w && -w < p.y - q.y < w && -w < p.z - q.z < w
  }

  lemma NearFromCells(p: Point, q: Point, k: int, size: real)
    requires size > 0.0
    requires var c := CellOf(q, size); InBox(CellOf(p, size), Cell(c.x - k, c.y - k, c.z - k),
              Cell(c.x + k, c.y + k, c.z + k))
    ensures Near(p, q, k, size)
  {
    AxisSpread(p.x, q.x, k, size);
    AxisSpread(p.y, q.y, k, size);
    AxisSpread(p.z, q.z, k, size);
  }

  /** Querying the grid and filtering by distance finds exactly what the linear scan finds. */
  method SearchWithGrid(positions: seq<Point>, cellSize: real, pos: Point, radius: real) returns (r: seq<nat>)
    requires cellSize > 0.0 && radius >= 0.0
    ensures multiset(r) == multiset(RadiusSearch(pos, positions, radius))
  {
    var grid := BuildSpatialGrid(positions, cellSize);
    var found := Candidates(grid, positions, pos, radius);
    r := [];
    for n := 0 to |found|
      invariant NoDup(r)
      invariant forall i: nat :: i in r <==> i in found[..n] && i < |positions| && Within(pos, positions[i], radius)
    {
      assert found[n] in found && found[n] !in found[..n];
      if Within(pos, positions[found[n]], radius) {
        r := r + [found[n]];
      }
    }
    SameElements(r, RadiusSearch(pos, positions, radius));
  }

  lemma SameElements(a: seq<nat>, b: seq<nat>)
    requires NoDup(a) && NoDup(b) && forall i: nat :: i in a <==> i in b
    ensures multiset(a) == multiset(b)
  {
    NoDupOccurs(a);
    NoDupOccurs(b);
    forall i ensures multiset(a)[i] == multiset(b)[i] {
      assert Occurs(a, i) <= 1 && Occurs(b, i) <= 1;
      assert i in a <==> i in multiset(a);
      assert i in b <==> i in multiset(b);
    }
  }
}
