/** Buckets of items keyed by integer cell coordinates: the common core of both spatial grids. */
module Cells {
  import opened Prelude

  datatype Point = Point(x: real, y: real, z: real)

  datatype Cell = Cell(x: int, y: int, z: int)

  /** `c` lies in the closed box with corners `lo` and `hi`. */
  predicate InBox(c: Cell, lo: Cell, hi: Cell) {
    lo.x <= c.x <= hi.x && lo.y <= c.y <= hi.y && lo.z <= c.z <= hi.z
  }

  function Bucket<T>(cells: map<Cell, seq<T>>, c: Cell): seq<T> {
    if c in cells then cells[c] else []
  }

  /** No item is stored twice, neither within a cell nor in two cells. */
  ghost predicate Separate<T>(cells: map<Cell, seq<T>>) {
    && (forall c :: c in cells ==> NoDup(cells[c]))
    && (forall c, d, x :: c in cells && d in cells && c != d && x in cells[c] ==> x !in cells[d])
  }

  /** `r` holds exactly the items of the cells in the box, each once if the cells are separate. */
  ghost predicate Collects<T>(cells: map<Cell, seq<T>>, lo: Cell, hi: Cell, r: seq<T>) {
    && (forall x :: x in r ==> exists c :: c in cells && InBox(c, lo, hi) && x in cells[c])
    && (forall c, x :: c in cells && InBox(c, lo, hi) && x in cells[c] ==> x in r)
    && (Separate(cells) ==> NoDup(r))
  }

  /** Two boxes side by side. */
  lemma CollectsJoin<T>(cells: map<Cell, seq<T>>, lo: Cell, mid1: Cell, mid2: Cell, hi: Cell, a: seq<T>, b: seq<T>)
    requires Collects(cells, lo, mid1, a) && Collects(cells, mid2, hi, b)
    requires forall c :: InBox(c, lo, hi) <==> InBox(c, lo, mid1) || InBox(c, mid2, hi)
    requires forall c :: !(InBox(c, lo, mid1) && InBox(c, mid2, hi))
    ensures Collects(cells, lo, hi, a + b)
  {
    forall x | x in a + b ensures exists c :: c in cells && InBox(c, lo, hi) && x in cells[c] {
      if x in a {
        var c :| c in cells && InBox(c, lo, mid1) && x in cells[c];
      } else {
        var c :| c in cells && InBox(c, mid2, hi) && x in cells[c];
      }
    }
    if Separate(cells) {
      forall x | x in a ensures x !in b {
        var c :| c in cells && InBox(c, lo, mid1) && x in cells[c];
      }
      NoDupConcat(a, b);
    }
  }

  /** The innermost loop of a box query: one column of cells. */
  method CollectColumn<T>(cells: map<Cell, seq<T>>, x: int, y: int, z0: int, z1: int) returns (r: seq<T>)
    ensures Collects(cells, Cell(x, y, z0), Cell(x, y, z1), r)
  {
    r := [];
    var z := z0;
    while z <= z1
      invariant z0 <= z && (z <= z1 + 1 || z == z0)
      invariant Collects(cells, Cell(x, y, z0), Cell(x, y, z - 1), r)
    {
      var c := Cell(x, y, z);
      CollectsJoin(cells, Cell(x, y, z0), Cell(x, y, z - 1), c, c, r, Bucket(cells, c));
      if c in cells {
        r := r + cells[c];
      }
      z := z + 1;
    }
  }

  method CollectPlane<T>(cells: map<Cell, seq<T>>, x: int, y0: int, y1: int, z0: int, z1: int) returns (r: seq<T>)
    ensures Collects(cells, Cell(x, y0, z0), Cell(x, y1, z1), r)
  {
    r := [];
    var y := y0;
    while y <= y1
      invariant y0 <= y && (y <= y1 + 1 || y == y0)
      invariant Collects(cells, Cell(x, y0, z0), Cell(x, y - 1, z1), r)
    {
      var col := CollectColumn(cells, x, y, z0, z1);
      CollectsJoin(cells, Cell(x, y0, z0), Cell(x, y - 1, z1), Cell(x, y, z0), Cell(x, y, z1), r, col);
      r := r + col;
      y := y + 1;
    }
  }

  /** Visits every cell of a box, x outermost, and gathers what is stored there. */
  method CollectBox<T>(cells: map<Cell, seq<T>>, lo: Cell, hi: Cell) returns (r: seq<T>)
    ensures Collects(cells, lo, hi, r)
  {
    r := [];
    var x := lo.x;
    while x <= hi.x
      invariant lo.x <= x && (x <= hi.x + 1 || x == lo.x)
      invariant Collects(cells, lo, Cell(x - 1, hi.y, hi.z), r)
    {
      var plane := CollectPlane(cells, x, lo.y, hi.y, lo.z, hi.z);
      CollectsJoin(cells, lo, Cell(x - 1, hi.y, hi.z), Cell(x, lo.y, lo.z), Cell(x, hi.y, hi.z), r, plane);
      r := r + plane;
      x := x + 1;
    }
  }

  /** Total number of stored items. */
  ghost function Stored<T>(cells: map<Cell, seq<T>>): nat
    decreases |cells|
  {
    if cells == map[] then 0
    else
      var c :| c in cells;
      |cells[c]| + Stored(cells - {c})
  }

  lemma {:induction false} StoredAny<T>(cells: map<Cell, seq<T>>, c: Cell)
    requires c in cells
    ensures Stored(cells) == |cells[c]| + Stored(cells - {c})
    decreases |cells|
  {
    assert cells != map[];
    var d :| d in cells && Stored(cells) == |cells[d]| + Stored(cells - {d});
    if c != d {
      StoredAny(cells - {d}, c);
      StoredAny(cells - {c}, d);
      assert cells - {d} - {c} == cells - {c} - {d};
    }
  }

  /** Replacing the contents of one cell changes the total by the difference. */
  lemma StoredUpdate<T>(cells: map<Cell, seq<T>>, c: Cell, b: seq<T>)
    ensures Stored(cells[c := b]) == Stored(cells) - |Bucket(cells, c)| + |b|
  {
    StoredAny(cells[c := b], c);
    assert cells[c := b] - {c} == cells - {c};
    if c in cells {
      StoredAny(cells, c);
    } else {
      assert cells - {c} == cells;
    }
  }

  /** All stored items. */
  ghost function StoredItems<T>(cells: map<Cell, seq<T>>): set<T> {
    set c, x | c in cells && x in cells[c] :: x
  }

  /** With nothing stored twice, the total is the number of different items. */
  lemma {:induction false} StoredDistinct<T>(cells: map<Cell, seq<T>>)
    requires Separate(cells)
    ensures Stored(cells) == |StoredItems(cells)|
    decreases |cells|
  {
    if cells == map[] {
      assert StoredItems(cells) == {};
    } else {
      var c :| c in cells;
      var rest := cells - {c};
      hide StoredItems, Elements;
      StoredAny(cells, c);
      ItemsOfCell(cells, c);
      StoredDistinct(rest);
      DistinctSize(cells[c]);
    }
  }

  lemma ItemsOfCell<T>(cells: map<Cell, seq<T>>, c: Cell)
    requires c in cells && Separate(cells)
    ensures StoredItems(cells) == StoredItems(cells - {c}) + Elements(cells[c])
    ensures StoredItems(cells - {c}) !! Elements(cells[c]) && Separate(cells - {c})
  {
    var rest := cells - {c};
    forall x ensures x in StoredItems(cells) <==> x in StoredItems(rest) || x in cells[c] {
      if d :| d in cells && x in cells[d] {
        assert d != c ==> d in rest;
      }
      if d :| d in rest && x in rest[d] {
        assert d in cells;
      }
    }
  }
}
