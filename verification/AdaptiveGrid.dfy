/** The adaptive hash grid, compared with a plain map from agents to positions. Despite its cell
    size, the grid rounds positions down to whole coordinates. */
module AdaptiveGrid {
  import opened Prelude
  import opened Cells
  import S = SpatialGrid

  type AgentId = nat

  function CoordOf(p: Point): Cell {
    Cell(p.x.Floor, p.y.Floor, p.z.Floor)
  }

  /** `swap_remove`: the last element takes the place of the removed one. */
  function SwapRemove(s: seq<AgentId>, i: nat): (r: seq<AgentId>)
    requires i < |s|
    ensures multiset(r) == multiset(s) - multiset{s[i]}
    ensures |r| == |s| - 1
  {
    var n := |s| - 1;
    assert s == s[..n] + [s[n]];
    if i == n then s[..n]
    else
      assert s[..n] == s[..i] + [s[i]] + s[i + 1..n];
      assert s[..n][i := s[n]] == s[..i] + [s[n]] + s[i + 1..n];
      s[..n][i := s[n]]
  }

  /** The cells hold exactly the agents of `where`, each in the cell of its position. */
  ghost predicate Tracks(cells: map<Cell, seq<AgentId>>, where: map<AgentId, Point>) {
    && (forall c :: c in cells ==> cells[c] != [] && NoDup(cells[c]))
    && (forall c, a: AgentId {:trigger a in cells[c]} :: c in cells && a in cells[c] ==>
        a in where && CoordOf(where[a]) == c)
    && (forall a: AgentId :: a in where ==> a in Bucket(cells, CoordOf(where[a])))
  }

  /** `after` is `before` with one occurrence of the agent gone from cell `coord`; a cell that
      becomes empty goes away. */
  ghost predicate TakenOut(before: map<Cell, seq<AgentId>>, after: map<Cell, seq<AgentId>>, agent: AgentId,
                           coord: Cell) {
    && agent in Bucket(before, coord)
    && (forall c :: c != coord ==> (c in after <==> c in before) && Bucket(after, c) == Bucket(before, c))
    && multiset(Bucket(after, coord)) == multiset(Bucket(before, coord)) - multiset{agent}
    && (coord in after <==> Bucket(after, coord) != [])
  }

  function WithAgent(cells: map<Cell, seq<AgentId>>, agent: AgentId, coord: Cell): map<Cell, seq<AgentId>> {
    cells[coord := Bucket(cells, coord) + [agent]]
  }

  lemma InsertTracks(cells: map<Cell, seq<AgentId>>, where: map<AgentId, Point>, agent: AgentId, p: Point)
    requires Tracks(cells, where) && agent !in where
    ensures Tracks(WithAgent(cells, agent, CoordOf(p)), where[agent := p])
  {
    var coord := CoordOf(p);
    var cells' := WithAgent(cells, agent, coord);
    assert agent !in Bucket(cells, coord);
    NoDupConcat(Bucket(cells, coord), [agent]);
    var where' := where[agent := p];
    forall a: AgentId | a in where' ensures a in Bucket(cells', CoordOf(where'[a])) {
      if a != agent { assert a in Bucket(cells, CoordOf(where[a])); }
    }
  }

  lemma RemoveTracks(cells: map<Cell, seq<AgentId>>, after: map<Cell, seq<AgentId>>, where: map<AgentId, Point>,
                     agent: AgentId)
    requires Tracks(cells, where) && agent in where && TakenOut(cells, after, agent, CoordOf(where[agent]))
    ensures Tracks(after, where - {agent})
  {
    var coord := CoordOf(where[agent]);
    var was, now := Bucket(cells, coord), Bucket(after, coord);
    NoDupOccurs(was);
    NoDupOccurs(now);
    assert forall a: AgentId :: Occurs(now, a) <= Occurs(was, a);
    forall a: AgentId ensures a in now <==> a in was && a != agent {
      assert Occurs(was, a) <= 1;
      assert a in now <==> a in multiset(now);
      assert a in was <==> a in multiset(was);
    }
    forall c | c in after ensures after[c] != [] && NoDup(after[c]) {
      if c != coord { assert c in cells && Bucket(after, c) == Bucket(cells, c); }
    }
    forall c, a: AgentId {:trigger a in after[c]} | c in after && a in after[c]
      ensures a in where - {agent} && CoordOf(where[a]) == c
    {
      if c != coord { assert c in cells && Bucket(after, c) == Bucket(cells, c); }
    }
    forall a: AgentId | a in where - {agent} ensures a in Bucket(after, CoordOf(where[a])) {
      assert a in Bucket(cells, CoordOf(where[a]));
    }
  }

  lemma TrackedIsPresent(cells: map<Cell, seq<AgentId>>, where: map<AgentId, Point>, agent: AgentId)
    requires Tracks(cells, where) && agent in where
    ensures agent in Bucket(cells, CoordOf(where[agent]))
  {
  }

  lemma DropOne(cells: map<Cell, seq<AgentId>>, coord: Cell, i: nat)
    requires coord in cells && i < |cells[coord]|
    ensures var rest := SwapRemove(cells[coord], i);
            var after := if rest == [] then cells[coord := rest] - {coord} else cells[coord := rest];
            TakenOut(cells, after, cells[coord][i], coord) && Stored(after) == Stored(cells) - 1
  {
    var rest := SwapRemove(cells[coord], i);
    StoredUpdate(cells, coord, rest);
    if rest == [] {
      StoredAny(cells[coord := rest], coord);
    }
  }

  class AdaptiveHashGrid {
    var cells: map<Cell, seq<AgentId>>
    const cellSize: real
    var totalInsertions: nat
    var totalRemovals: nat
    var totalQueries: nat

    /** Every insertion since the last clear is still stored or was removed. */
    ghost predicate Valid()
      reads this
    {
      Stored(cells) + totalRemovals == totalInsertions
    }

    constructor (cellSize: real)
      ensures Valid() && Tracks(cells, map[]) && cells == map[] && totalInsertions == totalRemovals == 0
    {
      this.cellSize := cellSize;
      cells := map[];
      totalInsertions, totalRemovals, totalQueries := 0, 0, 0;
    }

    method Insert(agent: AgentId, position: Point)
      requires Valid()
      modifies this`cells, this`totalInsertions
      ensures Valid()
      ensures cells == WithAgent(old(cells), agent, CoordOf(position))
      ensures totalInsertions == old(totalInsertions) + 1
    {
      var coord := CoordOf(position);
      if coord !in cells {
        cells := cells[coord := []];
      }
      cells := cells[coord := cells[coord] + [agent]];
      totalInsertions := totalInsertions + 1;
      StoredUpdate(old(cells), coord, Bucket(old(cells), coord) + [agent]);
      assert cells == WithAgent(old(cells), agent, coord);
    }

    /** Takes one occurrence of the agent out of the cell of `position`, if there is one; a cell
        that becomes empty goes away. */
    method Remove(agent: AgentId, position: Point) returns (found: bool)
      requires Valid()
      modifies this`cells, this`totalRemovals
      ensures Valid()
      ensures found <==> agent in Bucket(old(cells), CoordOf(position))
      ensures !found ==> cells == old(cells) && totalRemovals == old(totalRemovals)
      ensures found ==> TakenOut(old(cells), cells, agent, CoordOf(position)) && totalRemovals == old(totalRemovals) + 1
    {
      var coord := CoordOf(position);
      if coord !in cells || agent !in cells[coord] {
        return false;
      }
      var i: nat :| i < |cells[coord]| && cells[coord][i] == agent;
      var rest := SwapRemove(cells[coord], i);
      DropOne(cells, coord, i);
      totalRemovals := totalRemovals + 1;
      cells := if rest == [] then cells[coord := rest] - {coord} else cells[coord := rest];
      return true;
    }

    /** Remove from the old position, insert at the new one. */
    method Update(agent: AgentId, oldPos: Point, newPos: Point)
      requires Valid()
      modifies this`cells, this`totalInsertions, this`totalRemovals
      ensures Valid()
      ensures forall where: map<AgentId, Point> :: Tracks(old(cells), where) && agent in where && where[agent] == oldPos
                ==> Tracks(cells, where[agent := newPos])
    {
      hide Tracks, TakenOut;
      ghost var before := cells;
      var found := Remove(agent, oldPos);
      ghost var between := cells;
      Insert(agent, newPos);
      forall where: map<AgentId, Point> | Tracks(before, where) && agent in where && where[agent] == oldPos
        ensures Tracks(cells, where[agent := newPos])
      {
        TrackedIsPresent(before, where, agent);
        RemoveTracks(before, between, where, agent);
        InsertTracks(between, where - {agent}, agent, newPos);
        assert (where - {agent})[agent := newPos] == where[agent := newPos];
      }
    }

    method Clear()
      modifies this`cells, this`totalInsertions, this`totalRemovals, this`totalQueries
      ensures Valid() && cells == map[] && totalInsertions == totalRemovals == totalQueries == 0
    {
      cells := map[];
      totalInsertions, totalRemovals, totalQueries := 0, 0, 0;
    }

    /** All agents in the cells touched by the box with corners `min` and `max`. */
    method QueryRegion(min: Point, max: Point) returns (r: seq<AgentId>)
      modifies this`totalQueries
      ensures totalQueries == old(totalQueries) + 1
      ensures Collects(cells, CoordOf(min), CoordOf(max), r)
    {
      r := CollectBox(cells, CoordOf(min), CoordOf(max));
      totalQueries := totalQueries + 1;
    }

    /** All agents in the cells around `center`; only here the cell size is used. */
    method QueryRadius(center: Point, radius: real) returns (r: seq<AgentId>)
      requires cellSize > 0.0
      modifies this`totalQueries
      ensures totalQueries == old(totalQueries) + 1
      ensures Collects(cells, Around(center, -Reach(radius, cellSize)), Around(center, Reach(radius, cellSize)), r)
    {
      var k := Reach(radius, cellSize);
      r := CollectBox(cells, Around(center, -k), Around(center, k));
      totalQueries := totalQueries + 1;
    }

    /** The total length of all cells, which is what was inserted and not removed. */
    method AgentCount() returns (n: nat)
      requires Valid()
      ensures n == totalInsertions - totalRemovals
      ensures forall where :: Tracks(cells, where) ==> n == |where|
    {
      n := 0;
      var rest := cells;
      while rest != map[]
        invariant n + Stored(rest) == Stored(cells)
        decreases |rest|
      {
        var c :| c in rest;
        StoredAny(rest, c);
        n := n + |rest[c]|;
        rest := rest - {c};
      }
      forall where | Tracks(cells, where) ensures n == |where| { StoredTracks(cells, where); }
    }
  }

  /** A grid that tracks `where` stores as many agents as `where` has. */
  lemma StoredTracks(cells: map<Cell, seq<AgentId>>, where: map<AgentId, Point>)
    requires Tracks(cells, where)
    ensures Stored(cells) == |where|
  {
    StoredDistinct(cells);
    assert StoredItems(cells) == where.Keys by {
      forall a: AgentId ensures a in StoredItems(cells) <==> a in where {
        if a in where { assert a in Bucket(cells, CoordOf(where[a])); }
      }
    }
    assert |where| == |where.Keys|;
  }

  predicate InRegion(p: Point, min: Point, max: Point) {
    min.x <= p.x <= max.x && min.y <= p.y <= max.y && min.z <= p.z <= max.z
  }

  /** A region query on a grid that tracks `where` returns each agent at most once, every agent
      inside the region, and only agents whose cell the region touches. */
  lemma RegionAgrees(cells: map<Cell, seq<AgentId>>, where: map<AgentId, Point>, min: Point, max: Point,
                     r: seq<AgentId>)
    requires Tracks(cells, where) && Collects(cells, CoordOf(min), CoordOf(max), r)
    ensures NoDup(r)
    ensures forall a: AgentId :: a in where && InRegion(where[a], min, max) ==> a in r
    ensures forall a: AgentId :: a in r <==> a in where && InBox(CoordOf(where[a]), CoordOf(min), CoordOf(max))
  {
  }

  // ---------------------------------------------------------------------------------------
  // The radius query

  /** How many cells the radius query looks in each direction. */
  function Reach(radius: real, size: real): int
    requires size > 0.0
  {
    S.Ceil(radius / size)
  }

  function Around(center: Point, k: int): Cell {
    var c := CoordOf(center);
    Cell(c.x + k, c.y + k, c.z + k)
  }

  /** The query visits the cell of every tracked position within the radius. */
  ghost predicate FindsAll(where: map<AgentId, Point>, center: Point, radius: real, size: real)
    requires size > 0.0
  {
    forall a: AgentId :: a in where && S.Within(center, where[a], radius) ==>
      InBox(CoordOf(where[a]), Around(center, -Reach(radius, size)), Around(center, Reach(radius, size)))
  }

  /** On a grid that tracks `where` the radius query returns exactly the agents of the visited
      cells, each once, and so every agent within the radius exactly when `FindsAll` holds. */
  lemma RadiusAgrees(cells: map<Cell, seq<AgentId>>, where: map<AgentId, Point>, center: Point, radius: real,
                     size: real, r: seq<AgentId>)
    requires size > 0.0 && Tracks(cells, where)
    requires Collects(cells, Around(center, -Reach(radius, size)), Around(center, Reach(radius, size)), r)
    ensures NoDup(r)
    ensures (forall a: AgentId :: a in where && S.Within(center, where[a], radius) ==> a in r)
       <==> FindsAll(where, center, radius, size)
  {
  }

  lemma ReachSuffices(where: map<AgentId, Point>, center: Point, radius: real, size: real)
    requires size > 0.0 && radius >= 0.0 && S.Ceil(radius) <= Reach(radius, size)
    ensures FindsAll(where, center, radius, size)
  {
    hide S.Within, S.Ceil;
    forall a: AgentId | a in where && S.Within(center, where[a], radius)
      ensures InBox(CoordOf(where[a]), Around(center, -Reach(radius, size)), Around(center, Reach(radius, size)))
    {
      var p := where[a];
      S.WithinAxes(center, p, radius);
      S.FloorsClose(p.x, center.x, radius);
      S.FloorsClose(p.y, center.y, radius);
      S.FloorsClose(p.z, center.z, radius);
    }
  }

  /** Two points exactly the radius apart, the rounded-up radius apart in cells. */
  lemma ReachTooShort(radius: real, size: real) returns (where: map<AgentId, Point>, center: Point)
    requires size > 0.0 && radius >= 0.0 && S.Ceil(radius) > Reach(radius, size)
    ensures !FindsAll(where, center, radius, size)
  {
    var n := S.Ceil(radius);
    assert Reach(radius, size) >= 0;
    center := Point(n as real - radius, 0.0, 0.0);
    where := map[0 := Point(n as real, 0.0, 0.0)];
    assert center.x.Floor == 0 && where[0].x.Floor == n;
    assert S.Within(center, where[0], radius) by {
      var d := center.x - where[0].x;
      assert d == -radius && d * d == radius * radius;
      assert S.DistanceSquared(center, where[0]) == d * d;
    }
    assert 0 in where;
  }

  /** For a given radius and cell size the radius query is complete, for all positions, exactly
      when dividing by the cell size does not lower the rounded-up radius. */
  lemma RadiusCompleteIff(radius: real, size: real)
    requires size > 0.0 && radius >= 0.0
    ensures (forall where, center :: FindsAll(where, center, radius, size))
       <==> S.Ceil(radius) <= S.Ceil(radius / size)
  {
    hide FindsAll;
    if S.Ceil(radius) <= S.Ceil(radius / size) {
      forall where, center ensures FindsAll(where, center, radius, size) {
        ReachSuffices(where, center, radius, size);
      }
    } else {
      var where, center := ReachTooShort(radius, size);
    }
  }

  // ---------------------------------------------------------------------------------------
  // Histories

  datatype Op = Insert(agent: AgentId, at: Point) | Remove(agent: AgentId) | Update(agent: AgentId, to: Point)

  /** What the plain position map does. */
  function Plain(where: map<AgentId, Point>, op: Op): map<AgentId, Point> {
    match op
    case Insert(a, p) => where[a := p]
    case Remove(a) => where - {a}
    case Update(a, p) => where[a := p]
  }

  function PlainAll(where: map<AgentId, Point>, ops: seq<Op>): map<AgentId, Point>
    decreases |ops|
  {
    if ops == [] then where else Plain(PlainAll(where, ops[..|ops| - 1]), ops[|ops| - 1])
  }

  /** Agents are inserted while absent, and removed or updated while present. */
  predicate Legal(where: map<AgentId, Point>, ops: seq<Op>) {
    forall k :: 0 <= k < |ops| ==> (ops[k].Insert? <==> ops[k].agent !in PlainAll(where, ops[..k]))
  }

  /** Over any history that passes true old positions, the grid agrees with the plain map: each
      agent sits in exactly one cell, no cell is empty, and the counters account for every agent. */
  method Replay(grid: AdaptiveHashGrid, ops: seq<Op>) returns (where: map<AgentId, Point>)
    requires grid.Valid() && grid.cells == map[] && Legal(map[], ops)
    modifies grid
    ensures grid.Valid() && where == PlainAll(map[], ops) && Tracks(grid.cells, where)
  {
    where := map[];
    for k := 0 to |ops|
      invariant grid.Valid() && where == PlainAll(map[], ops[..k]) && Tracks(grid.cells, where)
    {
      var op := ops[k];
      assert ops[..k + 1][..k] == ops[..k];
      ghost var before := grid.cells;
      match op {
        case Insert(a, p) =>
          grid.Insert(a, p);
          InsertTracks(before, where, a, p);
        case Remove(a) =>
          TrackedIsPresent(before, where, a);
          var _ := grid.Remove(a, where[a]);
          RemoveTracks(before, grid.cells, where, a);
        case Update(a, p) =>
          grid.Update(a, where[a], p);
      }
      where := Plain(where, op);
    }
    assert ops[..|ops|] == ops;
  }
}
