/** The spatial hash of `src/SpatialDictionary.py`: the world is cut into
    square cells numbered row by row, and every object is filed under the
    cells its bounding volume covers, so that objects that may touch are
    found by looking only at shared cells. Objects are compared by
    identity; an `Obj` carries its identity and its bounding volume. */
module Spatial {
  import opened Geometry

  /** A game object: its identity and its bounding volume. */
  datatype Obj = Obj(id: nat, volume: Rect)

  /** The cell layout: the side of a cell and the number of columns. */
  datatype Grid = Grid(cellSize: int, columns: int)

  datatype SpatialDict = SpatialDict(grid: Grid, width: int, height: int, entries: map<int, set<Obj>>)

  /** `SpatialDictionary(cell_size, width, height)`: as many columns as
      whole cells fit across the width, and no entries. A zero cell size
      is a division by zero and is excluded. */
  function New(cellSize: int, width: int, height: int): (sd: SpatialDict)
    requires cellSize != 0
    ensures sd.grid.cellSize == cellSize && sd.entries == map[]
    ensures cellSize > 0 ==> sd.grid.columns * cellSize <= width < (sd.grid.columns + 1) * cellSize
  {
    SpatialDict(Grid(cellSize, FloorDiv(width, cellSize)), width, height, map[])
  }

  /** `_hash(x, y)`: the number of the cell holding point (x, y). */
  function Hash(g: Grid, x: int, y: int): int
    requires g.cellSize != 0
  {
    FloorDiv(x, g.cellSize) + FloorDiv(y, g.cellSize) * g.columns
  }

  /** The cells of the four corners (x, y), (x + w, y), (x, y + h) and
      (x + w, y + h), as `_get_covered_cells` computes them. */
  function CornerCells(g: Grid, r: Rect): (cs: set<int>)
    requires g.cellSize != 0
    ensures Hash(g, r.x, r.y) in cs && 1 <= |cs| <= 4
  {
    {Hash(g, r.x, r.y), Hash(g, r.Right(), r.y), Hash(g, r.x, r.Bottom()), Hash(g, r.Right(), r.Bottom())}
  }

  /** The number of the cell in column `cx` and row `cy`. */
  function Cell(g: Grid, cx: int, cy: int): int
  {
    cx + cy * g.columns
  }

  /** The first and last column and row the corners of `r` fall in. */
  function ColLo(g: Grid, r: Rect): int
    requires g.cellSize != 0
  {
    Min(FloorDiv(r.x, g.cellSize), FloorDiv(r.Right(), g.cellSize))
  }

  function ColHi(g: Grid, r: Rect): int
    requires g.cellSize != 0
  {
    Max(FloorDiv(r.x, g.cellSize), FloorDiv(r.Right(), g.cellSize))
  }

  function RowLo(g: Grid, r: Rect): int
    requires g.cellSize != 0
  {
    Min(FloorDiv(r.y, g.cellSize), FloorDiv(r.Bottom(), g.cellSize))
  }

  function RowHi(g: Grid, r: Rect): int
    requires g.cellSize != 0
  {
    Max(FloorDiv(r.y, g.cellSize), FloorDiv(r.Bottom(), g.cellSize))
  }

  /** Every cell of the block spanned by the corners' columns and rows. */
  function Covered(g: Grid, r: Rect): set<int>
    requires g.cellSize != 0
  {
    set cx, cy | ColLo(g, r) <= cx <= ColHi(g, r) && RowLo(g, r) <= cy <= RowHi(g, r) :: Cell(g, cx, cy)
  }

  /** The cell of the top-left corner is covered. */
  lemma TopLeftCovered(g: Grid, r: Rect)
    requires g.cellSize != 0
    ensures Hash(g, r.x, r.y) in Covered(g, r)
  {
    var cx := FloorDiv(r.x, g.cellSize);
    var cy := FloorDiv(r.y, g.cellSize);
    assert ColLo(g, r) <= cx <= ColHi(g, r) && RowLo(g, r) <= cy <= RowHi(g, r);
    assert Hash(g, r.x, r.y) == Cell(g, cx, cy);
  }

  /** The cell of a point inside a rectangle is among the rectangle's
      covered cells. */
  lemma PointCellCovered(g: Grid, r: Rect, px: int, py: int)
    requires g.cellSize > 0
    requires Inside(r, px, py)
    ensures Hash(g, px, py) in Covered(g, r)
  {
    FloorDivMonotone(r.x, px, g.cellSize);
    FloorDivMonotone(px, r.Right(), g.cellSize);
    FloorDivMonotone(r.y, py, g.cellSize);
    FloorDivMonotone(py, r.Bottom(), g.cellSize);
    var cx := FloorDiv(px, g.cellSize);
    var cy := FloorDiv(py, g.cellSize);
    assert ColLo(g, r) <= cx <= ColHi(g, r) && RowLo(g, r) <= cy <= RowHi(g, r);
    assert Hash(g, px, py) == Cell(g, cx, cy);
  }

  /** Two colliding volumes of positive size share a covered cell,
      however large they are. */
  lemma CoveredComplete(g: Grid, a: Rect, b: Rect)
    requires g.cellSize > 0
    requires Positive(a) && Positive(b) && Collide(a, b)
    ensures Hash(g, Max(a.x, b.x), Max(a.y, b.y)) in Covered(g, a) * Covered(g, b)
  {
    PointCellCovered(g, a, Max(a.x, b.x), Max(a.y, b.y));
    PointCellCovered(g, b, Max(a.x, b.x), Max(a.y, b.y));
  }

  /** The corner cells are always covered cells. */
  lemma CornersCovered(g: Grid, r: Rect)
    requires g.cellSize != 0
    ensures CornerCells(g, r) <= Covered(g, r)
  {
    var c0 := FloorDiv(r.x, g.cellSize);
    var c1 := FloorDiv(r.Right(), g.cellSize);
    var r0 := FloorDiv(r.y, g.cellSize);
    var r1 := FloorDiv(r.Bottom(), g.cellSize);
    assert Hash(g, r.x, r.y) == Cell(g, c0, r0);
    assert Hash(g, r.Right(), r.y) == Cell(g, c1, r0);
    assert Hash(g, r.x, r.Bottom()) == Cell(g, c0, r1);
    assert Hash(g, r.Right(), r.Bottom()) == Cell(g, c1, r1);
  }

  /** Moving at most one cell size on reaches at most the next cell. */
  lemma NextCellAtMost(x: int, w: int, d: int)
    requires d > 0 && 0 <= w <= d
    ensures FloorDiv(x, d) <= FloorDiv(x + w, d) <= FloorDiv(x, d) + 1
  {
    FloorDivMonotone(x, x + w, d);
    var q := FloorDiv(x, d);
    var q' := FloorDiv(x + w, d);
    assert d * q' < d * (q + 2);
    ScaleCancel(d, q', q + 2);
  }

  /** Under the assumption the dictionary is written for, volumes no
      larger than a cell, the four corners already name every covered
      cell. */
  lemma CornersSufficeForSmallVolumes(g: Grid, r: Rect)
    requires g.cellSize > 0
    requires 0 <= r.w <= g.cellSize && 0 <= r.h <= g.cellSize
    ensures CornerCells(g, r) == Covered(g, r)
  {
    CornersCovered(g, r);
    var c0 := FloorDiv(r.x, g.cellSize);
    var c1 := FloorDiv(r.Right(), g.cellSize);
    var r0 := FloorDiv(r.y, g.cellSize);
    var r1 := FloorDiv(r.Bottom(), g.cellSize);
    NextCellAtMost(r.x, r.w, g.cellSize);
    NextCellAtMost(r.y, r.h, g.cellSize);
    forall cx, cy | ColLo(g, r) <= cx <= ColHi(g, r) && RowLo(g, r) <= cy <= RowHi(g, r)
      ensures Cell(g, cx, cy) in CornerCells(g, r)
    {
      assert cx == c0 || cx == c1;
      assert cy == r0 || cy == r1;
      assert Hash(g, r.x, r.y) == Cell(g, c0, r0);
      assert Hash(g, r.Right(), r.y) == Cell(g, c1, r0);
      assert Hash(g, r.x, r.Bottom()) == Cell(g, c0, r1);
      assert Hash(g, r.Right(), r.Bottom()) == Cell(g, c1, r1);
    }
  }

  /** Two overlapping volumes of the dictionary's own test layout (cells
      of 25 in a 100-wide world): the larger one is 30 by 45, more than a
      cell, and the smaller one sits in a cell between its corners. The
      corner cells of the two share nothing, so looking only at corners
      never pairs them; the covered block of the larger one holds the
      smaller one's cell. */
  lemma CornersMissOverlap()
    ensures New(25, 100, 100).grid == Grid(25, 4)
    ensures Collide(Rect(35, 35, 30, 45), Rect(60, 60, 10, 10))
    ensures CornerCells(Grid(25, 4), Rect(35, 35, 30, 45)) == {5, 6, 13, 14}
    ensures CornerCells(Grid(25, 4), Rect(60, 60, 10, 10)) == {10}
    ensures 10 in Covered(Grid(25, 4), Rect(35, 35, 30, 45))
  {
    var g := Grid(25, 4);
    assert FloorDiv(100, 25) == 4;
    assert FloorDiv(35, 25) == 1 && FloorDiv(65, 25) == 2 && FloorDiv(80, 25) == 3;
    assert FloorDiv(60, 25) == 2 && FloorDiv(70, 25) == 2;
    assert Hash(g, 35, 35) == 5 && Hash(g, 65, 35) == 6 && Hash(g, 35, 80) == 13 && Hash(g, 65, 80) == 14;
    assert Hash(g, 60, 60) == 10 && Hash(g, 70, 60) == 10 && Hash(g, 60, 70) == 10 && Hash(g, 70, 70) == 10;
    PointCellCovered(g, Rect(35, 35, 30, 45), 60, 60);
  }

  /** The objects filed under a cell; none for a cell never used. */
  function In(sd: SpatialDict, c: int): set<Obj>
  {
    if c in sd.entries then sd.entries[c] else {}
  }

  /** `add_obj`: the object is added to the set of every covered cell,
      creating the sets that are missing; other cells are untouched. */
  function AddObj(sd: SpatialDict, o: Obj): (r: SpatialDict)
    requires sd.grid.cellSize != 0
    ensures r.grid == sd.grid
    ensures r.entries.Keys == sd.entries.Keys + Covered(sd.grid, o.volume)
    ensures forall c :: c in Covered(sd.grid, o.volume) ==> In(r, c) == In(sd, c) + {o}
    ensures forall c :: c !in Covered(sd.grid, o.volume) ==> In(r, c) == In(sd, c)
  {
    var cells := Covered(sd.grid, o.volume);
    sd.(entries := map c | c in sd.entries.Keys + cells :: if c in cells then In(sd, c) + {o} else sd.entries[c])
  }

  /** `remove_obj`: the object is discarded from every covered cell that
      exists; no cell is created or deleted. */
  function RemoveObj(sd: SpatialDict, o: Obj): (r: SpatialDict)
    requires sd.grid.cellSize != 0
    ensures r.grid == sd.grid
    ensures r.entries.Keys == sd.entries.Keys
    ensures forall c :: c in Covered(sd.grid, o.volume) ==> In(r, c) == In(sd, c) - {o}
    ensures forall c :: c !in Covered(sd.grid, o.volume) ==> In(r, c) == In(sd, c)
  {
    var cells := Covered(sd.grid, o.volume);
    sd.(entries := map c | c in sd.entries :: if c in cells then sd.entries[c] - {o} else sd.entries[c])
  }

  /** `exists`: every covered cell exists and holds the object. */
  predicate Exists(sd: SpatialDict, o: Obj)
    requires sd.grid.cellSize != 0
  {
    forall c :: c in Covered(sd.grid, o.volume) ==> o in In(sd, c)
  }

  /** `get_nearby_objs`: the objects of the covered cells, other than the
      object itself. */
  function Nearby(sd: SpatialDict, o: Obj): (r: set<Obj>)
    requires sd.grid.cellSize != 0
    ensures forall p :: p in r <==> p != o && exists c :: c in Covered(sd.grid, o.volume) && p in In(sd, c)
  {
    (set c, p | c in Covered(sd.grid, o.volume) && c in sd.entries && p in sd.entries[c] :: p) - {o}
  }

  /** `clear`: no cells at all. */
  function Clear(sd: SpatialDict): (r: SpatialDict)
    ensures r.grid == sd.grid
    ensures forall c :: In(r, c) == {}
  {
    sd.(entries := map[])
  }

  /** After `add_obj` the object exists, and objects that existed still
      do. */
  lemma AddThenExists(sd: SpatialDict, o: Obj, p: Obj)
    requires sd.grid.cellSize != 0
    ensures Exists(AddObj(sd, o), o)
    ensures Exists(sd, p) ==> Exists(AddObj(sd, o), p)
  {
  }

  /** Adding an object twice is adding it once. */
  lemma AddTwiceIsAddOnce(sd: SpatialDict, o: Obj)
    requires sd.grid.cellSize != 0
    ensures AddObj(AddObj(sd, o), o) == AddObj(sd, o)
  {
    var once := AddObj(sd, o);
    var twice := AddObj(once, o);
    forall c | c in twice.entries
      ensures twice.entries[c] == once.entries[c]
    {
      assert In(twice, c) == In(once, c);
    }
    assert twice.entries == once.entries;
  }

  /** After `remove_obj` the object no longer exists. */
  lemma RemoveThenGone(sd: SpatialDict, o: Obj)
    requires sd.grid.cellSize != 0
    ensures !Exists(RemoveObj(sd, o), o)
  {
    TopLeftCovered(sd.grid, o.volume);
  }

  /** `remove_obj` keeps every other object where it was, and makes no
      object exist that did not. */
  lemma RemoveKeepsOthers(sd: SpatialDict, o: Obj, p: Obj)
    requires sd.grid.cellSize != 0
    requires p != o
    ensures Exists(RemoveObj(sd, o), p) <==> Exists(sd, p)
  {
    var r := RemoveObj(sd, o);
    if !Exists(sd, p) {
      var c :| c in Covered(sd.grid, p.volume) && p !in In(sd, c);
      assert p !in In(r, c);
    }
  }

  /** Removing an object the dictionary does not hold changes nothing. */
  lemma RemoveUntrackedIsNoop(sd: SpatialDict, o: Obj)
    requires sd.grid.cellSize != 0
    requires forall c :: c in sd.entries ==> o !in sd.entries[c]
    ensures RemoveObj(sd, o) == sd
  {
    var r := RemoveObj(sd, o);
    forall c | c in sd.entries
      ensures r.entries[c] == sd.entries[c]
    {
      assert In(r, c) == In(sd, c);
    }
    assert r.entries == sd.entries;
  }

  /** After `clear` nothing exists and nothing is nearby. */
  lemma ClearEmpties(sd: SpatialDict, o: Obj)
    requires sd.grid.cellSize != 0
    ensures !Exists(Clear(sd), o)
    ensures Nearby(Clear(sd), o) == {}
  {
    TopLeftCovered(sd.grid, o.volume);
  }

  /** `add_objs`: each object is added in turn; afterwards every object of
      the list exists, and so does every object that existed before. */
  method AddObjs(sd: SpatialDict, os: seq<Obj>) returns (r: SpatialDict)
    requires sd.grid.cellSize != 0
    ensures r.grid == sd.grid
    ensures forall i :: 0 <= i < |os| ==> Exists(r, os[i])
    ensures forall p :: Exists(sd, p) ==> Exists(r, p)
  {
    r := sd;
    var k := 0;
    while k < |os|
      invariant 0 <= k <= |os|
      invariant r.grid == sd.grid
      invariant forall i :: 0 <= i < k ==> Exists(r, os[i])
      invariant forall p :: Exists(sd, p) ==> Exists(r, p)
    {
      var next := AddObj(r, os[k]);
      forall p | Exists(r, p)
        ensures Exists(next, p)
      {
        AddThenExists(r, os[k], p);
      }
      AddThenExists(r, os[k], os[k]);
      r := next;
      k := k + 1;
    }
  }

  /** `remove_objs`: each object is removed in turn; afterwards no object
      of the list exists, and every other object is where it was. */
  method RemoveObjs(sd: SpatialDict, os: seq<Obj>) returns (r: SpatialDict)
    requires sd.grid.cellSize != 0
    ensures r.grid == sd.grid
    ensures forall i :: 0 <= i < |os| ==> !Exists(r, os[i])
    ensures forall p :: p !in os ==> (Exists(r, p) <==> Exists(sd, p))
  {
    r := sd;
    var k := 0;
    while k < |os|
      invariant 0 <= k <= |os|
      invariant r.grid == sd.grid
      invariant forall i :: 0 <= i < k ==> !Exists(r, os[i])
      invariant forall p :: p !in os ==> (Exists(r, p) <==> Exists(sd, p))
    {
      var next := RemoveObj(r, os[k]);
      RemoveThenGone(r, os[k]);
      forall i | 0 <= i < k && os[i] != os[k]
        ensures !Exists(next, os[i])
      {
        RemoveKeepsOthers(r, os[k], os[i]);
      }
      forall p | p !in os
        ensures Exists(next, p) <==> Exists(r, p)
      {
        RemoveKeepsOthers(r, os[k], p);
      }
      r := next;
      k := k + 1;
    }
  }
}
