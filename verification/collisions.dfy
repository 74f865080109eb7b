/** The collision detector of `src/CollisionDetector.py`: a list of game
    objects filed in a spatial dictionary, and the set of unordered pairs
    of objects whose bounding volumes overlap. A pair is a two-element set
    (Python's `frozenset`), so a pair found from either member is reported
    once. */
module Collisions {
  import opened Options
  import opened Geometry
  import opened Spatial

  datatype Detector = Detector(objs: seq<Obj>, sd: SpatialDict)

  /** The constructor: a fresh dictionary holding every given object. */
  method New(objs: seq<Obj>, cellSize: int, width: int, height: int) returns (d: Detector)
    requires cellSize != 0
    ensures d.objs == objs && d.sd.grid == Spatial.New(cellSize, width, height).grid
    ensures forall i :: 0 <= i < |objs| ==> Exists(d.sd, objs[i])
  {
    var sd := AddObjs(Spatial.New(cellSize, width, height), objs);
    d := Detector(objs, sd);
  }

  /** `_get_set_of_collisions(target, objs)`: the pairs of the target with
      each of the objects whose volume overlaps the target's. */
  function PairsWith(target: Obj, objs: set<Obj>): (r: set<set<Obj>>)
    ensures forall o :: o in objs && Collide(target.volume, o.volume) ==> {target, o} in r
    ensures forall p :: p in r ==> target in p && exists o :: o in objs && p == {target, o} && Collide(target.volume, o.volume)
  {
    set o | o in objs && Collide(target.volume, o.volume) :: {target, o}
  }

  /** `get_all_collisions`, with the helper called as the method it is:
      the union over the listed objects of their pairs with the objects
      near them. */
  function AllCollisions(d: Detector): (r: set<set<Obj>>)
    requires d.sd.grid.cellSize != 0
    ensures |d.objs| == 0 ==> r == {}
  {
    set t, p | t in d.objs && p in PairsWith(t, Nearby(d.sd, t)) :: p
  }

  /** Every reported pair holds two distinct objects, one of them listed,
      that overlap and share a covered cell of the listed one. */
  lemma PairsAreSound(d: Detector, p: set<Obj>)
    requires d.sd.grid.cellSize != 0
    requires p in AllCollisions(d)
    ensures |p| == 2
    ensures exists a, b :: (p == {a, b} && a != b && a in d.objs
                            && Collide(a.volume, b.volume) && Collide(b.volume, a.volume)
                            && exists c :: c in Covered(d.sd.grid, a.volume) && b in In(d.sd, c))
  {
    var t :| t in d.objs && p in PairsWith(t, Nearby(d.sd, t));
    var o :| o in Nearby(d.sd, t) && p == {t, o} && Collide(t.volume, o.volume);
    CollideSymmetric(t.volume, o.volume);
    assert |p| == 2;
  }

  /** Every pair of distinct listed objects whose volumes of positive size
      overlap is reported, once the dictionary holds all listed objects,
      as the constructor leaves it. */
  lemma PairsAreComplete(d: Detector, i: nat, j: nat)
    requires d.sd.grid.cellSize > 0
    requires forall k :: 0 <= k < |d.objs| ==> Exists(d.sd, d.objs[k])
    requires i < |d.objs| && j < |d.objs| && d.objs[i] != d.objs[j]
    requires Positive(d.objs[i].volume) && Positive(d.objs[j].volume)
    requires Collide(d.objs[i].volume, d.objs[j].volume)
    ensures {d.objs[i], d.objs[j]} in AllCollisions(d)
  {
    var a, b := d.objs[i], d.objs[j];
    CoveredComplete(d.sd.grid, a.volume, b.volume);
    var c := Hash(d.sd.grid, Max(a.volume.x, b.volume.x), Max(a.volume.y, b.volume.y));
    assert b in In(d.sd, c);
    assert b in Nearby(d.sd, a);
    assert {a, b} in PairsWith(a, Nearby(d.sd, a));
  }

  /** `get_all_collisions` as written calls `_get_set_of_collisions`
      without `self`, a `NameError` the first time the loop body runs:
      `None` for any listed object, the empty set only for none. */
  function AllCollisionsAsWritten(d: Detector): (r: Option<set<set<Obj>>>)
    ensures r.Some? <==> |d.objs| == 0
    ensures r.Some? ==> r.value == {}
  {
    if |d.objs| == 0 then Some({}) else None
  }

  /** The written form and the intended one agree on an empty list, and
      the written one fails on any list the intended one answers. */
  lemma AsWrittenFailsWhereIntendedAnswers(d: Detector)
    requires d.sd.grid.cellSize != 0
    ensures |d.objs| == 0 ==> AllCollisionsAsWritten(d) == Some(AllCollisions(d))
    ensures |d.objs| > 0 ==> AllCollisionsAsWritten(d) == None
  {
  }

  /** `remove_objs(objs)` as written: the loop runs over the detector's
      own list, whatever list is given. */
  method RemoveObjsAsWritten(d: Detector, os: seq<Obj>) returns (r: Detector)
    requires d.sd.grid.cellSize != 0
    ensures r.objs == d.objs && r.sd.grid == d.sd.grid
    ensures forall i :: 0 <= i < |d.objs| ==> !Exists(r.sd, d.objs[i])
    ensures forall p :: p !in d.objs ==> (Exists(r.sd, p) <==> Exists(d.sd, p))
  {
    var sd := RemoveObjs(d.sd, d.objs);
    r := Detector(d.objs, sd);
  }

  /** `remove_objs(objs)` as intended: only the given objects leave the
      dictionary. */
  method RemoveObjsIntended(d: Detector, os: seq<Obj>) returns (r: Detector)
    requires d.sd.grid.cellSize != 0
    ensures r.objs == d.objs && r.sd.grid == d.sd.grid
    ensures forall i :: 0 <= i < |os| ==> !Exists(r.sd, os[i])
    ensures forall p :: p !in os ==> (Exists(r.sd, p) <==> Exists(d.sd, p))
  {
    var sd := RemoveObjs(d.sd, os);
    r := Detector(d.objs, sd);
  }

  /** Three small overlapping objects of the dictionary's own test
      layout, all inside one cell. */
  const I := Obj(8, Rect(75, 50, 20, 20))
  const J := Obj(9, Rect(80, 60, 10, 13))
  const K := Obj(10, Rect(78, 55, 15, 15))

  /** The three filed one after the other in a fresh dictionary. */
  function Filed(): SpatialDict
  {
    AddObj(AddObj(AddObj(Spatial.New(25, 100, 100), I), J), K)
  }

  /** Once all three are filed, each of the three pairs is reported. */
  lemma SmallObjectsAllPaired()
    ensures Filed().grid.cellSize == 25
    ensures var d := Detector([I, J, K], Filed());
      {I, J} in AllCollisions(d) && {I, K} in AllCollisions(d) && {J, K} in AllCollisions(d)
  {
    var d := Detector([I, J, K], Filed());
    var s0 := Spatial.New(25, 100, 100);
    var s1 := AddObj(s0, I);
    var s2 := AddObj(s1, J);
    AddThenExists(s0, I, I);
    AddThenExists(s1, J, J);
    AddThenExists(s1, J, I);
    AddThenExists(s2, K, K);
    AddThenExists(s2, K, J);
    AddThenExists(s2, K, I);
    assert d.objs[0] == I && d.objs[1] == J && d.objs[2] == K;
    PairsAreComplete(d, 0, 1);
    PairsAreComplete(d, 0, 2);
    PairsAreComplete(d, 1, 2);
  }
}
