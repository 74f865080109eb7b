/** The rules of `src/GameWorld.py` that act on entities: broadcasting an
    event, resolving a collision between two entities by notifying both and
    pushing the player's volume out of the other along the axis of least
    overlap, the map from hitboxes to entities, and the tilemap drawn from
    a segment's collision map. An entity is its name, its hitbox and the
    events it has been notified of. */
module World {
  import opened Options
  import opened Strings
  import opened Geometry
  import opened Events
  import Segments

  datatype Entity = Entity(name: string, hitbox: Rect, inbox: seq<Event>)

  /** How many times `i` is listed. */
  function Count(ts: seq<nat>, i: nat): nat
    decreases |ts|
  {
    if |ts| == 0 then 0 else (if ts[0] == i then 1 else 0) + Count(ts[1..], i)
  }

  /** `n` copies of an event. */
  function Copies(e: Event, n: nat): (r: seq<Event>)
    ensures |r| == n && forall k :: 0 <= k < n ==> r[k] == e
  {
    if n == 0 then [] else Copies(e, n - 1) + [e]
  }

  /** The entity at index `i` is notified of `e`. */
  function Deliver(es: seq<Entity>, i: nat, e: Event): seq<Entity>
  {
    if i < |es| then es[i := es[i].(inbox := es[i].inbox + [e])] else es
  }

  /** Notifying the listed entities one after the other, in list order. */
  function DeliverAll(es: seq<Entity>, ts: seq<nat>, e: Event): seq<Entity>
    decreases |ts|
  {
    if |ts| == 0 then es else DeliverAll(Deliver(es, ts[0], e), ts[1..], e)
  }

  /** `notify_of(event, entities)`: an empty list means every entity of the
      world; otherwise each listed entity is notified, once per listing.
      Entities are named by their index in the world; an index outside the
      world names no entity of it. */
  function NotifyOf(es: seq<Entity>, e: Event, ts: seq<nat>): seq<Entity>
  {
    if |ts| == 0 then DeliverAll(es, All(|es|), e) else DeliverAll(es, ts, e)
  }

  /** The indices of every entity, in order. */
  function All(n: nat): (r: seq<nat>)
    ensures |r| == n && forall k :: 0 <= k < n ==> r[k] == k
  {
    if n == 0 then [] else All(n - 1) + [n - 1]
  }

  /** Delivering along a list leaves names and hitboxes alone and gives
      every entity the event once for each time it is listed. */
  lemma {:induction false} DeliverAllCounts(es: seq<Entity>, ts: seq<nat>, e: Event)
    ensures |DeliverAll(es, ts, e)| == |es|
    ensures forall i :: 0 <= i < |es| ==>
      DeliverAll(es, ts, e)[i] == es[i].(inbox := es[i].inbox + Copies(e, Count(ts, i)))
    decreases |ts|
  {
    if |ts| > 0 {
      var next := Deliver(es, ts[0], e);
      DeliverAllCounts(next, ts[1..], e);
      forall i | 0 <= i < |es|
        ensures DeliverAll(es, ts, e)[i] == es[i].(inbox := es[i].inbox + Copies(e, Count(ts, i)))
      {
        if ts[0] == i {
          assert Copies(e, 1 + Count(ts[1..], i)) == [e] + Copies(e, Count(ts[1..], i));
        }
      }
    }
  }

  /** Every index is listed once in `All`, and only those. */
  lemma {:induction false} AllCountsOnce(n: nat, i: nat)
    ensures Count(All(n), i) == if i < n then 1 else 0
  {
    if n > 0 {
      AllCountsOnce(n - 1, i);
      CountAppend(All(n - 1), n - 1, i);
    }
  }

  /** Counting over a list with one more entry. */
  lemma {:induction false} CountAppend(ts: seq<nat>, t: nat, i: nat)
    ensures Count(ts + [t], i) == Count(ts, i) + (if t == i then 1 else 0)
    decreases |ts|
  {
    if |ts| > 0 {
      assert (ts + [t])[1..] == ts[1..] + [t];
      CountAppend(ts[1..], t, i);
    }
  }

  /** A broadcast gives every entity the event exactly once; a list gives
      each entity the event once per listing and touches nothing else. */
  lemma NotifyOfDelivers(es: seq<Entity>, e: Event, ts: seq<nat>)
    ensures |NotifyOf(es, e, ts)| == |es|
    ensures |ts| == 0 ==> forall i :: 0 <= i < |es| ==> NotifyOf(es, e, ts)[i] == es[i].(inbox := es[i].inbox + [e])
    ensures |ts| > 0 ==> forall i :: 0 <= i < |es| ==>
      NotifyOf(es, e, ts)[i] == es[i].(inbox := es[i].inbox + Copies(e, Count(ts, i)))
  {
    if |ts| == 0 {
      DeliverAllCounts(es, All(|es|), e);
      forall i | 0 <= i < |es|
        ensures NotifyOf(es, e, ts)[i] == es[i].(inbox := es[i].inbox + [e])
      {
        AllCountsOnce(|es|, i);
        assert Copies(e, 1) == [e];
      }
    } else {
      DeliverAllCounts(es, ts, e);
    }
  }

  /** A broadcast is the same as listing every entity once. */
  lemma BroadcastIsListingAll(es: seq<Entity>, e: Event)
    requires |es| > 0
    ensures NotifyOf(es, e, []) == NotifyOf(es, e, All(|es|))
  {
  }

  /** A rectangle as an event value: `((x, y), (w, h))`. */
  function RectValue(r: Rect): Value
  {
    Pair(Pair(Int(r.x), Int(r.y)), Pair(Int(r.w), Int(r.h)))
  }

  /** The collision event of `_resolve_entity_collision`: both entities and
      both volumes, first entity first. */
  function CollisionEvent(a: Entity, b: Entity): (e: Event)
    ensures e.kind == Collision
  {
    Event(Collision, [Param("objects", Pair(Ref(a.name), Ref(b.name))), Param("volumes", Pair(RectValue(a.hitbox), RectValue(b.hitbox)))])
  }

  /** The collision event's parameter dictionary holds exactly the two
      entities and their two volumes, in the order the entities were
      given. */
  lemma CollisionEventParameters(a: Entity, b: Entity)
    ensures Parameters(CollisionEvent(a, b)).Keys == {"objects", "volumes"}
    ensures Parameters(CollisionEvent(a, b))["objects"] == Pair(Ref(a.name), Ref(b.name))
    ensures Parameters(CollisionEvent(a, b))["volumes"] == Pair(RectValue(a.hitbox), RectValue(b.hitbox))
  {
    var ps := CollisionEvent(a, b).params;
    assert ps[..|ps| - 1] == [ps[0]];
    assert [ps[0]][..0] == [];
    assert ParamMap([ps[0]]) == map[]["objects" := ps[0].value];
    assert "objects"[0] != "volumes"[0];
  }

  /** The displacement of the moving volume: along x when the overlap is
      narrower than it is tall, along y otherwise (ties included); away
      from the overlap, by the overlap's extent. */
  datatype Move = Move(dx: int, dy: int)

  function PushBack(moving: Rect, clip: Rect): (m: Move)
    ensures clip.w < clip.h ==> m.dy == 0 && (m.dx == clip.w || m.dx == -clip.w)
    ensures clip.w >= clip.h ==> m.dx == 0 && (m.dy == clip.h || m.dy == -clip.h)
  {
    if clip.w < clip.h then
      Move(if moving.x < clip.x then -clip.w else clip.w, 0)
    else
      Move(0, if moving.y < clip.y then -clip.h else clip.h)
  }

  /** The mover is the first entity when its name contains "player", else
      the second. */
  function Mover(a: Entity, b: Entity): bool
  {
    Occurs("player", a.name)
  }

  /** `_resolve_entity_collision` for entities `i` and `j`: both are
      notified of the same collision event, first `i`, then `j`, and the
      mover's hitbox is pushed back; nothing else changes. */
  function ResolveCollision(es: seq<Entity>, i: nat, j: nat): (r: seq<Entity>)
    requires i < |es| && j < |es| && i != j
    ensures |r| == |es|
    ensures forall k :: 0 <= k < |es| && k != i && k != j ==> r[k] == es[k]
    ensures r[i].name == es[i].name && r[j].name == es[j].name
    ensures r[i].inbox == es[i].inbox + [CollisionEvent(es[i], es[j])]
    ensures r[j].inbox == es[j].inbox + [CollisionEvent(es[i], es[j])]
    ensures var m := PushBack(if Mover(es[i], es[j]) then es[i].hitbox else es[j].hitbox, Clip(es[i].hitbox, es[j].hitbox));
      if Mover(es[i], es[j]) then r[i].hitbox == es[i].hitbox.Moved(m.dx, m.dy) && r[j].hitbox == es[j].hitbox
      else r[j].hitbox == es[j].hitbox.Moved(m.dx, m.dy) && r[i].hitbox == es[i].hitbox
  {
    var a, b := es[i], es[j];
    var ev := CollisionEvent(a, b);
    var clip := Clip(a.hitbox, b.hitbox);
    var first := Mover(a, b);
    var m := PushBack(if first then a.hitbox else b.hitbox, clip);
    var a' := a.(inbox := a.inbox + [ev], hitbox := if first then a.hitbox.Moved(m.dx, m.dy) else a.hitbox);
    var b' := b.(inbox := b.inbox + [ev], hitbox := if first then b.hitbox else b.hitbox.Moved(m.dx, m.dy));
    es[i := a'][j := b']
  }

  /** Volumes that do not collide are not moved: the clip is empty. */
  lemma NoCollisionNoMove(moving: Rect, a: Rect, b: Rect)
    requires !Collide(a, b)
    ensures PushBack(moving, Clip(a, b)) == Move(0, 0)
  {
  }

  /** Pushing back along x separates the volumes when neither one's span
      on that axis holds the other's: the mover ends flush against the
      other volume's side. */
  lemma PushBackSeparatesX(moving: Rect, other: Rect)
    requires Positive(moving) && Positive(other) && Collide(moving, other)
    requires Clip(moving, other).w < Clip(moving, other).h
    requires !(moving.x < other.x && other.Right() < moving.Right())
    requires !(other.x <= moving.x && moving.Right() < other.Right())
    ensures var m := PushBack(moving, Clip(moving, other));
      !Collide(moving.Moved(m.dx, m.dy), other)
      && (moving.Moved(m.dx, m.dy).Right() == other.x || moving.Moved(m.dx, m.dy).x == other.Right())
  {
  }

  /** The same along y. */
  lemma PushBackSeparatesY(moving: Rect, other: Rect)
    requires Positive(moving) && Positive(other) && Collide(moving, other)
    requires Clip(moving, other).w >= Clip(moving, other).h
    requires !(moving.y < other.y && other.Bottom() < moving.Bottom())
    requires !(other.y <= moving.y && moving.Bottom() < other.Bottom())
    ensures var m := PushBack(moving, Clip(moving, other));
      !Collide(moving.Moved(m.dx, m.dy), other)
      && (moving.Moved(m.dx, m.dy).Bottom() == other.y || moving.Moved(m.dx, m.dy).y == other.Bottom())
  {
  }

  /** Neither of two spans on one axis holds the other strictly inside
      it, the first one reaching out on the side it would be pushed to. */
  predicate Overhangs(lo: int, hi: int, otherLo: int, otherHi: int)
  {
    !(lo < otherLo && otherHi < hi) && !(otherLo <= lo && hi < otherHi)
  }

  /** Pushing back separates two colliding volumes when on both axes the
      mover overhangs the other volume. */
  lemma PushBackSeparates(moving: Rect, other: Rect)
    requires Positive(moving) && Positive(other) && Collide(moving, other)
    requires Overhangs(moving.x, moving.Right(), other.x, other.Right())
    requires Overhangs(moving.y, moving.Bottom(), other.y, other.Bottom())
    ensures var m := PushBack(moving, Clip(moving, other));
      !Collide(moving.Moved(m.dx, m.dy), other)
  {
    if Clip(moving, other).w < Clip(moving, other).h {
      PushBackSeparatesX(moving, other);
    } else {
      PushBackSeparatesY(moving, other);
    }
  }

  /** After a collision is resolved, the two entities' hitboxes no longer
      collide, when on both axes the mover overhangs the other. */
  lemma ResolveSeparates(es: seq<Entity>, i: nat, j: nat)
    requires i < |es| && j < |es| && i != j
    requires Positive(es[i].hitbox) && Positive(es[j].hitbox) && Collide(es[i].hitbox, es[j].hitbox)
    requires var (mv, ot) := if Mover(es[i], es[j]) then (es[i].hitbox, es[j].hitbox) else (es[j].hitbox, es[i].hitbox);
      Overhangs(mv.x, mv.Right(), ot.x, ot.Right()) && Overhangs(mv.y, mv.Bottom(), ot.y, ot.Bottom())
    ensures !Collide(ResolveCollision(es, i, j)[i].hitbox, ResolveCollision(es, i, j)[j].hitbox)
  {
    var a, b := es[i].hitbox, es[j].hitbox;
    CollideSymmetric(a, b);
    if Mover(es[i], es[j]) {
      PushBackSeparates(a, b);
    } else {
      PushBackSeparates(b, a);
      var m := PushBack(b, Clip(b, a));
      CollideSymmetric(b.Moved(m.dx, m.dy), a);
    }
  }

  /** The hitbox-to-entity map: `_add_to_collision_detector`,
      `_remove_from_collision_detector` and
      `_get_entity_from_collision_detector`. Hitboxes are told apart by
      identity, here a number; a lookup of a missing key is a `KeyError`,
      modelled as `None`, as is the removal of one. */
  type Registry = map<nat, Entity>

  function Register(reg: Registry, hitbox: nat, e: Entity): (r: Registry)
    ensures Lookup(r, hitbox) == Some(e)
    ensures forall h :: h != hitbox ==> Lookup(r, h) == Lookup(reg, h)
  {
    reg[hitbox := e]
  }

  function Unregister(reg: Registry, hitbox: nat): (r: Option<Registry>)
    ensures r.Some? <==> Lookup(reg, hitbox).Some?
    ensures r.Some? ==> Lookup(r.value, hitbox) == None
    ensures r.Some? ==> forall h :: h != hitbox ==> Lookup(r.value, h) == Lookup(reg, h)
  {
    if hitbox in reg then Some(reg - {hitbox}) else None
  }

  function Lookup(reg: Registry, hitbox: nat): Option<Entity>
  {
    if hitbox in reg then Some(reg[hitbox]) else None
  }

  /** Registering and then unregistering a hitbox that was not there
      gives the map back. */
  lemma RegisterUnregister(reg: Registry, hitbox: nat, e: Entity)
    requires hitbox !in reg
    ensures Unregister(Register(reg, hitbox, e), hitbox) == Some(reg)
  {
    assert Register(reg, hitbox, e) - {hitbox} == reg;
  }

  /** The tile names of the tilemap. */
  const Solid := "6"
  const Open := "4"

  /** `_setup_tilemap`: one column per column of the collision map, each as
      long as the first column, with "6" for a tangible tile and "4" for
      another. A column shorter than the first is an `IndexError`,
      modelled as `None`; a longer one is cut to the first's length. */
  function Tilemap(cm: seq<seq<bool>>): (r: Option<seq<seq<string>>>)
    ensures r.Some? <==> forall x :: 0 <= x < |cm| ==> |cm[0]| <= |cm[x]|
    ensures r.Some? ==> |r.value| == |cm|
    ensures r.Some? ==> forall x :: 0 <= x < |cm| ==> |r.value[x]| == |cm[0]|
    ensures r.Some? ==> forall x, y :: 0 <= x < |cm| && 0 <= y < |cm[0]| ==>
      r.value[x][y] == (if cm[x][y] then Solid else Open)
  {
    if forall x :: 0 <= x < |cm| ==> |cm[0]| <= |cm[x]| then
      Some(seq(|cm|, x requires 0 <= x < |cm| => seq(|cm[0]|, y requires 0 <= y < |cm[0]| => if cm[x][y] then Solid else Open)))
    else None
  }

  /** Whether a tile name stands for a tangible tile. */
  function IsSolid(t: string): bool
  {
    t == Solid
  }

  /** For a rectangular collision map the tilemap loses nothing: reading
      the tangible tiles back gives the collision map. */
  lemma TilemapReadsBack(cm: seq<seq<bool>>)
    requires forall x :: 0 <= x < |cm| ==> |cm[x]| == |cm[0]|
    ensures Tilemap(cm).Some? && |Tilemap(cm).value| == |cm|
    ensures forall x :: 0 <= x < |cm| ==> |Tilemap(cm).value[x]| == |cm[x]|
    ensures forall x, y :: 0 <= x < |cm| && 0 <= y < |cm[x]| ==> IsSolid(Tilemap(cm).value[x][y]) == cm[x][y]
  {
    assert Solid != Open;
  }

  /** The tilemap of a loaded segment marks as solid exactly the tiles
      whose id is even. */
  lemma SegmentTilemap(d: Segments.Decoded)
    requires |d.tiles| == d.width
    requires forall x :: 0 <= x < d.width ==> |d.tiles[x]| == d.height
    ensures Tilemap(Segments.CollisionMap(d)).Some?
    ensures var tm := Tilemap(Segments.CollisionMap(d)).value;
      |tm| == d.width && forall x, y :: 0 <= x < d.width && 0 <= y < d.height ==>
        (IsSolid(tm[x][y]) <==> d.tiles[x][y] % 2 == 0)
  {
    var cm := Segments.CollisionMap(d);
    TilemapReadsBack(cm);
  }
}
