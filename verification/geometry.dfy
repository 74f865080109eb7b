/** Axis-aligned integer rectangles, the model of the pygame `Rect` the game
    uses for volumes and hitboxes, with the two library operations the core
    relies on: `colliderect` and `clip`. */
module Geometry {

  datatype Rect = Rect(x: int, y: int, w: int, h: int)
  {
    function Right(): int { x + w }
    function Bottom(): int { y + h }

    /** The same rectangle moved by (dx, dy), as `move_ip`. */
    function Moved(dx: int, dy: int): Rect
    {
      Rect(x + dx, y + dy, w, h)
    }
  }

  /** The zero rectangle `Rect(0, 0, 0, 0)`. */
  const Origin := Rect(0, 0, 0, 0)

  /** Both sides are strictly positive. */
  predicate Positive(r: Rect)
  {
    r.w > 0 && r.h > 0
  }

  /** Point (px, py) lies inside `r` (half-open on the right and bottom). */
  predicate Inside(r: Rect, px: int, py: int)
  {
    r.x <= px < r.Right() && r.y <= py < r.Bottom()
  }

  /** `colliderect`: the open interiors overlap on both axes. */
  predicate Collide(a: Rect, b: Rect)
  {
    a.x < b.Right() && b.x < a.Right() && a.y < b.Bottom() && b.y < a.Bottom()
  }

  function Max(a: int, b: int): int { if a < b then b else a }
  function Min(a: int, b: int): int { if a < b then a else b }

  /** `clip`: the intersection of two colliding rectangles; a zero-size
      rectangle at `a`'s position when they do not collide. */
  function Clip(a: Rect, b: Rect): (c: Rect)
    ensures Collide(a, b) && Positive(a) && Positive(b) ==> c.w > 0 && c.h > 0
    ensures !Collide(a, b) ==> c == Rect(a.x, a.y, 0, 0)
  {
    if Collide(a, b) then
      var x := Max(a.x, b.x);
      var y := Max(a.y, b.y);
      Rect(x, y, Min(a.Right(), b.Right()) - x, Min(a.Bottom(), b.Bottom()) - y)
    else
      Rect(a.x, a.y, 0, 0)
  }

  /** The clip of two colliding rectangles holds exactly the points that lie
      in both of them. */
  lemma ClipIsIntersection(a: Rect, b: Rect, px: int, py: int)
    requires Collide(a, b)
    ensures Inside(Clip(a, b), px, py) <==> Inside(a, px, py) && Inside(b, px, py)
  {
  }

  /** Collision is symmetric, and so is the clip of colliding rectangles. */
  lemma CollideSymmetric(a: Rect, b: Rect)
    ensures Collide(a, b) <==> Collide(b, a)
    ensures Collide(a, b) ==> Clip(a, b) == Clip(b, a)
  {
  }

  /** Two rectangles collide exactly when they share a point, provided both
      have positive size. */
  lemma CollideIffSharedPoint(a: Rect, b: Rect)
    requires Positive(a) && Positive(b)
    ensures Collide(a, b) <==> exists px, py :: Inside(a, px, py) && Inside(b, px, py)
  {
    if Collide(a, b) {
      assert Inside(a, Max(a.x, b.x), Max(a.y, b.y));
    }
  }

  /** Python 2's `/` on integers: the floor of the quotient. */
  function FloorDiv(a: int, b: int): (q: int)
    requires b != 0
    ensures b > 0 ==> b * q <= a < b * q + b
    ensures b < 0 ==> b * q + b < a <= b * q
  {
    if b > 0 then a / b else (-a) / (-b)
  }

  /** Python's `%` on integers: the remainder that takes the sign of the
      divisor, so that `a == b * FloorDiv(a, b) + FloorMod(a, b)`. */
  function FloorMod(a: int, b: int): (m: int)
    requires b != 0
    ensures b > 0 ==> 0 <= m < b
    ensures b < 0 ==> b < m <= 0
    ensures a == b * FloorDiv(a, b) + m
  {
    a - b * FloorDiv(a, b)
  }

  /** Floor division by a positive number keeps the order of the
      dividends. */
  lemma FloorDivMonotone(a: int, b: int, d: int)
    requires d > 0 && a <= b
    ensures FloorDiv(a, d) <= FloorDiv(b, d)
  {
    var qa := FloorDiv(a, d);
    var qb := FloorDiv(b, d);
    assert d * qa < d * (qb + 1);
    ScaleCancel(d, qa, qb + 1);
  }

  /** A positive factor can be cancelled from a strict inequality. */
  lemma ScaleCancel(d: int, x: int, y: int)
    requires d > 0 && d * x < d * y
    ensures x < y
  {
  }

  /** The floor quotient is the one multiple that brackets the dividend. */
  lemma FloorDivUnique(a: int, b: int, q: int)
    requires b > 0 && b * q <= a < b * q + b
    ensures FloorDiv(a, b) == q
  {
    var q' := FloorDiv(a, b);
    assert b * q' < b * (q + 1);
    ScaleCancel(b, q', q + 1);
    assert b * q < b * (q' + 1);
    ScaleCancel(b, q, q' + 1);
  }

  /** Adding whole multiples of a positive divisor adds to the floor
      quotient and leaves the remainder alone. */
  lemma FloorShift(a: int, b: int, k: int)
    requires b > 0
    ensures FloorDiv(a + k * b, b) == FloorDiv(a, b) + k
    ensures FloorMod(a + k * b, b) == FloorMod(a, b)
  {
    var q := FloorDiv(a, b);
    assert b * (q + k) == b * q + k * b;
    FloorDivUnique(a + k * b, b, q + k);
  }
}
