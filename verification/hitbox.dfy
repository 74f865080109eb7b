/** Hitboxes of `src/CompositeHitbox.py`: typed rectangles, and composite
    hitboxes that hold a list of them at a common origin inside a container
    rectangle. Composites are values here; a method that moves a composite
    in place returns the moved composite instead. */
module Hitboxes {
  import opened Geometry

  /** `HitboxType`: the broad classification of a hitbox. */
  datatype HitboxType = Default | Vulnerable | Hurt

  /** The `repr` of a hitbox: the name of its type. */
  function TypeName(t: HitboxType): string
  {
    match t
    case Default => "default"
    case Vulnerable => "vulnerable"
    case Hurt => "hurt"
  }

  /** `Hitbox(x, y, w, h, htype)`: a rectangle and its type. */
  datatype Hitbox = Hitbox(box: Rect, htype: HitboxType)

  /** A composite: its container rectangle and its inner hitboxes, stored
      at their world positions. */
  datatype Composite = Composite(container: Rect, inner: seq<Hitbox>)

  /** The largest of a non-empty list of numbers. */
  function MaxOf(s: seq<int>): (m: int)
    requires |s| > 0
    ensures forall i :: 0 <= i < |s| ==> s[i] <= m
    ensures exists i :: 0 <= i < |s| && s[i] == m
    decreases |s|
  {
    if |s| == 1 then s[0]
    else
      var rest := MaxOf(s[1..]);
      assert forall i :: 1 <= i < |s| ==> s[i] == s[1..][i - 1];
      if s[0] < rest then rest else s[0]
  }

  /** The right edges of a list of hitboxes. */
  function Rights(hbs: seq<Hitbox>): (r: seq<int>)
    ensures |r| == |hbs| && forall i :: 0 <= i < |hbs| ==> r[i] == hbs[i].box.x + hbs[i].box.w
  {
    seq(|hbs|, i requires 0 <= i < |hbs| => hbs[i].box.x + hbs[i].box.w)
  }

  /** The bottom edges of a list of hitboxes. */
  function Bottoms(hbs: seq<Hitbox>): (r: seq<int>)
    ensures |r| == |hbs| && forall i :: 0 <= i < |hbs| ==> r[i] == hbs[i].box.y + hbs[i].box.h
  {
    seq(|hbs|, i requires 0 <= i < |hbs| => hbs[i].box.y + hbs[i].box.h)
  }

  /** The rectangles of a list of hitboxes, without their types. */
  function Boxes(hbs: seq<Hitbox>): (r: seq<Rect>)
    ensures |r| == |hbs| && forall i :: 0 <= i < |hbs| ==> r[i] == hbs[i].box
  {
    seq(|hbs|, i requires 0 <= i < |hbs| => hbs[i].box)
  }

  /** Every hitbox of a list moved by (dx, dy), keeping its type. */
  function MoveAll(hbs: seq<Hitbox>, dx: int, dy: int): (r: seq<Hitbox>)
    ensures |r| == |hbs|
    ensures forall i :: 0 <= i < |hbs| ==> r[i].box == hbs[i].box.Moved(dx, dy) && r[i].htype == hbs[i].htype
  {
    seq(|hbs|, i requires 0 <= i < |hbs| => Hitbox(hbs[i].box.Moved(dx, dy), hbs[i].htype))
  }

  /** `CompositeHitbox(pos_x, pos_y, hitbox_list)`: the container sits at
      the position and reaches as far right and down as the furthest
      hitbox (0 by 0 without hitboxes); the inner hitboxes are the given
      ones moved by the position, with their types. */
  function New(px: int, py: int, hbs: seq<Hitbox>): (c: Composite)
    ensures c.container.x == px && c.container.y == py
    ensures |hbs| == 0 ==> c.container.w == 0 && c.container.h == 0 && c.inner == []
    ensures forall i :: 0 <= i < |hbs| ==> hbs[i].box.x + hbs[i].box.w <= c.container.w
    ensures forall i :: 0 <= i < |hbs| ==> hbs[i].box.y + hbs[i].box.h <= c.container.h
    ensures |hbs| > 0 ==> exists i :: 0 <= i < |hbs| && hbs[i].box.x + hbs[i].box.w == c.container.w
    ensures |hbs| > 0 ==> exists i :: 0 <= i < |hbs| && hbs[i].box.y + hbs[i].box.h == c.container.h
    ensures |c.inner| == |hbs|
    ensures forall i :: 0 <= i < |hbs| ==> c.inner[i].box == hbs[i].box.Moved(px, py) && c.inner[i].htype == hbs[i].htype
  {
    var w := if |hbs| > 0 then MaxOf(Rights(hbs)) else 0;
    var h := if |hbs| > 0 then MaxOf(Bottoms(hbs)) else 0;
    Composite(Rect(px, py, w, h), MoveAll(hbs, px, py))
  }

  /** `translate(dx, dy)`: the container and every inner hitbox move by
      (dx, dy); sizes and types stay. */
  function Translate(c: Composite, dx: int, dy: int): (r: Composite)
    ensures r.container == c.container.Moved(dx, dy)
    ensures |r.inner| == |c.inner|
    ensures forall i :: 0 <= i < |c.inner| ==> r.inner[i].box == c.inner[i].box.Moved(dx, dy) && r.inner[i].htype == c.inner[i].htype
  {
    Composite(c.container.Moved(dx, dy), MoveAll(c.inner, dx, dy))
  }

  /** `get_position`: the container's top-left corner. */
  function Position(c: Composite): (int, int)
  {
    (c.container.x, c.container.y)
  }

  /** `get_relative_hitboxes`: fresh hitboxes at the inner positions minus
      the composite's position, all of the default type. */
  function Relative(c: Composite): (r: seq<Hitbox>)
    ensures |r| == |c.inner|
    ensures forall i :: 0 <= i < |r| ==> r[i].htype == Default
  {
    seq(|c.inner|, i requires 0 <= i < |c.inner| =>
      Hitbox(c.inner[i].box.Moved(-Position(c).0, -Position(c).1), Default))
  }

  /** The number of times a rectangle occurs in a list, as `list.count`. */
  function Count(s: seq<Rect>, b: Rect): nat
    decreases |s|
  {
    if |s| == 0 then 0 else (if s[0] == b then 1 else 0) + Count(s[1..], b)
  }

  /** `__eq__`: equal containers, as many inner hitboxes, and every inner
      rectangle of the left occurring as often on both sides. Types are
      not compared. */
  predicate Same(c: Composite, d: Composite)
  {
    c.container == d.container && |c.inner| == |d.inner|
    && forall i :: 0 <= i < |c.inner| ==> Count(Boxes(c.inner), c.inner[i].box) == Count(Boxes(d.inner), c.inner[i].box)
  }

  /** `count` is the multiplicity in the list's multiset. */
  lemma {:induction false} CountIsMultiplicity(s: seq<Rect>, b: Rect)
    ensures Count(s, b) == multiset(s)[b]
    decreases |s|
  {
    if |s| > 0 {
      CountIsMultiplicity(s[1..], b);
      assert s == [s[0]] + s[1..];
      assert multiset(s) == multiset([s[0]]) + multiset(s[1..]);
    }
  }

  /** Two multisets of the same size that agree on every element of the
      first are equal. */
  lemma SameSizeAgreeing(a: multiset<Rect>, b: multiset<Rect>)
    requires |a| == |b|
    requires forall x :: x in a ==> a[x] == b[x]
    ensures a == b
  {
    assert a <= b;
    var extra := b - a;
    assert b == a + extra;
    assert |extra| == 0;
  }

  /** Equality of composites is equality of the containers and of the
      multisets of inner rectangles: order and types do not matter. */
  lemma SameIffMultiset(c: Composite, d: Composite)
    ensures Same(c, d) <==> c.container == d.container && multiset(Boxes(c.inner)) == multiset(Boxes(d.inner))
  {
    var a := multiset(Boxes(c.inner));
    var b := multiset(Boxes(d.inner));
    forall i | 0 <= i < |c.inner|
      ensures Count(Boxes(c.inner), c.inner[i].box) == a[c.inner[i].box]
      ensures Count(Boxes(d.inner), c.inner[i].box) == b[c.inner[i].box]
    {
      CountIsMultiplicity(Boxes(c.inner), c.inner[i].box);
      CountIsMultiplicity(Boxes(d.inner), c.inner[i].box);
    }
    if Same(c, d) {
      forall x | x in a
        ensures a[x] == b[x]
      {
        var i :| 0 <= i < |Boxes(c.inner)| && Boxes(c.inner)[i] == x;
      }
      SameSizeAgreeing(a, b);
    }
    if c.container == d.container && a == b {
      assert |Boxes(c.inner)| == |a| && |Boxes(d.inner)| == |b|;
    }
  }

  /** The default composite has a zero container and no hitboxes. */
  lemma DefaultComposite()
    ensures New(0, 0, []) == Composite(Origin, [])
    ensures Position(New(0, 0, [])) == (0, 0)
  {
  }

  /** A translation is undone by the opposite translation, and
      translating a new composite is building it at the moved position. */
  lemma TranslateUndoes(c: Composite, dx: int, dy: int)
    ensures Translate(Translate(c, dx, dy), -dx, -dy) == c
    ensures Position(Translate(c, dx, dy)) == (Position(c).0 + dx, Position(c).1 + dy)
  {
    assert Translate(Translate(c, dx, dy), -dx, -dy).inner == c.inner;
  }

  /** Translating a new composite is building it at the moved position. */
  lemma TranslateNew(px: int, py: int, hbs: seq<Hitbox>, dx: int, dy: int)
    ensures Translate(New(px, py, hbs), dx, dy) == New(px + dx, py + dy, hbs)
  {
    assert Translate(New(px, py, hbs), dx, dy).inner == New(px + dx, py + dy, hbs).inner;
  }

  /** The relative hitboxes of a new composite give back the given
      rectangles. */
  lemma RelativeRoundTrip(px: int, py: int, hbs: seq<Hitbox>)
    ensures Boxes(Relative(New(px, py, hbs))) == Boxes(hbs)
  {
    var c := New(px, py, hbs);
    assert Position(c) == (px, py);
    forall i | 0 <= i < |hbs|
      ensures Boxes(Relative(c))[i] == Boxes(hbs)[i]
    {
      assert Relative(c)[i].box == c.inner[i].box.Moved(-px, -py);
    }
  }

  /** A translation does not change the relative hitboxes. */
  lemma RelativeIgnoresTranslation(c: Composite, dx: int, dy: int)
    ensures Relative(Translate(c, dx, dy)) == Relative(c)
  {
    var t := Translate(c, dx, dy);
    assert Position(t) == (Position(c).0 + dx, Position(c).1 + dy);
    forall i | 0 <= i < |c.inner|
      ensures Relative(t)[i] == Relative(c)[i]
    {
      assert t.inner[i].box == c.inner[i].box.Moved(dx, dy);
    }
  }

  /** The types of the inner hitboxes do not take part in equality. */
  lemma SameIgnoresTypes(c: Composite, d: Composite)
    requires c.container == d.container && Boxes(c.inner) == Boxes(d.inner)
    ensures Same(c, d)
  {
    SameIffMultiset(c, d);
  }

  /** The two hitboxes of the tests. */
  const TestBoxes := [Hitbox(Rect(9, 1, 3, 6), Vulnerable), Hitbox(Rect(2, 4, 7, 10), Hurt)]

  /** The two-hitbox composite of the tests has the container the tests
      expect, and differs from the default composite. */
  lemma TestComposite()
    ensures New(200, 400, TestBoxes).container == Rect(200, 400, 12, 14)
    ensures Boxes(New(200, 400, TestBoxes).inner) == [Rect(209, 401, 3, 6), Rect(202, 404, 7, 10)]
    ensures !Same(New(0, 0, []), New(200, 400, TestBoxes))
  {
    var c := New(200, 400, TestBoxes);
    assert TestBoxes[0].box.x + TestBoxes[0].box.w == 12;
    assert TestBoxes[1].box.y + TestBoxes[1].box.h == 14;
  }

  /** Two inner hitboxes in the other order and with other types make an
      equal composite. */
  lemma SwappedPairIsSame(r: Rect, a: Hitbox, b: Hitbox, ta: HitboxType, tb: HitboxType)
    ensures Same(Composite(r, [a, b]), Composite(r, [b.(htype := tb), a.(htype := ta)]))
  {
    var c := Composite(r, [a, b]);
    var d := Composite(r, [b.(htype := tb), a.(htype := ta)]);
    SameIffMultiset(c, d);
    assert Boxes(c.inner) == [a.box, b.box];
    assert Boxes(d.inner) == [b.box, a.box];
    assert multiset([a.box, b.box]) == multiset([b.box, a.box]);
  }
}
