/** Simulation deltas of `src/SimulationDelta.py`: the change one or more
    simulation steps make to an entity, as a physical change plus the events
    the steps produced, in order. Deltas form a monoid under `+`. */
module Deltas {
  import opened Events
  import opened Physics

  datatype SimulationDelta = SimulationDelta(physical: PhysicalState, events: seq<Event>)

  /** `SimulationDelta()`: no physical change and no events. */
  const Empty := SimulationDelta(Zero, [])

  /** The value constructor: the stored change is the zero state plus the
      given change, and the stored events are a copy of the given ones. */
  function Make(edelta: PhysicalState, events: seq<Event>): (d: SimulationDelta)
    ensures d.physical == edelta
    ensures d.events == events
  {
    SimulationDelta(AddDelta(Zero, edelta), events)
  }

  /** A delta holding nothing but one event. */
  function Single(e: Event): (d: SimulationDelta)
    ensures d.physical == Zero && d.events == [e]
  {
    Make(Zero, [e])
  }

  /** `__add__`: a fresh aggregate whose change is the zero state plus both
      operands' changes and whose events are the left operand's followed by
      the right operand's. */
  function Add(a: SimulationDelta, b: SimulationDelta): (c: SimulationDelta)
    ensures c.physical == AddDelta(a.physical, b.physical)
    ensures c.events == a.events + b.events
  {
    var agg := Empty;
    var p := AddDelta(AddDelta(agg.physical, a.physical), b.physical);
    SimulationDelta(p, agg.events + a.events + b.events)
  }

  /** Element-wise event equality of two event lists, as list `==` with the
      events' own `__eq__`. */
  predicate SameEvents(xs: seq<Event>, ys: seq<Event>)
  {
    |xs| == |ys| && forall i :: 0 <= i < |xs| ==> Same(xs[i], ys[i])
  }

  /** `__eq__`: equal physical changes and equal event lists, in order. */
  predicate SameDelta(a: SimulationDelta, b: SimulationDelta)
  {
    SameAs(a.physical, b.physical) && SameEvents(a.events, b.events)
  }

  /** The default delta is the zero change with no events. */
  lemma DefaultIsEmpty()
    ensures Make(Zero, []) == Empty
    ensures Empty.physical == Zero && Empty.events == []
  {
  }

  /** The empty delta is a left and right identity. */
  lemma EmptyIsIdentity(d: SimulationDelta)
    ensures Add(d, Empty) == d
    ensures Add(Empty, d) == d
  {
    ZeroIsIdentity(d.physical);
    assert Add(d, Empty).physical == d.physical;
    assert Add(Empty, d).physical == d.physical;
    assert Add(d, Empty).events == d.events;
    assert Add(Empty, d).events == d.events;
  }

  /** `+` is associative, so a sum of step deltas does not depend on how it
      is bracketed. */
  lemma AddAssociates(a: SimulationDelta, b: SimulationDelta, c: SimulationDelta)
    ensures Add(Add(a, b), c) == Add(a, Add(b, c))
  {
    AddDeltaAssociates(a.physical, b.physical, c.physical);
    assert (a.events + b.events) + c.events == a.events + (b.events + c.events);
  }

  /** A delta added to itself doubles its change and repeats its events. */
  lemma AddSelf(d: SimulationDelta)
    ensures Add(d, d).physical == Scale(2, d.physical)
    ensures |Add(d, d).events| == 2 * |d.events|
    ensures Add(d, d).events[..|d.events|] == d.events && Add(d, d).events[|d.events|..] == d.events
  {
    ZeroIsIdentity(d.physical);
  }

  /** Event-list equality is sensitive to order: two events that are not
      equal to each other give unequal lists in the two orders. */
  lemma SameEventsIsOrdered(e1: Event, e2: Event)
    requires !Same(e1, e2)
    ensures !SameEvents([e1, e2], [e2, e1])
  {
    assert [e1, e2][0] == e1 && [e2, e1][0] == e2;
  }

  /** Delta equality is reflexive. */
  lemma SameDeltaReflexive(d: SimulationDelta)
    ensures SameDelta(d, d)
  {
  }
}
