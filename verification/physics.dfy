/** Physical states of `src/PhysicalState.py`: a bounding volume, a velocity
    and a mass, plus the current/maximum health fields that hit states add
    to. The same record serves both as a state and as a change to a state
    (a "delta"); changes are combined component by component. */
module Physics {
  import opened Options
  import opened Geometry

  datatype PhysicalState = PhysicalState(
    volume: Rect,
    vx: int,
    vy: int,
    mass: int,
    currHealth: int,
    maxHealth: int)

  /** `PhysicalState()`: the zero rectangle, no velocity, no mass. */
  const Zero := PhysicalState(Origin, 0, 0, 0, 0, 0)

  /** The value constructor; a missing volume is the zero rectangle. */
  function New(volume: Option<Rect>, vx: int, vy: int, mass: int): (s: PhysicalState)
    ensures volume.Some? ==> s.volume == volume.value
    ensures volume.None? ==> s.volume == Origin
    ensures s.vx == vx && s.vy == vy && s.mass == mass
    ensures s.currHealth == 0 && s.maxHealth == 0
  {
    PhysicalState(if volume.Some? then volume.value else Origin, vx, vy, mass, 0, 0)
  }

  /** `add_delta`: every field of the delta is added to the same field of
      the state. */
  function AddDelta(s: PhysicalState, d: PhysicalState): PhysicalState
  {
    PhysicalState(
      Rect(s.volume.x + d.volume.x, s.volume.y + d.volume.y,
           s.volume.w + d.volume.w, s.volume.h + d.volume.h),
      s.vx + d.vx, s.vy + d.vy,
      s.mass + d.mass,
      s.currHealth + d.currHealth, s.maxHealth + d.maxHealth)
  }

  /** The change that undoes `d`. */
  function Negate(d: PhysicalState): PhysicalState
  {
    PhysicalState(Rect(-d.volume.x, -d.volume.y, -d.volume.w, -d.volume.h),
                  -d.vx, -d.vy, -d.mass, -d.currHealth, -d.maxHealth)
  }

  /** Every field of `d` multiplied by `k`. */
  function Scale(k: int, d: PhysicalState): PhysicalState
  {
    PhysicalState(Rect(k * d.volume.x, k * d.volume.y, k * d.volume.w, k * d.volume.h),
                  k * d.vx, k * d.vy, k * d.mass, k * d.currHealth, k * d.maxHealth)
  }

  /** `update(dt)`: the volume moves by the velocity times `dt`; size,
      velocity and mass are untouched. Moving the centre by an integer
      amount moves the corner by the same amount. */
  function Update(s: PhysicalState, dt: int): PhysicalState
  {
    s.(volume := s.volume.Moved(s.vx * dt, s.vy * dt))
  }

  /** `__eq__`: mass, both velocity components and the four volume fields
      agree; health is not compared. */
  predicate SameAs(a: PhysicalState, b: PhysicalState)
  {
    a.mass == b.mass && a.vx == b.vx && a.vy == b.vy &&
    a.volume.x == b.volume.x && a.volume.y == b.volume.y &&
    a.volume.w == b.volume.w && a.volume.h == b.volume.h
  }

  /** The state with its health fields cleared. */
  function WithoutHealth(s: PhysicalState): PhysicalState
  {
    s.(currHealth := 0, maxHealth := 0)
  }

  /** The default state is the zero rectangle at rest with no mass. */
  lemma DefaultIsZero()
    ensures New(None, 0, 0, 0) == Zero
    ensures Zero.volume == Rect(0, 0, 0, 0) && Zero.vx == 0 && Zero.vy == 0 && Zero.mass == 0
  {
  }

  /** Each component of the result is the sum of the two components. */
  lemma AddDeltaComponentwise(s: PhysicalState, d: PhysicalState)
    ensures AddDelta(s, d).volume == Rect(s.volume.x + d.volume.x, s.volume.y + d.volume.y,
                                          s.volume.w + d.volume.w, s.volume.h + d.volume.h)
    ensures AddDelta(s, d).vx == s.vx + d.vx && AddDelta(s, d).vy == s.vy + d.vy
    ensures AddDelta(s, d).mass == s.mass + d.mass
    ensures AddDelta(s, d).currHealth == s.currHealth + d.currHealth
    ensures AddDelta(s, d).maxHealth == s.maxHealth + d.maxHealth
  {
  }

  /** Adding the zero delta, on either side, changes nothing. */
  lemma ZeroIsIdentity(s: PhysicalState)
    ensures AddDelta(s, Zero) == s
    ensures AddDelta(Zero, s) == s
  {
  }

  /** Combining deltas is commutative and associative. */
  lemma AddDeltaCommutes(a: PhysicalState, b: PhysicalState)
    ensures AddDelta(a, b) == AddDelta(b, a)
  {
  }

  lemma AddDeltaAssociates(a: PhysicalState, b: PhysicalState, c: PhysicalState)
    ensures AddDelta(AddDelta(a, b), c) == AddDelta(a, AddDelta(b, c))
  {
  }

  /** Adding a delta and then its negation gives back the original state. */
  lemma NegateUndoes(s: PhysicalState, d: PhysicalState)
    ensures AddDelta(AddDelta(s, d), Negate(d)) == s
    ensures AddDelta(d, Negate(d)) == Zero
  {
  }

  /** An update moves only the position, by exactly velocity times `dt`. */
  lemma UpdateMovesPosition(s: PhysicalState, dt: int)
    ensures Update(s, dt).volume.x == s.volume.x + dt * s.vx
    ensures Update(s, dt).volume.y == s.volume.y + dt * s.vy
    ensures Update(s, dt).volume.w == s.volume.w && Update(s, dt).volume.h == s.volume.h
    ensures Update(s, dt).vx == s.vx && Update(s, dt).vy == s.vy && Update(s, dt).mass == s.mass
  {
  }

  /** Two updates amount to one update by the summed time, and a zero-time
      update is no change. */
  lemma UpdateComposes(s: PhysicalState, a: int, b: int)
    ensures Update(Update(s, a), b) == Update(s, a + b)
    ensures Update(s, 0) == s
  {
    assert s.vx * a + s.vx * b == s.vx * (a + b);
    assert s.vy * a + s.vy * b == s.vy * (a + b);
  }

  /** Equality is ordinary equality once health is disregarded. */
  lemma SameAsIffEqualWithoutHealth(a: PhysicalState, b: PhysicalState)
    ensures SameAs(a, b) <==> WithoutHealth(a) == WithoutHealth(b)
  {
  }

  /** Equality is an equivalence relation. */
  lemma SameAsEquivalence(a: PhysicalState, b: PhysicalState, c: PhysicalState)
    ensures SameAs(a, a)
    ensures SameAs(a, b) ==> SameAs(b, a)
    ensures SameAs(a, b) && SameAs(b, c) ==> SameAs(a, c)
  {
  }
}
