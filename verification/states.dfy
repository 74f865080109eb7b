/** Machine states of `src/State.py` and its four variants (`IdleState`,
    `MoveState`, `ShiftState`, `HitState`). A state tracks how long it has
    been active against a timeout; stepping, arriving and departing return
    the variant's simulation delta. Time is measured in whole ticks. */
module States {
  import opened Options
  import opened Geometry
  import opened Events
  import opened Physics
  import opened Deltas

  /** A timeout; `Infinite` is the default `float("inf")`. */
  datatype Timeout = Infinite | Finite(limit: int)

  /** The variant of a state and its parameters. */
  datatype Behaviour =
    | Idle
    | Move(vx: int, vy: int)
    | Shift(dx: int, dy: int)
    | Hit(damage: int)

  datatype State = State(name: string, activeTime: int, timeout: Timeout, behaviour: Behaviour)

  /** What a state operation returns: the updated state and its delta. */
  datatype Outcome = Outcome(state: State, delta: SimulationDelta)

  /** The event a state emits when its timeout has passed. */
  const TimeoutEvent := Event(Events.Timeout, [])

  /** `State.__init__`: not yet active. */
  function NewState(name: string, timeout: Timeout, b: Behaviour): State
  {
    State(name, 0, timeout, b)
  }

  /** `IdleState(identifier)`. */
  function NewIdle(id: string, timeout: Timeout): State
  {
    NewState("idle_" + id, timeout, Idle)
  }

  /** `MoveState(identifier, (vx, vy))`. */
  function NewMove(id: string, vx: int, vy: int, timeout: Timeout): State
  {
    NewState("move_" + id, timeout, Move(vx, vy))
  }

  /** `ShiftState(identifier, xchange, ychange)`: named like an idle state. */
  function NewShift(id: string, dx: int, dy: int, timeout: Timeout): State
  {
    NewState("idle_" + id, timeout, Shift(dx, dy))
  }

  /** `HitState(identifier, damage)`: keeps the identifier as its name and
      times out as soon as any time has passed. */
  function NewHit(id: string, damage: int): State
  {
    NewState(id, Finite(0), Hit(damage))
  }

  /** `get_damage`; hit states only. */
  function Damage(s: State): int
    requires s.behaviour.Hit?
  {
    s.behaviour.damage
  }

  /** `is_timed_out`: the active time strictly exceeds the timeout. */
  predicate TimedOut(s: State)
  {
    match s.timeout
    case Infinite => false
    case Finite(limit) => s.activeTime > limit
  }

  /** `get_timeout_time`: `None` for an infinite timeout. */
  function TimeoutTime(s: State): (r: Option<int>)
    ensures r.None? <==> s.timeout.Infinite?
    ensures r.Some? ==> r.value == s.timeout.limit
  {
    match s.timeout
    case Infinite => None
    case Finite(limit) => Some(limit)
  }

  /** A change that only moves the volume by (dx, dy). */
  function Offset(dx: int, dy: int): PhysicalState
  {
    PhysicalState(Rect(dx, dy, 0, 0), 0, 0, 0, 0, 0)
  }

  /** A change that only sets the velocity. */
  function Velocity(vx: int, vy: int): PhysicalState
  {
    PhysicalState(Origin, vx, vy, 0, 0, 0)
  }

  /** `_calc_step_changes(dt)` of each variant. */
  function StepChanges(b: Behaviour, dt: int): SimulationDelta
  {
    match b
    case Idle => Make(Zero, [])
    case Move(vx, vy) => Make(Offset(vx * dt, vy * dt), [])
    case Shift(_, _) => Empty
    case Hit(_) => Empty
  }

  /** `_calc_arrival_changes()` of each variant. */
  function ArrivalChanges(b: Behaviour): SimulationDelta
  {
    match b
    case Idle => Make(Zero, [])
    case Move(vx, vy) => Make(Velocity(vx, vy), [])
    case Shift(dx, dy) => Make(Offset(dx, dy), [])
    case Hit(damage) => Make(Zero.(currHealth := -damage), [])
  }

  /** `_calc_departure_changes()` of each variant. */
  function DepartureChanges(b: Behaviour): SimulationDelta
  {
    match b
    case Idle => Make(Zero, [])
    case Move(vx, vy) => Make(Velocity(-1 * vx, -1 * vy), [])
    case Shift(dx, dy) => Make(Offset(-1 * dx, -1 * dy), [])
    case Hit(_) => Empty
  }

  /** `simulate_step(dt)`: the time is added first; a state that is then
      past its timeout reports exactly one timeout event and nothing else,
      otherwise the variant's step changes are returned. */
  function SimulateStep(s: State, dt: int): (r: Outcome)
    ensures r.state == s.(activeTime := s.activeTime + dt)
    ensures TimedOut(r.state) ==> r.delta == Single(TimeoutEvent)
    ensures !TimedOut(r.state) ==> r.delta == StepChanges(s.behaviour, dt) && r.delta.events == []
  {
    var s' := s.(activeTime := s.activeTime + dt);
    if !TimedOut(s') then Outcome(s', StepChanges(s.behaviour, dt))
    else Outcome(s', Make(Zero, [TimeoutEvent]))
  }

  /** `simulate_arrival()`: the active time restarts at zero. */
  function SimulateArrival(s: State): (r: Outcome)
    ensures r.state == s.(activeTime := 0)
    ensures r.delta == ArrivalChanges(s.behaviour)
  {
    Outcome(s.(activeTime := 0), ArrivalChanges(s.behaviour))
  }

  /** `simulate_departure()`: the active time restarts at zero. */
  function SimulateDeparture(s: State): (r: Outcome)
    ensures r.state == s.(activeTime := 0)
    ensures r.delta == DepartureChanges(s.behaviour)
  {
    Outcome(s.(activeTime := 0), DepartureChanges(s.behaviour))
  }

  /** A step reports a timeout exactly when the accumulated time exceeds a
      finite timeout; with an infinite timeout it never does. */
  lemma StepReportsTimeoutIff(s: State, dt: int)
    ensures SimulateStep(s, dt).delta.events == [TimeoutEvent]
        <==> s.timeout.Finite? && s.activeTime + dt > s.timeout.limit
    ensures s.timeout.Infinite? ==> !TimedOut(SimulateStep(s, dt).state)
  {
  }

  /** Reaching the timeout exactly is not yet timing out. */
  lemma TimeoutIsStrict(s: State)
    requires s.timeout.Finite? && s.activeTime == s.timeout.limit
    ensures !TimedOut(s)
  {
  }

  /** A new state has not been active, so it is timed out only under a
      negative timeout; and only an infinite timeout makes
      `get_timeout_time` report `None`. */
  lemma NewStateInactive(name: string, timeout: Timeout, b: Behaviour)
    ensures NewState(name, timeout, b).activeTime == 0
    ensures TimedOut(NewState(name, timeout, b)) <==> timeout.Finite? && timeout.limit < 0
    ensures TimeoutTime(NewState(name, timeout, b)).None? <==> timeout.Infinite?
  {
  }

  /** An idle state is named `idle_` followed by its identifier. */
  lemma IdleConstructor(id: string, timeout: Timeout)
    ensures NewIdle(id, timeout).name == "idle_" + id && NewIdle(id, timeout).activeTime == 0
  {
  }

  /** A move state is named `move_` followed by its identifier. */
  lemma MoveConstructor(id: string, vx: int, vy: int, timeout: Timeout)
    ensures NewMove(id, vx, vy, timeout).name == "move_" + id && NewMove(id, vx, vy, timeout).activeTime == 0
    ensures NewMove(id, vx, vy, timeout).behaviour == Move(vx, vy)
  {
  }

  /** A shift state is named like an idle state and keeps its changes. */
  lemma ShiftConstructor(id: string, dx: int, dy: int, timeout: Timeout)
    ensures NewShift(id, dx, dy, timeout).name == "idle_" + id
    ensures NewShift(id, dx, dy, timeout).behaviour == Shift(dx, dy)
  {
  }

  /** A hit state keeps its identifier as its name and reports its damage. */
  lemma HitConstructor(id: string, damage: int)
    ensures NewHit(id, damage).name == id && Damage(NewHit(id, damage)) == damage
    ensures NewHit(id, damage).timeout == Finite(0)
  {
  }

  /** Arriving at a move state sets the entity going at the state's
      velocity without moving it. */
  lemma MoveArrival(p: PhysicalState, vx: int, vy: int)
    ensures var q := AddDelta(p, ArrivalChanges(Move(vx, vy)).physical);
      q.volume == p.volume && q.vx == p.vx + vx && q.vy == p.vy + vy && q.mass == p.mass
    ensures ArrivalChanges(Move(vx, vy)).events == []
  {
  }

  /** Arriving at a shift state moves the entity by the state's offset
      without changing its velocity. */
  lemma ShiftArrival(p: PhysicalState, dx: int, dy: int)
    ensures var q := AddDelta(p, ArrivalChanges(Shift(dx, dy)).physical);
      q.volume == p.volume.Moved(dx, dy) && q.vx == p.vx && q.vy == p.vy && q.mass == p.mass
    ensures ArrivalChanges(Shift(dx, dy)).events == []
  {
  }

  /** Every delta of an idle state is empty, at every step size. */
  lemma IdleDeltasAreEmpty(dt: int)
    ensures StepChanges(Idle, dt) == Empty
    ensures ArrivalChanges(Idle) == Empty && DepartureChanges(Idle) == Empty
  {
  }

  /** The move step changes only the position, by velocity times `dt`,
      and applying it has the effect of a physical update at that
      velocity. */
  lemma MoveStepIsUpdate(p: PhysicalState, vx: int, vy: int, dt: int)
    requires p.vx == vx && p.vy == vy
    ensures StepChanges(Move(vx, vy), dt).physical == Offset(vx * dt, vy * dt)
    ensures AddDelta(p, StepChanges(Move(vx, vy), dt).physical) == Update(p, dt)
  {
  }

  /** The step changes of a state do not depend on how long it has been
      active, so two untimed-out steps of the same size are equal. */
  lemma StepDeltaIndependentOfActiveTime(s: State, t: int, dt: int)
    requires !TimedOut(SimulateStep(s, dt).state)
    requires !TimedOut(SimulateStep(s.(activeTime := t), dt).state)
    ensures SimulateStep(s, dt).delta == SimulateStep(s.(activeTime := t), dt).delta
  {
  }

  /** Arriving at and then departing from a move or shift state cancels:
      the velocity (move) or offset (shift) set on arrival is removed on
      departure. Idle states cancel trivially. */
  lemma ArrivalDepartureCancel(b: Behaviour)
    requires !b.Hit?
    ensures Add(ArrivalChanges(b), DepartureChanges(b)) == Empty
  {
    var c := Add(ArrivalChanges(b), DepartureChanges(b));
    assert c.events == [];
    match b
    case Idle =>
      assert c.physical == Zero;
    case Move(vx, vy) =>
      assert c.physical == AddDelta(Velocity(vx, vy), Velocity(-1 * vx, -1 * vy));
    case Shift(dx, dy) =>
      assert c.physical == AddDelta(Offset(dx, dy), Offset(-1 * dx, -1 * dy));
  }

  /** A shift by zero has empty arrival and departure deltas. */
  lemma ZeroShiftIsEmpty()
    ensures ArrivalChanges(Shift(0, 0)) == Empty
    ensures DepartureChanges(Shift(0, 0)) == Empty
  {
  }

  /** A hit state costs `damage` health on arrival, changes nothing else,
      and is timed out after any positive step, reporting the timeout. */
  lemma HitDeltas(id: string, damage: int, dt: int)
    requires dt > 0
    ensures ArrivalChanges(Hit(damage)).physical == Zero.(currHealth := -damage)
    ensures ArrivalChanges(Hit(damage)).events == []
    ensures DepartureChanges(Hit(damage)) == Empty && StepChanges(Hit(damage), dt) == Empty
    ensures TimedOut(SimulateStep(NewHit(id, damage), dt).state)
    ensures SimulateStep(NewHit(id, damage), dt).delta == Single(TimeoutEvent)
  {
  }
}
