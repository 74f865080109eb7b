/** The finite-state machine of `src/StateMachine.py`. States are stored by
    name; transitions are kept as a sequence in declaration order, and the
    first outgoing transition whose pattern matches an event is taken (the
    source reads them in dictionary order, which it leaves open). The
    step loop, which the source runs until the current state is no longer
    timed out, is given a fuel bound here: a result of `None` means the
    bound was reached with the current state still timed out. */
module Machines {
  import opened Options
  import opened Events
  import opened Transitions
  import opened Deltas
  import opened States

  datatype Machine = Machine(states: map<string, State>, transitions: seq<Transition>, current: string)

  /** What a machine operation returns: the updated machine and the delta
      it produced. */
  datatype Run = Run(machine: Machine, delta: SimulationDelta)

  /** Every state is stored under its own name, the current state and every
      transition endpoint are stored states. */
  predicate WellFormed(m: Machine)
  {
    m.current in m.states && NamedByKey(m.states) && EndpointsIn(m.transitions, m.states.Keys)
  }

  /** `b` stores the states of `a` under the same names, changed at most
      in their active times. */
  predicate SameUpToTimes(a: map<string, State>, b: map<string, State>)
  {
    a.Keys == b.Keys && forall k :: k in a ==> b[k] == a[k].(activeTime := b[k].activeTime)
  }

  /** Every state is stored under its own name. */
  predicate NamedByKey(ms: map<string, State>)
  {
    forall k :: k in ms ==> ms[k].name == k
  }

  /** Both endpoints of every transition are among `names`. */
  predicate EndpointsIn(ts: seq<Transition>, names: set<string>)
  {
    forall t :: t in ts ==> t.source in names && t.dest in names
  }

  /** The states of a list, stored by name (`add_node` for each state in
      order); a later state with a name already present replaces the
      earlier one. */
  function StateMap(list: seq<State>): (r: map<string, State>)
    ensures forall k :: k in r ==> r[k].name == k
    decreases |list|
  {
    if |list| == 0 then map[]
    else StateMap(list[..|list| - 1])[list[|list| - 1].name := list[|list| - 1]]
  }

  /** Every listed name is stored, and every stored state is listed. */
  lemma {:induction false} StateMapContents(list: seq<State>)
    ensures forall i :: 0 <= i < |list| ==> list[i].name in StateMap(list)
    ensures forall k :: k in StateMap(list) ==> StateMap(list)[k] in list
    decreases |list|
  {
    if |list| > 0 {
      var init := list[..|list| - 1];
      StateMapContents(init);
      assert forall i :: 0 <= i < |init| ==> init[i] == list[i];
    }
  }

  /** The state stored under a name is the last listed state of that
      name. */
  lemma {:induction false} StateMapLastWins(list: seq<State>, i: int)
    requires 0 <= i < |list| && LastNamed(list, i)
    ensures list[i].name in StateMap(list) && StateMap(list)[list[i].name] == list[i]
    decreases |list|
  {
    if i < |list| - 1 {
      var init := list[..|list| - 1];
      assert init[i] == list[i];
      assert LastNamed(init, i) by {
        forall j | i < j < |init| ensures init[j].name != init[i].name {
          assert init[j] == list[j];
        }
      }
      StateMapLastWins(init, i);
    }
  }

  /** No later state of the list has the name of the state at `i`. */
  predicate LastNamed(list: seq<State>, i: int)
    requires 0 <= i < |list|
  {
    forall j :: i < j < |list| ==> list[j].name != list[i].name
  }

  /** `__init__`: the start state is `start_id` when it is given and not
      empty, otherwise the first state's name; with neither, the source
      fails on `state_list[0]`. */
  function New(list: seq<State>, ts: seq<Transition>, start: Option<string>): (r: Option<Machine>)
    ensures r.None? <==> |list| == 0 && (start.None? || start.value == "")
    ensures r.Some? && start.Some? && start.value != "" ==> r.value.current == start.value
    ensures r.Some? && (start.None? || start.value == "") ==> r.value.current == list[0].name
    ensures r.Some? ==> r.value.transitions == ts && r.value.states == StateMap(list)
  {
    if start.Some? && start.value != "" then Some(Machine(StateMap(list), ts, start.value))
    else if |list| == 0 then None
    else Some(Machine(StateMap(list), ts, list[0].name))
  }

  /** The names of a list of states. */
  predicate Listed(list: seq<State>, name: string)
  {
    exists i :: 0 <= i < |list| && list[i].name == name
  }

  /** A machine built from a list whose names cover the start and every
      transition endpoint is well formed. */
  lemma NewWellFormed(list: seq<State>, ts: seq<Transition>, start: string)
    requires Listed(list, start)
    requires forall t :: t in ts ==> Listed(list, t.source) && Listed(list, t.dest)
    ensures New(list, ts, Some(start)).Some?
    ensures WellFormed(New(list, ts, Some(start)).value)
  {
    StateMapContents(list);
  }

  /** `_get_state`: `None` for an unknown name. */
  function LookupState(m: Machine, id: string): (r: Option<State>)
    ensures r.None? <==> id !in m.states
    ensures r.Some? ==> r.value == m.states[id]
  {
    if id in m.states then Some(m.states[id]) else None
  }

  /** The transitions of `ts` leaving `id`, in order. */
  function Leaving(ts: seq<Transition>, id: string): seq<Transition>
    decreases |ts|
  {
    if |ts| == 0 then []
    else (if ts[0].source == id then [ts[0]] else []) + Leaving(ts[1..], id)
  }

  /** `Leaving` keeps exactly the transitions of `ts` whose source is `id`:
      each kept one leaves `id` and is one of `ts`, and each of `ts` that
      leaves `id` is kept. */
  lemma {:induction false} LeavingFilters(ts: seq<Transition>, id: string)
    ensures forall i :: 0 <= i < |Leaving(ts, id)| ==> Leaving(ts, id)[i].source == id
    ensures forall i :: 0 <= i < |ts| && ts[i].source == id ==> ts[i] in Leaving(ts, id)
    ensures forall t :: t in Leaving(ts, id) ==> t in ts
    decreases |ts|
  {
    if |ts| > 0 {
      LeavingFilters(ts[1..], id);
      assert forall i :: 1 <= i < |ts| ==> ts[i] == ts[1..][i - 1];
    }
  }

  /** `_get_outgoing_transitions`: empty for an unknown state. */
  function Outgoing(m: Machine, id: string): (r: seq<Transition>)
    ensures forall t :: t in r ==> t in m.transitions && t.source == id
  {
    LeavingFilters(m.transitions, id);
    if id in m.states then Leaving(m.transitions, id) else []
  }

  /** The position of the first transition the event invokes, if any. */
  function FirstMatch(ts: seq<Transition>, e: Event): (r: Option<nat>)
    ensures r.Some? ==> r.value < |ts| && InvokedBy(ts[r.value], e)
    ensures r.Some? ==> forall j :: 0 <= j < r.value ==> !InvokedBy(ts[j], e)
    ensures r.None? ==> forall j :: 0 <= j < |ts| ==> !InvokedBy(ts[j], e)
    decreases |ts|
  {
    if |ts| == 0 then None
    else if InvokedBy(ts[0], e) then Some(0)
    else
      match FirstMatch(ts[1..], e)
      case None => None
      case Some(k) => Some(k + 1)
  }

  /** The transition taken for `e` out of `id` is the first one, in
      declaration order, that leaves `id` and is invoked by `e`. */
  lemma {:induction false} FirstLeavingMatch(ts: seq<Transition>, id: string, e: Event, k: nat)
    requires k < |ts| && ts[k].source == id && InvokedBy(ts[k], e)
    requires forall j :: 0 <= j < k && ts[j].source == id ==> !InvokedBy(ts[j], e)
    ensures FirstMatch(Leaving(ts, id), e).Some?
    ensures Leaving(ts, id)[FirstMatch(Leaving(ts, id), e).value] == ts[k]
    decreases |ts|
  {
    if k > 0 {
      assert forall j :: 0 <= j < k - 1 ==> ts[1..][j] == ts[j + 1];
      FirstLeavingMatch(ts[1..], id, e, k - 1);
      var rest := Leaving(ts[1..], id);
      if ts[0].source == id {
        assert ([ts[0]] + rest)[1..] == rest;
      } else {
        assert Leaving(ts, id) == rest;
      }
    }
  }

  /** No transition is taken for `e` out of `id` when none that leaves
      `id` is invoked by `e`. */
  lemma {:induction false} NoLeavingMatch(ts: seq<Transition>, id: string, e: Event)
    requires forall j :: 0 <= j < |ts| && ts[j].source == id ==> !InvokedBy(ts[j], e)
    ensures FirstMatch(Leaving(ts, id), e).None?
    decreases |ts|
  {
    if |ts| > 0 {
      assert forall j :: 0 <= j < |ts| - 1 ==> ts[1..][j] == ts[j + 1];
      NoLeavingMatch(ts[1..], id, e);
      var rest := Leaving(ts[1..], id);
      if ts[0].source == id {
        assert ([ts[0]] + rest)[1..] == rest;
      } else {
        assert Leaving(ts, id) == rest;
      }
    }
  }

  /** `get_current_state`. */
  function Current(m: Machine): State
    requires WellFormed(m)
  {
    m.states[m.current]
  }

  /** Replacing a stored state by one of the same name keeps the keys and
      keeps every state stored under its own name. */
  lemma ReplaceKeepsNames(ms: map<string, State>, k: string, s: State)
    requires k in ms && s.name == k
    requires NamedByKey(ms)
    ensures ms[k := s].Keys == ms.Keys
    ensures NamedByKey(ms[k := s])
  {
  }

  /** Setting the active time of one stored state changes nothing else. */
  lemma RetimeKeepsStates(ms: map<string, State>, k: string, time: int)
    requires k in ms
    ensures SameUpToTimes(ms, ms[k := ms[k].(activeTime := time)])
  {
  }

  /** Changes confined to active times compose. */
  lemma SameUpToTimesTransitive(a: map<string, State>, b: map<string, State>, c: map<string, State>)
    requires SameUpToTimes(a, b) && SameUpToTimes(b, c)
    ensures SameUpToTimes(a, c)
  {
  }

  /** A stored state with its active time restarted, as departure and
      arrival leave it; nothing else changes. */
  function Restart(ms: map<string, State>, k: string): (r: map<string, State>)
    requires k in ms
    ensures r.Keys == ms.Keys && k in r && r[k].activeTime == 0
    ensures SameUpToTimes(ms, r)
    ensures forall j :: j in ms && j != k ==> r[j] == ms[j]
    ensures NamedByKey(ms) ==> NamedByKey(r)
  {
    ms[k := ms[k].(activeTime := 0)]
  }

  /** Takes transition `t`: its source departs and its destination arrives
      (both restart their active time, even on a self-loop, the arrival
      seeing the departed state), the destination becomes current, and the
      result is departure plus arrival. */
  function Take(m: Machine, t: Transition): (r: Run)
    requires WellFormed(m) && t.source in m.states && t.dest in m.states
    ensures WellFormed(r.machine)
    ensures r.machine.transitions == m.transitions && r.machine.states.Keys == m.states.Keys
    ensures r.machine.current == t.dest
    ensures SameUpToTimes(m.states, r.machine.states)
    ensures t.dest in r.machine.states && r.machine.states[t.dest].activeTime == 0
    ensures r.delta == Add(DepartureChanges(m.states[t.source].behaviour),
                       ArrivalChanges(m.states[t.dest].behaviour))
    ensures r.delta.events == []
  {
    RestartBoth(m.states, t.source, t.dest);
    TransferHasNoEvents(m.states[t.source].behaviour, m.states[t.dest].behaviour);
    // Departure changes only the active time, so the arriving state has
    // the destination's behaviour even on a self-loop.
    Run(Machine(Restart(Restart(m.states, t.source), t.dest), m.transitions, t.dest),
        Add(DepartureChanges(m.states[t.source].behaviour), ArrivalChanges(m.states[t.dest].behaviour)))
  }

  /** Restarting the source and then the destination keeps the names and
      the naming invariant, and leaves the destination with no active
      time. */
  lemma RestartBoth(ms: map<string, State>, a: string, b: string)
    requires NamedByKey(ms) && a in ms && b in ms
    ensures var r := Restart(Restart(ms, a), b);
      r.Keys == ms.Keys && NamedByKey(r) && SameUpToTimes(ms, r) && b in r && r[b].activeTime == 0
  {
    SameUpToTimesTransitive(ms, Restart(ms, a), Restart(Restart(ms, a), b));
  }

  /** A departure followed by an arrival raises no events. */
  lemma TransferHasNoEvents(a: Behaviour, b: Behaviour)
    ensures Add(DepartureChanges(a), ArrivalChanges(b)).events == []
  {
    ChangesHaveNoEvents(a, 0);
    ChangesHaveNoEvents(b, 0);
  }

  /** `simulate_transition(e)`: the first matching outgoing transition is
      taken. With no match the machine is unchanged and the result is
      empty. Either way the result carries no events. */
  function SimulateTransition(m: Machine, e: Event): (r: Run)
    requires WellFormed(m)
    ensures WellFormed(r.machine)
    ensures r.machine.transitions == m.transitions && r.machine.states.Keys == m.states.Keys
    ensures SameUpToTimes(m.states, r.machine.states)
    ensures r.delta.events == []
    ensures FirstMatch(Outgoing(m, m.current), e).None? ==> r == Run(m, Empty)
    ensures FirstMatch(Outgoing(m, m.current), e).Some? ==>
      r == Take(m, Outgoing(m, m.current)[FirstMatch(Outgoing(m, m.current), e).value])
  {
    var outs := Outgoing(m, m.current);
    match FirstMatch(outs, e)
    case None => Run(m, Empty)
    case Some(i) =>
      assert outs[i] in m.transitions;
      Take(m, outs[i])
  }

  /** Every event of the list is a timeout notification: the list holds
      the timeout event once per entry. */
  predicate AllTimeouts(es: seq<Event>)
  {
    multiset(es)[TimeoutEvent] == |es|
  }

  /** Steps the current state by `dt` and stores the stepped state; the
      only event this can produce is the state's timeout. */
  function StepCurrent(m: Machine, dt: int): (r: Run)
    requires WellFormed(m)
    ensures WellFormed(r.machine)
    ensures r.machine.transitions == m.transitions && r.machine.current == m.current
    ensures r.machine.states.Keys == m.states.Keys
    ensures SameUpToTimes(m.states, r.machine.states)
    ensures forall k :: k in m.states && k != m.current ==> r.machine.states[k] == m.states[k]
    ensures Current(r.machine) == Current(m).(activeTime := Current(m).activeTime + dt)
    ensures r.delta == SimulateStep(Current(m), dt).delta
    ensures AllTimeouts(r.delta.events)
  {
    var stepped := SimulateStep(Current(m), dt).state;
    ReplaceKeepsNames(m.states, m.current, stepped);
    Run(m.(states := m.states[m.current := stepped]), SimulateStep(Current(m), dt).delta)
  }

  /** Concatenations of timeout-only lists are timeout-only. */
  lemma AllTimeoutsAppend(a: seq<Event>, b: seq<Event>)
    requires AllTimeouts(a) && AllTimeouts(b)
    ensures AllTimeouts(a + b)
  {
  }

  /** One round of the loop body of `simulate_step`: take the timeout
      transition, then step the (new) current state by the same `dt`. */
  function Round(m: Machine, dt: int): (r: Run)
    requires WellFormed(m)
    ensures WellFormed(r.machine)
    ensures r.machine.transitions == m.transitions && r.machine.states.Keys == m.states.Keys
    ensures SameUpToTimes(m.states, r.machine.states)
    ensures AllTimeouts(r.delta.events)
  {
    var t := SimulateTransition(m, TimeoutEvent);
    var s := StepCurrent(t.machine, dt);
    AllTimeoutsAppend(t.delta.events, s.delta.events);
    Run(s.machine, Add(t.delta, s.delta))
  }

  /** The `while` loop of `simulate_step`, repeated while the current state
      is timed out, accumulating the rounds' deltas in order after `acc`. */
  function Settle(m: Machine, dt: int, fuel: nat, acc: SimulationDelta): (r: Option<Run>)
    requires WellFormed(m)
    ensures r.Some? ==> WellFormed(r.value.machine) && !TimedOut(Current(r.value.machine))
    ensures r.Some? ==> r.value.machine.transitions == m.transitions && r.value.machine.states.Keys == m.states.Keys
    ensures r.Some? ==> SameUpToTimes(m.states, r.value.machine.states)
    ensures r.Some? && AllTimeouts(acc.events) ==> AllTimeouts(r.value.delta.events)
    ensures !TimedOut(Current(m)) ==> r == Some(Run(m, acc))
    decreases fuel
  {
    if !TimedOut(Current(m)) then Some(Run(m, acc))
    else if fuel == 0 then None
    else
      var rd := Round(m, dt);
      var acc' := Add(acc, rd.delta);
      assert AllTimeouts(acc.events) ==> AllTimeouts(acc'.events);
      Settle(rd.machine, dt, fuel - 1, acc')
  }

  /** `simulate_step(dt)`: the current state is stepped once, then the
      timeout loop runs with at most `fuel` rounds. When it returns, the
      current state is not timed out, and every event produced is a
      timeout notification. */
  function Step(m: Machine, dt: int, fuel: nat): (r: Option<Run>)
    requires WellFormed(m)
    ensures r.Some? ==> WellFormed(r.value.machine) && !TimedOut(Current(r.value.machine))
    ensures r.Some? ==> r.value.machine.transitions == m.transitions && r.value.machine.states.Keys == m.states.Keys
    ensures r.Some? ==> SameUpToTimes(m.states, r.value.machine.states)
    ensures r.Some? ==> AllTimeouts(r.value.delta.events)
  {
    var s := StepCurrent(m, dt);
    Settle(s.machine, dt, fuel, Add(Empty, s.delta))
  }

  /** Arrival and departure deltas carry no events. */
  lemma ChangesHaveNoEvents(b: Behaviour, dt: int)
    ensures ArrivalChanges(b).events == [] && DepartureChanges(b).events == []
    ensures StepChanges(b, dt).events == []
  {
  }

  /** An unknown state has no state object and no outgoing transitions. */
  lemma UnknownStateLookups(m: Machine, id: string)
    requires id !in m.states
    ensures LookupState(m, id) == None
    ensures Outgoing(m, id) == []
  {
  }

  /** Without a matching transition nothing changes; with one, the
      destination becomes current. */
  lemma TransitionTakesFirstMatch(m: Machine, e: Event, i: nat)
    requires WellFormed(m)
    requires i < |Outgoing(m, m.current)| && InvokedBy(Outgoing(m, m.current)[i], e)
    requires forall j :: 0 <= j < i ==> !InvokedBy(Outgoing(m, m.current)[j], e)
    ensures SimulateTransition(m, e).machine.current == Outgoing(m, m.current)[i].dest
  {
    var r := FirstMatch(Outgoing(m, m.current), e);
    assert r.Some? && r.value == i;
  }

  /** A step that leaves the current state within its timeout runs no
      round of the loop: the state stays current with its active time
      grown by `dt`, and the result is that state's step changes. */
  lemma StepWithinTimeout(m: Machine, dt: int, fuel: nat)
    requires WellFormed(m)
    requires !TimedOut(Current(m).(activeTime := Current(m).activeTime + dt))
    ensures Step(m, dt, fuel).Some?
    ensures Step(m, dt, fuel).value.machine.current == m.current
    ensures Current(Step(m, dt, fuel).value.machine) == Current(m).(activeTime := Current(m).activeTime + dt)
    ensures Step(m, dt, fuel).value.delta == StepChanges(Current(m).behaviour, dt)
  {
    StepCurrentWithin(m, dt);
    StepSettlesAtOnce(m, dt, fuel);
  }

  /** Stepping the current state within its timeout keeps it current and
      yields its variant's step changes. */
  lemma StepCurrentWithin(m: Machine, dt: int)
    requires WellFormed(m)
    requires !TimedOut(Current(m).(activeTime := Current(m).activeTime + dt))
    ensures !TimedOut(Current(StepCurrent(m, dt).machine))
    ensures StepCurrent(m, dt).machine.current == m.current
    ensures Current(StepCurrent(m, dt).machine) == Current(m).(activeTime := Current(m).activeTime + dt)
    ensures StepCurrent(m, dt).delta == StepChanges(Current(m).behaviour, dt)
  {
  }

  /** When the stepped state is within its timeout, `Step` is the single
      step of the current state. */
  lemma StepSettlesAtOnce(m: Machine, dt: int, fuel: nat)
    requires WellFormed(m)
    requires !TimedOut(Current(StepCurrent(m, dt).machine))
    ensures Step(m, dt, fuel) == Some(StepCurrent(m, dt))
  {
    EmptyIsIdentity(StepCurrent(m, dt).delta);
  }

  /** A round out of a state whose timeout transition is `t` makes `t`'s
      destination current, with active time `dt` and no event unless that
      state times out again. */
  lemma RoundTakesTimeout(m: Machine, dt: int, t: Transition)
    requires WellFormed(m)
    requires FirstMatch(Outgoing(m, m.current), TimeoutEvent).Some?
    requires t == Outgoing(m, m.current)[FirstMatch(Outgoing(m, m.current), TimeoutEvent).value]
    ensures t.dest in m.states
    ensures Round(m, dt).machine.current == t.dest
    ensures Current(Round(m, dt).machine) == m.states[t.dest].(activeTime := dt)
    ensures !TimedOut(Current(Round(m, dt).machine)) ==> Round(m, dt).delta.events == []
  {
    var tr := SimulateTransition(m, TimeoutEvent);
    assert tr.machine.current == t.dest;
    assert Current(tr.machine) == m.states[t.dest].(activeTime := 0);
    var s := StepCurrent(tr.machine, dt);
    assert Round(m, dt) == Run(s.machine, Add(tr.delta, s.delta));
    assert Current(s.machine) == m.states[t.dest].(activeTime := dt);
  }

  /** When one round ends the timeouts, the loop stops after it. */
  lemma SettleOneRound(m: Machine, dt: int, fuel: nat, acc: SimulationDelta)
    requires WellFormed(m) && fuel >= 1 && TimedOut(Current(m))
    requires !TimedOut(Current(Round(m, dt).machine))
    ensures Settle(m, dt, fuel, acc) == Some(Run(Round(m, dt).machine, Add(acc, Round(m, dt).delta)))
  {
  }

  /** A step whose loop runs one round is the step's own delta followed by
      that round's. */
  lemma StepIsOneRound(m: Machine, dt: int, fuel: nat, t: Transition)
    requires WellFormed(m) && fuel >= 1
    requires TimedOut(Current(m).(activeTime := Current(m).activeTime + dt))
    requires FirstMatch(Outgoing(m, m.current), TimeoutEvent).Some?
    requires t == Outgoing(m, m.current)[FirstMatch(Outgoing(m, m.current), TimeoutEvent).value]
    requires !TimedOut(m.states[t.dest].(activeTime := dt))
    ensures var s := StepCurrent(m, dt); var rd := Round(s.machine, dt);
      Step(m, dt, fuel) == Some(Run(rd.machine, Add(Add(Empty, s.delta), rd.delta)))
  {
    var s := StepCurrent(m, dt);
    assert Outgoing(s.machine, s.machine.current) == Outgoing(m, m.current);
    RoundTakesTimeout(s.machine, dt, t);
    assert !TimedOut(Current(Round(s.machine, dt).machine));
    SettleOneRound(s.machine, dt, fuel, Add(Empty, s.delta));
  }

  /** A step that times the current state out runs one round when the
      state the timeout leads to is still within its timeout after `dt`:
      that state becomes current with active time `dt`, and the only event
      is the one timeout. */
  lemma StepCrossesOnce(m: Machine, dt: int, fuel: nat, t: Transition)
    requires WellFormed(m) && fuel >= 1
    requires TimedOut(Current(m).(activeTime := Current(m).activeTime + dt))
    requires FirstMatch(Outgoing(m, m.current), TimeoutEvent).Some?
    requires t == Outgoing(m, m.current)[FirstMatch(Outgoing(m, m.current), TimeoutEvent).value]
    requires !TimedOut(m.states[t.dest].(activeTime := dt))
    ensures Step(m, dt, fuel).Some? && Step(m, dt, fuel).value.machine.current == t.dest
    ensures Current(Step(m, dt, fuel).value.machine).activeTime == dt
    ensures |Step(m, dt, fuel).value.delta.events| == 1 && AllTimeouts(Step(m, dt, fuel).value.delta.events)
  {
    var s := StepCurrent(m, dt);
    assert Outgoing(s.machine, s.machine.current) == Outgoing(m, m.current);
    RoundTakesTimeout(s.machine, dt, t);
    StepIsOneRound(m, dt, fuel, t);
    var rd := Round(s.machine, dt);
    var acc := Add(Empty, s.delta);
    var r := Step(m, dt, fuel);
    assert r == Some(Run(rd.machine, Add(acc, rd.delta)));
    assert r.value.machine == rd.machine;
    assert rd.machine.current == t.dest;
    assert r.value.machine.current == t.dest;
    assert |s.delta.events| == 1;
    assert |rd.delta.events| == 0;
  }

  /** Whether the transition at `i` is the last one declared between its
      two states. */
  predicate LastOfPair(ts: seq<Transition>, i: int)
    requires 0 <= i < |ts|
  {
    forall j :: i < j < |ts| ==> ts[j].source != ts[i].source || ts[j].dest != ts[i].dest
  }

  /** The transitions the source's `NX.DiGraph` keeps: `add_edge` between
      two states already joined replaces the edge's transition, so only the
      last transition declared per (source, destination) pair survives.
      (The source then reads a state's outgoing edges in the order of the
      graph's adjacency dictionary, which the language leaves unspecified;
      the model reads them in declaration order.) */
  function KeptEdges(ts: seq<Transition>): (r: seq<Transition>)
    ensures forall t :: t in r ==> t in ts
    decreases |ts|
  {
    if |ts| == 0 then [] else (if LastOfPair(ts, 0) then [ts[0]] else []) + KeptEdges(ts[1..])
  }

  /** The kept transitions are exactly the last ones of their pairs. */
  lemma {:induction false} KeptAreLast(ts: seq<Transition>)
    ensures forall t :: t in KeptEdges(ts) ==> exists i :: 0 <= i < |ts| && ts[i] == t && LastOfPair(ts, i)
    ensures forall i :: 0 <= i < |ts| && LastOfPair(ts, i) ==> ts[i] in KeptEdges(ts)
    decreases |ts|
  {
    if |ts| > 0 {
      var rest := ts[1..];
      KeptAreLast(rest);
      forall i | 1 <= i < |ts|
        ensures LastOfPair(ts, i) <==> LastOfPair(rest, i - 1)
      {
        assert forall j :: i < j < |ts| ==> ts[j] == rest[j - 1];
      }
      forall t | t in KeptEdges(ts)
        ensures exists i :: 0 <= i < |ts| && ts[i] == t && LastOfPair(ts, i)
      {
        if t in KeptEdges(rest) {
          var i :| 0 <= i < |rest| && rest[i] == t && LastOfPair(rest, i);
          assert ts[i + 1] == t && LastOfPair(ts, i + 1);
        } else {
          assert t == ts[0] && LastOfPair(ts, 0);
        }
      }
      forall i | 0 <= i < |ts| && LastOfPair(ts, i)
        ensures ts[i] in KeptEdges(ts)
      {
        if i > 0 {
          assert rest[i - 1] == ts[i];
        }
      }
    }
  }

  /** A round out of a state with no transition for the timeout event
      takes none: the state stays current and only its active time
      grows. */
  lemma RoundWithoutTimeoutEdge(m: Machine, dt: int)
    requires WellFormed(m)
    requires FirstMatch(Outgoing(m, m.current), TimeoutEvent).None?
    ensures Round(m, dt).machine.current == m.current
    ensures Current(Round(m, dt).machine) == Current(m).(activeTime := Current(m).activeTime + dt)
    ensures Outgoing(Round(m, dt).machine, m.current) == Outgoing(m, m.current)
  {
    assert SimulateTransition(m, TimeoutEvent).machine == m;
  }

  /** A round from a timed-out current state without a timeout edge
      leaves it current, timed out and still without such an edge: the
      condition of the loop of `simulate_step` holds again after every
      round, so the loop never ends. */
  lemma SpinPersists(m: Machine, dt: int)
    requires WellFormed(m) && dt >= 0 && TimedOut(Current(m))
    requires FirstMatch(Outgoing(m, m.current), TimeoutEvent).None?
    ensures var m' := Round(m, dt).machine;
      WellFormed(m') && TimedOut(Current(m')) && m'.current == m.current
      && FirstMatch(Outgoing(m', m'.current), TimeoutEvent).None?
  {
    RoundWithoutTimeoutEdge(m, dt);
  }

  /** In particular the loop bounded by one round gives up. */
  lemma SpinOnce(m: Machine, dt: int, acc: SimulationDelta)
    requires WellFormed(m) && dt >= 0 && TimedOut(Current(m))
    requires FirstMatch(Outgoing(m, m.current), TimeoutEvent).None?
    ensures Settle(m, dt, 1, acc).None?
  {
    SpinPersists(m, dt);
  }
}
