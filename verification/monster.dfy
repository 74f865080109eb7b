/** The monster of `src/Monster.py`: eight states with a common timeout of
    100 ticks that wander in a fixed cycle, idle and move states
    alternating, and leave a move state early on a collision. */
module Monster {
  import opened Options
  import opened Strings
  import opened Geometry
  import opened Events
  import opened Physics
  import opened Transitions
  import opened States
  import opened Deltas
  import opened Machines

  /** `timeout = 100`, shared by every state. */
  const Limit := 100

  /** The wander cycle: each state's timeout leads to the next, and the
      last leads back to the first. */
  const Cycle: seq<string> :=
    ["idle_1", "move_up", "idle_2", "move_left", "idle_3", "move_down", "idle_4", "move_right"]

  /** The eight states, in declaration order. */
  const StateList: seq<State> := [
    NewIdle("1", Finite(Limit)),
    NewIdle("2", Finite(Limit)),
    NewIdle("3", Finite(Limit)),
    NewIdle("4", Finite(Limit)),
    NewMove("up", 0, -1, Finite(Limit)),
    NewMove("down", 0, 1, Finite(Limit)),
    NewMove("left", -1, 0, Finite(Limit)),
    NewMove("right", 1, 0, Finite(Limit))
  ]

  /** The twelve transitions, in declaration order; `.*timeout.*` and
      `.*collision.*` are searches for the literal text. */
  const Edges: seq<Transition> := [
    Transition("idle_1", "move_up", Literal("timeout")),
    Transition("idle_2", "move_left", Literal("timeout")),
    Transition("idle_4", "move_right", Literal("timeout")),
    Transition("idle_3", "move_down", Literal("timeout")),
    Transition("move_up", "idle_2", Literal("timeout")),
    Transition("move_left", "idle_3", Literal("timeout")),
    Transition("move_right", "idle_1", Literal("timeout")),
    Transition("move_down", "idle_4", Literal("timeout")),
    Transition("move_up", "idle_2", Literal("collision")),
    Transition("move_left", "idle_3", Literal("collision")),
    Transition("move_right", "idle_1", Literal("collision")),
    Transition("move_down", "idle_4", Literal("collision"))
  ]

  /** `_produce_machine`: the machine starts in `idle_1`. */
  function Produce(): Option<Machine>
  {
    Machines.New(StateList, Edges, Some("idle_1"))
  }

  /** `_produce_physical`: a 20 by 40 body at the origin, at rest, of
      unit mass. */
  function Body(): (p: PhysicalState)
    ensures p.volume == Rect(0, 0, 20, 40) && Positive(p.volume)
    ensures p.vx == 0 && p.vy == 0 && p.mass == 1
  {
    Physics.New(Some(Rect(0, 0, 20, 40)), 0, 0, 1)
  }

  /** The state that follows position `i` of the cycle. */
  function Next(i: nat): string
    requires i < |Cycle|
  {
    Cycle[(i + 1) % |Cycle|]
  }

  /** The names of the eight states, in declaration order. */
  lemma StateListNames()
    ensures |StateList| == 8
    ensures StateList[0].name == "idle_1" && StateList[1].name == "idle_2"
    ensures StateList[2].name == "idle_3" && StateList[3].name == "idle_4"
    ensures StateList[4].name == "move_up" && StateList[5].name == "move_down"
    ensures StateList[6].name == "move_left" && StateList[7].name == "move_right"
  {
  }

  /** Every state of the cycle is one of the declared states. */
  lemma CycleListed(i: int)
    requires 0 <= i < |Cycle|
    ensures Listed(StateList, Cycle[i])
  {
    StateListNames();
    if i == 0 { assert StateList[0].name == Cycle[i]; }
    else if i == 1 { assert StateList[4].name == Cycle[i]; }
    else if i == 2 { assert StateList[1].name == Cycle[i]; }
    else if i == 3 { assert StateList[6].name == Cycle[i]; }
    else if i == 4 { assert StateList[2].name == Cycle[i]; }
    else if i == 5 { assert StateList[5].name == Cycle[i]; }
    else if i == 6 { assert StateList[3].name == Cycle[i]; }
    else { assert StateList[7].name == Cycle[i]; }
  }

  /** The cycle visits eight different states. */
  lemma CycleDistinct(i: nat, j: nat)
    requires i < |Cycle| && j < |Cycle| && i != j
    ensures Cycle[i] != Cycle[j]
  {
    assert Cycle[i][5] != Cycle[j][5];
  }

  /** Position in the cycle of the source of each edge. */
  const SourceAt: seq<nat> := [0, 2, 6, 4, 1, 3, 7, 5, 1, 3, 7, 5]

  /** Every edge leads from a state of the cycle to the next one: the first
      eight, on a timeout, from every state; the last four, on a collision,
      from the move states. */
  lemma EdgesFollowCycle(k: nat)
    requires k < |Edges|
    ensures SourceAt[k] < |Cycle|
    ensures Edges[k] == Transition(Cycle[SourceAt[k]], Next(SourceAt[k]),
                                   if k < 8 then Literal("timeout") else Literal("collision"))
    ensures k >= 8 ==> SourceAt[k] % 2 == 1
  {
  }

  /** The produced machine is well formed, starts in `idle_1` and holds the
      twelve transitions. */
  lemma ProducedMachine()
    ensures Produce().Some? && WellFormed(Produce().value)
    ensures Produce().value.current == "idle_1" && Produce().value.transitions == Edges
  {
    forall t | t in Edges
      ensures Listed(StateList, t.source) && Listed(StateList, t.dest)
    {
      var k :| 0 <= k < |Edges| && Edges[k] == t;
      EdgesFollowCycle(k);
      CycleListed(SourceAt[k]);
      CycleListed((SourceAt[k] + 1) % |Cycle|);
    }
    CycleListed(0);
    NewWellFormed(StateList, Edges, "idle_1");
  }

  /** `Event(EventType.COLLISION, {})`, the collision the monster's tests
      notify it of. */
  const CollisionEvent := Event(Collision, [])

  /** The `.*timeout.*` edges fire exactly for events whose repr contains
      `timeout`, the `.*collision.*` edges for every collision; a timeout
      invokes no collision edge and the parameterless collision no
      timeout edge. */
  lemma PatternsSeparateEvents(a: string, b: string, e: Event)
    ensures InvokedBy(Transition(a, b, Literal("timeout")), e) <==> Occurs("timeout", Repr(e))
    ensures e.kind == Collision ==> InvokedBy(Transition(a, b, Literal("collision")), e)
    ensures InvokedBy(Transition(a, b, Literal("timeout")), TimeoutEvent)
    ensures !InvokedBy(Transition(a, b, Literal("collision")), TimeoutEvent)
    ensures !InvokedBy(Transition(a, b, Literal("timeout")), CollisionEvent)
  {
    assert e.kind == Collision ==> Occurs("collision", Repr(e)) by {
      if e.kind == Collision {
        EmptyRenderings(Collision);
        KindPatternMatchesAnyParameters(a, b, Collision, e.params);
      }
    }
    assert Occurs("timeout", Repr(TimeoutEvent)) by {
      EmptyRenderings(Events.Timeout);
      PrefixOccurs("timeout", "timeout");
    }
    assert !Occurs("collision", Repr(TimeoutEvent)) by {
      EmptyRenderings(Events.Timeout);
      LongerNeverOccurs("collision", "timeout");
    }
    assert !Occurs("timeout", Repr(CollisionEvent)) by {
      EmptyRenderings(Collision);
      FirstCharAbsent("timeout", "collision");
    }
  }

  /** Position among the edges of the timeout edge out of each state of
      the cycle. */
  const TimeoutEdge: seq<nat> := [0, 4, 1, 5, 3, 7, 2, 6]

  /** The timeout edge out of a state of the cycle leads to the next
      state. */
  lemma TimeoutEdgeLeadsOn(i: nat)
    requires i < |Cycle|
    ensures TimeoutEdge[i] < 8
    ensures Edges[TimeoutEdge[i]] == Transition(Cycle[i], Next(i), Literal("timeout"))
  {
    EdgesFollowCycle(TimeoutEdge[i]);
  }

  /** No edge before the timeout edge out of a state leaves that state. */
  lemma TimeoutEdgeIsFirst(i: nat)
    requires i < |Cycle|
    ensures forall j :: 0 <= j < TimeoutEdge[i] ==> Edges[j].source != Cycle[i]
  {
    forall j | 0 <= j < TimeoutEdge[i]
      ensures Edges[j].source != Cycle[i]
    {
      EdgesFollowCycle(j);
      CycleDistinct(SourceAt[j], i);
    }
  }

  /** Position among the edges of the collision edge out of each move
      state, the move state at position `i` of the cycle being entry
      `i / 2`. */
  const CollisionEdge: seq<nat> := [8, 9, 11, 10]

  /** The collision edge out of a move state leads to the next state, and
      no collision edge before it leaves that state. */
  lemma CollisionEdgeLeadsOn(i: nat)
    requires i < |Cycle| && i % 2 == 1
    ensures 8 <= CollisionEdge[i / 2] < |Edges|
    ensures Edges[CollisionEdge[i / 2]] == Transition(Cycle[i], Next(i), Literal("collision"))
    ensures forall j :: 8 <= j < CollisionEdge[i / 2] ==> Edges[j].source != Cycle[i]
  {
    EdgesFollowCycle(CollisionEdge[i / 2]);
    forall j | 8 <= j < CollisionEdge[i / 2]
      ensures Edges[j].source != Cycle[i]
    {
      EdgesFollowCycle(j);
      CycleDistinct(SourceAt[j], i);
    }
  }

  /** No collision edge leaves an idle state. */
  lemma NoCollisionEdgeFromIdle(i: nat)
    requires i < |Cycle| && i % 2 == 0
    ensures forall j :: 8 <= j < |Edges| ==> Edges[j].source != Cycle[i]
  {
    forall j | 8 <= j < |Edges|
      ensures Edges[j].source != Cycle[i]
    {
      EdgesFollowCycle(j);
      CycleDistinct(SourceAt[j], i);
    }
  }

  /** On a timeout every state of the cycle passes to the next one. */
  lemma TimeoutFollowsCycle(i: nat)
    requires i < |Cycle|
    ensures FirstMatch(Leaving(Edges, Cycle[i]), TimeoutEvent).Some?
    ensures Leaving(Edges, Cycle[i])[FirstMatch(Leaving(Edges, Cycle[i]), TimeoutEvent).value].dest == Next(i)
  {
    TimeoutEdgeLeadsOn(i);
    PatternsSeparateEvents(Cycle[i], Next(i), TimeoutEvent);
    TimeoutEdgeIsFirst(i);
    FirstLeavingMatch(Edges, Cycle[i], TimeoutEvent, TimeoutEdge[i]);
  }

  /** On any collision a move state passes to the next state of the
      cycle. */
  lemma CollisionFollowsCycle(i: nat, e: Event)
    requires i < |Cycle| && i % 2 == 1 && e.kind == Collision
    ensures FirstMatch(Leaving(Edges, Cycle[i]), e).Some?
    ensures Leaving(Edges, Cycle[i])[FirstMatch(Leaving(Edges, Cycle[i]), e).value].dest == Next(i)
  {
    TimeoutEdgeLeadsOn(i);
    CollisionEdgeLeadsOn(i);
    PatternsSeparateEvents(Cycle[i], Next(i), e);
    if Occurs("timeout", Repr(e)) {
      TimeoutEdgeIsFirst(i);
      FirstLeavingMatch(Edges, Cycle[i], e, TimeoutEdge[i]);
    } else {
      forall j | 0 <= j < 8
        ensures !InvokedBy(Edges[j], e)
      {
        EdgesFollowCycle(j);
        PatternsSeparateEvents(Edges[j].source, Edges[j].dest, e);
      }
      FirstLeavingMatch(Edges, Cycle[i], e, CollisionEdge[i / 2]);
    }
  }

  /** An idle state ignores a collision whose repr does not mention a
      timeout, such as the parameterless one. */
  lemma IdleIgnoresCollision(i: nat, e: Event)
    requires i < |Cycle| && i % 2 == 0 && e.kind == Collision
    requires !Occurs("timeout", Repr(e))
    ensures FirstMatch(Leaving(Edges, Cycle[i]), e).None?
  {
    NoCollisionEdgeFromIdle(i);
    forall j | 0 <= j < 8
      ensures !InvokedBy(Edges[j], e)
    {
      EdgesFollowCycle(j);
      PatternsSeparateEvents(Edges[j].source, Edges[j].dest, e);
    }
    NoLeavingMatch(Edges, Cycle[i], e);
  }

  /** In `ts`, the timeout out of the `j`-th state of the cycle leads to
      the next one. */
  predicate TimeoutLeadsOn(ts: seq<Transition>, j: nat)
    requires j < |Cycle|
  {
    var outs := Leaving(ts, Cycle[j]);
    FirstMatch(outs, TimeoutEvent).Some? && outs[FirstMatch(outs, TimeoutEvent).value].dest == Next(j)
  }

  /** In `ts`, the timeouts lead around the cycle. */
  predicate Wired(ts: seq<Transition>)
  {
    forall j :: 0 <= j < |Cycle| ==> TimeoutLeadsOn(ts, j)
  }

  /** The monster's transitions lead around the cycle on timeouts. */
  lemma EdgesWired()
    ensures Wired(Edges)
  {
    forall j | 0 <= j < |Cycle|
      ensures TimeoutLeadsOn(Edges, j)
    {
      TimeoutFollowsCycle(j);
    }
  }

  /** The monster's machine at position `i` of the cycle: transitions that
      lead around the cycle on timeouts, the `i`-th state of the cycle
      current and within its timeout, and every stored state with the
      common timeout. */
  predicate At(m: Machine, i: nat)
  {
    i < |Cycle| && WellFormed(m) && Wired(m.transitions) && m.current == Cycle[i]
    && (forall k :: k in m.states ==> m.states[k].timeout == Finite(Limit))
    && !TimedOut(Current(m))
  }

  /** The produced machine is at the start of the cycle, not yet active. */
  lemma ProducedAtStart()
    ensures Produce().Some? && At(Produce().value, 0)
    ensures Current(Produce().value).activeTime == 0
  {
    ProducedMachine();
    EdgesWired();
    StateMapContents(StateList);
    assert forall s :: s in StateList ==> s.timeout == Finite(Limit) && s.activeTime == 0;
  }

  /** Stored timeouts survive any change confined to active times. */
  lemma TimeoutsKept(a: map<string, State>, b: map<string, State>)
    requires SameUpToTimes(a, b)
    requires forall k :: k in a ==> a[k].timeout == Finite(Limit)
    ensures forall k :: k in b ==> b[k].timeout == Finite(Limit)
  {
    forall k | k in b
      ensures b[k].timeout == Finite(Limit)
    {
      assert b[k] == a[k].(activeTime := b[k].activeTime);
    }
  }

  /** A machine that differs from one on the cycle only in active times
      and the current state is on the cycle at the new current state's
      position, if that state is within its timeout. */
  lemma AtAgain(m: Machine, i: nat, m2: Machine, j: nat)
    requires At(m, i) && j < |Cycle|
    requires WellFormed(m2) && m2.transitions == m.transitions && SameUpToTimes(m.states, m2.states)
    requires m2.current == Cycle[j] && !TimedOut(Current(m2))
    ensures At(m2, j)
  {
    TimeoutsKept(m.states, m2.states);
  }

  /** A step that leaves the current state within its timeout keeps the
      monster where it is, accumulating the time, with no event. */
  lemma StepStaysWithinTimeout(m: Machine, i: nat, dt: int, fuel: nat)
    requires At(m, i) && Current(m).activeTime + dt <= Limit
    ensures Step(m, dt, fuel).Some?
    ensures At(Step(m, dt, fuel).value.machine, i)
    ensures Current(Step(m, dt, fuel).value.machine).activeTime == Current(m).activeTime + dt
    ensures Step(m, dt, fuel).value.delta.events == []
  {
    StepWithinTimeout(m, dt, fuel);
    ChangesHaveNoEvents(Current(m).behaviour, dt);
    AtAgain(m, i, Step(m, dt, fuel).value.machine, i);
  }

  /** At position `i`, the timeout transition leads to the next state of
      the cycle. */
  lemma TimeoutTransitionAt(m: Machine, i: nat)
    requires At(m, i)
    ensures FirstMatch(Outgoing(m, m.current), TimeoutEvent).Some?
    ensures Outgoing(m, m.current)[FirstMatch(Outgoing(m, m.current), TimeoutEvent).value].dest == Next(i)
  {
    assert TimeoutLeadsOn(m.transitions, i);
  }

  /** A step of at most the timeout that takes the current state past it
      lands on the next state of the cycle, active for exactly the step,
      reporting one timeout. */
  lemma StepLandsOnNext(m: Machine, i: nat, dt: int, fuel: nat)
    requires At(m, i) && dt <= Limit && fuel >= 1
    requires Current(m).activeTime + dt > Limit
    ensures Step(m, dt, fuel).Some?
    ensures Step(m, dt, fuel).value.machine.current == Next(i)
    ensures Current(Step(m, dt, fuel).value.machine).activeTime == dt
    ensures |Step(m, dt, fuel).value.delta.events| == 1 && AllTimeouts(Step(m, dt, fuel).value.delta.events)
  {
    TimeoutTransitionAt(m, i);
    var outs := Outgoing(m, m.current);
    StepCrossesOnce(m, dt, fuel, outs[FirstMatch(outs, TimeoutEvent).value]);
  }

  /** Such a step keeps the monster on the cycle, one position on. */
  lemma StepMovesOnCycle(m: Machine, i: nat, dt: int, fuel: nat)
    requires At(m, i) && dt <= Limit && fuel >= 1
    requires Current(m).activeTime + dt > Limit
    ensures Step(m, dt, fuel).Some?
    ensures At(Step(m, dt, fuel).value.machine, (i + 1) % |Cycle|)
    ensures Current(Step(m, dt, fuel).value.machine).activeTime == dt
  {
    StepLandsOnNext(m, i, dt, fuel);
    AtAgain(m, i, Step(m, dt, fuel).value.machine, (i + 1) % |Cycle|);
  }

  /** A collision takes a monster in a move state to the next state of
      the cycle, which restarts its active time. */
  lemma CollisionLandsOnNext(m: Machine, i: nat, e: Event)
    requires At(m, i) && i % 2 == 1 && e.kind == Collision && m.transitions == Edges
    ensures SimulateTransition(m, e).machine.current == Next(i)
    ensures Current(SimulateTransition(m, e).machine).activeTime == 0
  {
    assert Outgoing(m, m.current) == Leaving(Edges, Cycle[i]);
    CollisionFollowsCycle(i, e);
  }

  /** Such a collision keeps the monster on the cycle, one position on. */
  lemma CollisionMovesOn(m: Machine, i: nat, e: Event)
    requires At(m, i) && i % 2 == 1 && e.kind == Collision && m.transitions == Edges
    ensures At(SimulateTransition(m, e).machine, (i + 1) % |Cycle|)
  {
    CollisionLandsOnNext(m, i, e);
    AtAgain(m, i, SimulateTransition(m, e).machine, (i + 1) % |Cycle|);
  }

  /** An idle monster ignores a collision whose repr does not mention a
      timeout: the machine is unchanged and the result empty. */
  lemma IdleIgnoresCollisionAt(m: Machine, i: nat, e: Event)
    requires At(m, i) && i % 2 == 0 && e.kind == Collision && m.transitions == Edges
    requires !Occurs("timeout", Repr(e))
    ensures SimulateTransition(m, e) == Run(m, Empty)
  {
    assert Outgoing(m, m.current) == Leaving(Edges, Cycle[i]);
    IdleIgnoresCollision(i, e);
  }

  /** Where the monster is on the cycle and how long it has been there. */
  datatype Position = Position(index: nat, time: int)

  /** The reference behaviour of one update, by arithmetic alone: an
      update that keeps the time within the timeout adds to it, one that
      passes the timeout moves one position on and starts the time at the
      update's own length. */
  function Advance(p: Position, dt: int): (r: Position)
    requires p.index < |Cycle|
    ensures r.index < |Cycle|
  {
    if p.time + dt <= Limit then Position(p.index, p.time + dt)
    else Position((p.index + 1) % |Cycle|, dt)
  }

  /** The reference behaviour of a series of updates. */
  function Track(p: Position, dts: seq<int>): (r: Position)
    requires p.index < |Cycle|
    ensures r.index < |Cycle|
    decreases |dts|
  {
    if |dts| == 0 then p else Track(Advance(p, dts[0]), dts[1..])
  }

  /** An update that stays within the timeout follows the reference. */
  lemma StepWithinFollowsAdvance(m: Machine, i: nat, dt: int, fuel: nat)
    requires At(m, i) && Current(m).activeTime + dt <= Limit
    ensures Step(m, dt, fuel).Some?
    ensures At(Step(m, dt, fuel).value.machine, Advance(Position(i, Current(m).activeTime), dt).index)
    ensures Current(Step(m, dt, fuel).value.machine).activeTime == Advance(Position(i, Current(m).activeTime), dt).time
  {
    StepStaysWithinTimeout(m, i, dt, fuel);
  }

  /** An update that crosses the timeout follows the reference. */
  lemma StepPastFollowsAdvance(m: Machine, i: nat, dt: int, fuel: nat)
    requires At(m, i) && dt <= Limit && fuel >= 1 && Current(m).activeTime + dt > Limit
    ensures Step(m, dt, fuel).Some?
    ensures At(Step(m, dt, fuel).value.machine, Advance(Position(i, Current(m).activeTime), dt).index)
    ensures Current(Step(m, dt, fuel).value.machine).activeTime == Advance(Position(i, Current(m).activeTime), dt).time
  {
    assert Advance(Position(i, Current(m).activeTime), dt) == Position((i + 1) % |Cycle|, dt);
    StepMovesOnCycle(m, i, dt, fuel);
  }

  /** The monster's updates follow the reference: after a series of
      updates, none longer than the timeout, the machine is on the cycle
      at the position and with the active time the reference gives. */
  method Replay(m: Machine, i: nat, dts: seq<int>, fuel: nat) returns (r: Machine)
    requires At(m, i) && fuel >= 1
    requires forall k :: 0 <= k < |dts| ==> dts[k] <= Limit
    ensures At(r, Track(Position(i, Current(m).activeTime), dts).index)
    ensures Current(r).activeTime == Track(Position(i, Current(m).activeTime), dts).time
  {
    r := m;
    var pos: nat := i;
    var k := 0;
    while k < |dts|
      invariant 0 <= k <= |dts|
      invariant At(r, pos)
      invariant Track(Position(pos, Current(r).activeTime), dts[k..]) == Track(Position(i, Current(m).activeTime), dts)
    {
      var dt := dts[k];
      assert dts[k..][1..] == dts[k + 1..];
      var next := Advance(Position(pos, Current(r).activeTime), dt);
      if Current(r).activeTime + dt <= Limit {
        StepWithinFollowsAdvance(r, pos, dt, fuel);
      } else {
        StepPastFollowsAdvance(r, pos, dt, fuel);
      }
      r := Step(r, dt, fuel).value.machine;
      pos := next.index;
      k := k + 1;
    }
  }

  /** A freshly produced monster under a series of updates, none longer
      than the timeout, is where the reference puts a walk from the start
      of the cycle. */
  method Wander(dts: seq<int>, fuel: nat) returns (r: Machine)
    requires fuel >= 1
    requires forall k :: 0 <= k < |dts| ==> dts[k] <= Limit
    ensures At(r, Track(Position(0, 0), dts).index)
    ensures Current(r).activeTime == Track(Position(0, 0), dts).time
  {
    ProducedAtStart();
    r := Replay(Produce().value, 0, dts, fuel);
  }

  /** Even positions of the cycle are idle states and odd ones move
      states. */
  lemma CycleAlternates(i: nat)
    requires i < |Cycle|
    ensures i % 2 == 0 <==> Cycle[i][..5] == "idle_"
    ensures i % 2 == 1 <==> Cycle[i][..5] == "move_"
  {
    if i % 2 == 0 {
      assert Cycle[i][..5] == "idle_" by {
        assert i == 0 || i == 2 || i == 4 || i == 6;
      }
      assert "idle_"[0] != "move_"[0];
    } else {
      assert Cycle[i][..5] == "move_" by {
        assert i == 1 || i == 3 || i == 5 || i == 7;
      }
      assert "idle_"[0] != "move_"[0];
    }
  }

  /** The update sequences of the monster tests: one short update keeps
      the monster idle; updates of 100 and then 1 pass the timeout and
      move it to `move_up`; three more short updates keep it there; 96
      more reach the timeout exactly, and the next update passes it, into
      `idle_2`, where a final update leaves it. */
  lemma TestScenarios()
    ensures Track(Position(0, 0), [1]) == Position(0, 1)
    ensures Track(Position(0, 0), [100, 1]) == Position(1, 1)
    ensures Track(Position(0, 0), [100, 1, 1, 1, 1]) == Position(1, 4)
    ensures Track(Position(0, 0), [100, 1, 1, 1, 1, 96, 1, 1]) == Position(2, 2)
    ensures Cycle[1] == "move_up" && Cycle[2] == "idle_2"
  {
  }

  /** The source's graph keeps one edge per pair of states, and each move
      state's collision edge joins the same pair as its timeout edge,
      declared later: of the edges out of a move state, only the collision
      edge is the last of its pair, and it does not fire on a timeout. */
  lemma LastMoveEdgeIsCollision(k: nat, i: nat)
    requires i < |Cycle| && i % 2 == 1
    requires k < |Edges| && LastOfPair(Edges, k) && Edges[k].source == Cycle[i]
    ensures k == CollisionEdge[i / 2]
    ensures !InvokedBy(Edges[k], TimeoutEvent)
  {
    EdgesFollowCycle(k);
    assert SourceAt[k] == i by {
      if SourceAt[k] != i {
        CycleDistinct(SourceAt[k], i);
      }
    }
    var c := CollisionEdge[i / 2];
    CollisionEdgeLeadsOn(i);
    assert Edges[c].source == Edges[k].source && Edges[c].dest == Edges[k].dest;
    assert c <= k;
    assert k == c;
    PatternsSeparateEvents(Cycle[i], Next(i), TimeoutEvent);
  }

  /** A machine holding only edges that are the last of their pair has no
      transition out of a move state that fires on a timeout. */
  lemma LastEdgesIgnoreTimeout(m: Machine, i: nat)
    requires forall t :: t in m.transitions ==> exists k :: 0 <= k < |Edges| && Edges[k] == t && LastOfPair(Edges, k)
    requires i < |Cycle| && i % 2 == 1
    ensures FirstMatch(Outgoing(m, Cycle[i]), TimeoutEvent).None?
  {
    var outs := Outgoing(m, Cycle[i]);
    forall j | 0 <= j < |outs|
      ensures !InvokedBy(outs[j], TimeoutEvent)
    {
      var k :| 0 <= k < |Edges| && Edges[k] == outs[j] && LastOfPair(Edges, k);
      LastMoveEdgeIsCollision(k, i);
    }
  }

  /** As the source stores the transitions, no transition out of a move
      state fires on a timeout. */
  lemma KeptMoveIgnoresTimeout(ts: seq<Transition>, m: Machine, i: nat)
    requires ts == Edges && m.transitions == KeptEdges(ts)
    requires i < |Cycle| && i % 2 == 1
    ensures FirstMatch(Outgoing(m, Cycle[i]), TimeoutEvent).None?
  {
    KeptAreLast(ts);
    LastEdgesIgnoreTimeout(m, i);
  }

  /** Hence a monster whose move state times out stays in it: the round
      of the timeout loop keeps that state current and timed out, so the
      loop never ends; bounded by one round, it gives up. */
  lemma AsWrittenMoveSpins(ts: seq<Transition>, m: Machine, i: nat, dt: int)
    requires WellFormed(m) && ts == Edges && m.transitions == KeptEdges(ts)
    requires i < |Cycle| && i % 2 == 1 && m.current == Cycle[i]
    requires dt >= 0 && TimedOut(Current(StepCurrent(m, dt).machine))
    ensures Round(StepCurrent(m, dt).machine, dt).machine.current == Cycle[i]
    ensures TimedOut(Current(Round(StepCurrent(m, dt).machine, dt).machine))
    ensures Step(m, dt, 1).None?
  {
    var s := StepCurrent(m, dt);
    KeptMoveIgnoresTimeout(ts, s.machine, i);
    SpinPersists(s.machine, dt);
    SpinOnce(s.machine, dt, Add(Empty, s.delta));
  }
}
