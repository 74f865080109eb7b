# A model of the game simulation core

The repository is a small top-down action game written in Python 2 with
pygame. Its simulation core drives every entity (the player and the
monsters) by a finite-state machine whose states produce simulation deltas.
A simulation delta is a change to the entity's physical state plus the
events that change raises. The core also includes:

- events and the transitions they trigger;
- composite hitboxes;
- a spatial hash and a collision detector built on it;
- the game world's collision resolution and broadcasting;
- the binary `.seg` segment format and the level that holds segments;
- the arithmetic helpers and the animation timer.

This project restates that core in Dafny, one module per source file:

| module | file | models |
|---|---|---|
| `Options`, `Strings` | `strings.dfy` | an `Option` result, substring search, decimal rendering of integers |
| `Geometry` | `geometry.dfy` | pygame rectangles: `colliderect`, `clip`, and Python floor division |
| `Events` | `events.dfy` | `src/Event.py` |
| `Transitions` | `transitions.dfy` | `src/Transition.py` |
| `Physics` | `physics.dfy` | `src/PhysicalState.py` |
| `Deltas` | `deltas.dfy` | `src/SimulationDelta.py` |
| `States` | `states.dfy` | `src/State.py` and its four variants |
| `Machines` | `machine.dfy` | `src/StateMachine.py` |
| `Monster` | `monster.dfy` | `src/Monster.py` |
| `Graphs` | `graph.dfy` | `src/Graph.py` |
| `Player` | `player.dfy` | `src/Player.py` |
| `Hitboxes` | `hitbox.dfy` | `src/CompositeHitbox.py` |
| `Spatial` | `spatial.dfy` | `src/SpatialDictionary.py` |
| `Collisions` | `collisions.dfy` | `src/CollisionDetector.py` |
| `World` | `world.dfy` | `src/GameWorld.py` |
| `Segments` | `segment.dfy` | `src/Segment.py` |
| `Levels` | `level.dfy` | `src/Level.py` |
| `Globals` | `globals.dfy` | `src/Globals.py` |
| `Animations` | `animation.dfy` | `src/Animation.py` |

Every mutating method of the source becomes a pure function from the old
value to the new one. Python exceptions (`KeyError`, `NameError`,
`struct.error`, division by zero) become `None` results, except where
every caller in the core establishes a precondition that rules the
exception out (the well-formed machines of `Machines`; see Left out). `simulate_step`'s
`while` loop becomes a function with an explicit fuel bound, where `None`
means the loop ran out of rounds.

## Model

| member | source | states |
|---|---|---|
| Events.DefaultEventShape | src/Event.py:52-54 | `Event()` is a notification with an empty dictionary; its repr is `notify` and its str is `[notify]( )` |
| Events.EmptyRenderings | src/Event.py:69-87 | without parameters, repr is the type alone and str is the bracketed type with empty parentheses |
| Events.ReprStartsWithType | src/Event.py:69-75 | every repr begins with the event's type, whatever the parameters |
| Events.RenderingsAppendPiece | src/Event.py:69-87 | each parameter adds `,name:value` to repr and ` name->value` to str, after the earlier parameters' pieces |
| Events.TwoParameterRenderings | test/EventTests.py:75-106 | the two-parameter test event renders as `notify,two:2,one:1` and `[notify]( two->2 one->1 )` |
| Events.GettersReturnArguments | src/Event.py:92-98 | `get_type` returns the constructor's type; `get_parameters` maps each given name to its value and holds no other names |
| Events.ParamMapConcat | src/Event.py:52-54 | the dictionary of a concatenated entry list is the first list's dictionary overwritten by the second list's entries |
| Events.SameIgnoresOrder | src/Event.py:63-65 | `==` compares dictionaries, so swapping two entries with different names keeps events equal |
| Events.DefaultDiffersFromTestEvent | test/EventTests.py:54-66 | `==` is reflexive on the default event and tells it from the two-parameter event |
| Events.Same | src/Event.py:63-65 | (no contract; characterised by Events.SameIgnoresOrder and Events.DefaultDiffersFromTestEvent) two events are equal when their types and their parameter dictionaries agree, whatever order the entries were listed in |
| Events.Repr | src/Event.py:69-75 | (no contract; characterised by Events.ReprStartsWithType, Events.RenderingsAppendPiece and Events.TwoParameterRenderings) the type, then one `,name:value` piece per parameter in iteration order |
| Events.Show | src/Event.py:79-87 | (no contract; characterised by Events.RenderingsAppendPiece and Events.TwoParameterShow) `[type](`, then one ` name->value` piece per parameter in iteration order, then ` )` |
| Transitions.Unconditional | src/Transition.py:27-31 | the default pattern `.*` is invoked by every event and keeps both endpoints |
| Transitions.GettersReturnEndpoints | src/Transition.py:45-50 | `get_source` and `get_destination` return the constructor's names |
| Transitions.InvokedIffOccursSomewhere | src/Transition.py:41-42 | a literal pattern fires exactly when it occurs at some offset of the event's repr (`search`, not `match`) |
| Transitions.KindPatternMatchesAnyParameters | src/Transition.py:41-42 | a pattern equal to a bare event type fires for that type with any parameters |
| Transitions.NotifyPatternRejectsCollision | src/Transition.py:41-42 | the `notify` pattern does not fire for the parameterless collision event (with parameters, it fires exactly when `notify` occurs in the repr, as `Transitions.InvokedIffOccursSomewhere` states) |
| Transitions.InvokedBy | src/Transition.py:41-42 | (no contract; characterised by Monster.PatternsSeparateEvents and Machines.FirstMatch) the pattern's text occurs somewhere in the event's repr; the pattern `.*` is invoked by every event |
| Physics.New | src/PhysicalState.py:31-34 | a missing volume becomes the zero rectangle; velocity and mass are stored as given |
| Physics.DefaultIsZero | src/PhysicalState.py:31-34 | `PhysicalState()` is the zero rectangle at rest with no mass |
| Physics.AddDeltaComponentwise | src/PhysicalState.py:58-69 | `add_delta` adds every volume field, both velocity components and the mass, and also the health fields the model adds for `HitState` |
| Physics.ZeroIsIdentity | src/PhysicalState.py:58-69 | adding the zero state on either side changes nothing |
| Physics.AddDeltaCommutes | src/PhysicalState.py:58-69 | the order of two deltas does not matter |
| Physics.AddDeltaAssociates | src/PhysicalState.py:58-69 | the grouping of three deltas does not matter |
| Physics.NegateUndoes | src/PhysicalState.py:58-69 | adding a delta and then its negation restores the state |
| Physics.UpdateMovesPosition | src/PhysicalState.py:74-78 | `update(dt)` moves the position by velocity times `dt` and keeps the size, velocity and mass |
| Physics.UpdateComposes | src/PhysicalState.py:74-78 | two updates equal one update by the summed time; a zero-time update is the identity |
| Physics.SameAsIffEqualWithoutHealth | src/PhysicalState.py:43-50 | `==` is structural equality once the health fields, which it ignores, are cleared |
| Physics.SameAsEquivalence | src/PhysicalState.py:43-50 | `==` is reflexive, symmetric and transitive |
| Physics.AddDelta | src/PhysicalState.py:58-69 | (no contract; characterised by Physics.AddDeltaComponentwise) each field of the delta is added to the same field of the state; health is added too (see Left out) |
| Physics.Update | src/PhysicalState.py:74-78 | (no contract; characterised by Physics.UpdateMovesPosition and Physics.UpdateComposes) the volume moves by the velocity times the time step, size, velocity and mass stay, and two updates add their time steps |
| Physics.SameAs | src/PhysicalState.py:43-50 | (no contract; characterised by Physics.SameAsIffEqualWithoutHealth and Physics.SameAsEquivalence) equality on every field but health, and an equivalence relation |
| Deltas.Make | src/SimulationDelta.py:38-42 | the stored change is the given change and the events are the given list |
| Deltas.Single | src/State.py:52-53 | the timeout delta carries no physical change and exactly one event |
| Deltas.Add | src/SimulationDelta.py:62-70 | `+` sums the physical changes and concatenates the event lists, first operand first |
| Deltas.DefaultIsEmpty | src/SimulationDelta.py:38-42 | `SimulationDelta()` is the zero change with no events |
| Deltas.EmptyIsIdentity | src/SimulationDelta.py:62-70 | the empty delta is a left and right identity of `+` |
| Deltas.AddAssociates | src/SimulationDelta.py:62-70 | `+` is associative, so a sum of step deltas does not depend on its grouping |
| Deltas.AddSelf | src/SimulationDelta.py:62-70 | a delta added to itself has every field of its change doubled, and its event list twice over, in order |
| Deltas.SameEventsIsOrdered | src/SimulationDelta.py:51-53 | delta equality compares event lists in order: two unequal events swapped are not equal |
| Deltas.SameDeltaReflexive | src/SimulationDelta.py:51-53 | delta equality is reflexive |
| States.TimeoutTime | src/State.py:90-91 | `None` exactly for the infinite default timeout, otherwise the limit |
| States.SimulateStep | src/State.py:49-53 | the time is added first; a timed-out state reports exactly the timeout event, and any other state reports its variant's step changes, which carry no events |
| States.SimulateArrival | src/State.py:60-63 | arrival resets the active time to zero and yields the variant's arrival change |
| States.SimulateDeparture | src/State.py:70-73 | departure resets the active time to zero and yields the variant's departure change |
| States.StepReportsTimeoutIff | src/State.py:77-78 | a step reports a timeout exactly when the accumulated time strictly exceeds a finite limit |
| States.TimeoutIsStrict | src/State.py:77-78 | reaching the limit exactly is not a timeout |
| States.NewStateInactive | src/State.py:36-40 | a new state has active time zero, is timed out only under a negative limit, and has an infinite timeout exactly when none was given |
| States.IdleConstructor | src/IdleState.py:23-24 | an idle state is named `idle_` followed by its identifier |
| States.MoveConstructor | src/MoveState.py:22-25 | a move state is named `move_` followed by its identifier and keeps its velocity |
| States.ShiftConstructor | src/ShiftState.py:25-28 | a shift state is named like an idle state and keeps its offsets |
| States.HitConstructor | src/HitState.py:21-29 | a hit state keeps its identifier as its name, has timeout zero and reports its damage |
| States.MoveArrival | src/MoveState.py:46-47 | arriving at a move state sets the entity going at the state's velocity and moves nothing |
| States.ShiftArrival | src/ShiftState.py:48-49 | arriving at a shift state moves the entity by the offsets and keeps its velocity |
| States.IdleDeltasAreEmpty | src/IdleState.py:36-49 | every idle delta is empty, whatever the step size |
| States.MoveStepIsUpdate | src/MoveState.py:38-41 | a move step's change is the position offset that `update(dt)` would apply to an entity at that velocity |
| States.StepDeltaIndependentOfActiveTime | src/State.py:49-53 | below the timeout, a step's delta does not depend on how long the state has been active |
| States.ArrivalDepartureCancel | src/MoveState.py:46-53 | for idle, move and shift states, arrival followed by departure sums to the empty delta |
| States.ZeroShiftIsEmpty | src/ShiftState.py:48-56 | a shift by zero has empty arrival and departure deltas |
| States.HitDeltas | src/HitState.py:35-56 | a hit costs its damage in health on arrival and nothing else; any positive step times it out with the timeout event |
| States.TimedOut | src/State.py:77-78 | (no contract; characterised by States.TimeoutIsStrict and States.StepReportsTimeoutIff) only a finite timeout can be exceeded, and reaching it exactly is not yet exceeding it |
| States.StepChanges | src/State.py:95-102 | (no contract; characterised by States.IdleDeltasAreEmpty, States.MoveStepIsUpdate, States.HitDeltas and Machines.ChangesHaveNoEvents) an idle, shift or hit step changes nothing; a move step has the effect of a physical update; no step change carries events |
| States.ArrivalChanges | src/State.py:104-110 | (no contract; characterised by States.MoveArrival, States.ShiftArrival, States.HitDeltas and States.ArrivalDepartureCancel) a move sets the velocity going, a shift moves the volume, a hit costs the damage in health, and departing from a move or shift undoes its arrival |
| States.DepartureChanges | src/State.py:112-118 | (no contract; characterised by States.ArrivalDepartureCancel, States.IdleDeltasAreEmpty and States.HitDeltas) departing from a move or shift state undoes its arrival; idle and hit departures change nothing |
| Machines.StateMap | src/StateMachine.py:110-111 | each state is stored under its own name |
| Machines.StateMapContents | src/StateMachine.py:110-111 | every listed name is stored, and every stored state is one of the listed ones |
| Machines.StateMapLastWins | src/StateMachine.py:110-111 | a name listed twice keeps its last state |
| Machines.New | src/StateMachine.py:47-54 | the start state is `start_id` when that is given and non-empty, else the first listed state; an empty list without a start id fails |
| Machines.NewWellFormed | src/StateMachine.py:47-54 | a machine whose start and transition endpoints are all listed is well formed |
| Machines.LookupState | src/StateMachine.py:128-130 | `_get_state` is `None` exactly for an unknown name, otherwise the stored state |
| Machines.LeavingFilters | src/StateMachine.py:138-142 | the outgoing transitions are exactly those whose source is the state, in declaration order |
| Machines.Outgoing | src/StateMachine.py:138-142 | every outgoing transition is one of the machine's and leaves the given state |
| Machines.FirstMatch | src/StateMachine.py:78-87 | the position found is the first transition the event invokes; `None` means none does |
| Machines.FirstLeavingMatch | src/StateMachine.py:78-80 | the transition taken is the first declared one that leaves the state and is invoked by the event |
| Machines.NoLeavingMatch | src/StateMachine.py:78-87 | with no invoked transition leaving the state, none is taken |
| Machines.ReplaceKeepsNames | src/StateMachine.py:110-111 | storing a state under its own name keeps the stored names and the naming invariant |
| Machines.RetimeKeepsStates | src/State.py:49-73 | changing one state's active time changes nothing else about the stored states |
| Machines.SameUpToTimesTransitive | src/State.py:49-73 | changes confined to active times compose |
| Machines.Take | src/StateMachine.py:81-85 | taking a transition makes its destination current with active time zero, and yields the source's departure plus the destination's arrival |
| Machines.SimulateTransition | src/StateMachine.py:78-87 | with no invoked outgoing transition nothing changes; otherwise the first one is taken; the delta has no events |
| Machines.StepCurrent | src/StateMachine.py:66 | only the current state advances its time; its step delta is the machine's, and it holds only timeout events |
| Machines.AllTimeoutsAppend | src/StateMachine.py:63-71 | deltas that hold only timeout events sum to such a delta |
| Machines.Round | src/StateMachine.py:67-69 | one loop round keeps the machine well formed, changes only active times and raises only timeout events |
| Machines.Settle | src/StateMachine.py:67-69 | the loop ends with a current state that has not timed out and only timeouts raised; a current state within its timeout leaves the loop at once |
| Machines.Step | src/StateMachine.py:63-71 | after `simulate_step`, the current state has not timed out, only active times changed, and only timeout events were raised |
| Machines.ChangesHaveNoEvents | src/State.py:101-120 | arrival, departure and step changes of every variant carry no events |
| Machines.UnknownStateLookups | src/StateMachine.py:128-142 | an unknown state has no state object and no outgoing transitions |
| Machines.TransitionTakesFirstMatch | src/StateMachine.py:78-85 | the transition taken is the first outgoing one that the event invokes |
| Machines.StepWithinTimeout | src/StateMachine.py:63-71 | a step that stays within the timeout runs no loop round and returns the state's own step change |
| Machines.RoundTakesTimeout | src/StateMachine.py:67-69 | a round takes the timeout transition and steps the destination by `dt` |
| Machines.SettleOneRound | src/StateMachine.py:67-69 | when one round ends the timeouts, the loop stops after that round |
| Machines.StepIsOneRound | src/StateMachine.py:63-71 | a step whose loop runs once is the step change, then the round's changes |
| Machines.StepCrossesOnce | src/StateMachine.py:63-71 | a step that crosses one timeout lands on the timeout edge's destination with exactly one timeout event |
| Machines.KeptEdges | src/StateMachine.py:118-120 | the digraph keeps a subset of the declared transitions, at most one per source and destination pair |
| Machines.KeptAreLast | src/StateMachine.py:118-120 | a declared transition is kept exactly when it is the last one declared for its pair |
| Machines.RoundWithoutTimeoutEdge | src/StateMachine.py:67-69 | without a timeout transition, a round stays in the current state and steps it again |
| Machines.SpinPersists | src/StateMachine.py:67-69 | a timed-out state without a timeout transition is still current and timed out after a round, so the loop never ends |
| Machines.SpinOnce | src/StateMachine.py:67-69 | such a loop gives up when bounded to one round |
| Machines.Current | src/StateMachine.py:90-91 | (no contract; characterised by Machines.StepWithinTimeout and Monster.ProducedMachine) the state stored under the current name; the machine must be well formed (see Left out) |
| Machines.Leaving | src/StateMachine.py:138-142 | (no contract; characterised by Machines.LeavingFilters) exactly the transitions whose source is the state, in declaration order (see Left out for the order) |
| Monster.Body | src/Monster.py:54-55 | a 20 by 40 body at the origin, at rest, with mass one |
| Monster.StateListNames | src/Monster.py:28-37 | the eight state names, in declaration order |
| Monster.CycleListed | src/Monster.py:28-51 | every state of the wander cycle is declared |
| Monster.CycleDistinct | src/Monster.py:38-51 | the wander cycle visits eight different states |
| Monster.EdgesFollowCycle | src/Monster.py:38-51 | every transition leads from a state of the cycle to the next one; the collision ones leave move states |
| Monster.ProducedMachine | src/Monster.py:25-52 | the machine is well formed, starts in `idle_1` and holds the twelve transitions |
| Monster.PatternsSeparateEvents | src/Monster.py:38-51 | the timeout pattern fires exactly for events whose repr mentions a timeout; the collision pattern fires for every collision and never for the timeout |
| Monster.TimeoutEdgeLeadsOn | src/Monster.py:39-46 | each state's timeout transition leads to the next state of the cycle |
| Monster.TimeoutEdgeIsFirst | src/Monster.py:39-46 | no transition declared before a state's timeout transition leaves that state |
| Monster.CollisionEdgeLeadsOn | src/Monster.py:47-50 | each move state's collision transition leads to the same state as its timeout transition |
| Monster.NoCollisionEdgeFromIdle | src/Monster.py:47-50 | no collision transition leaves an idle state |
| Monster.TimeoutFollowsCycle | src/Monster.py:39-46 | on a timeout every state passes to the next state of the cycle |
| Monster.CollisionFollowsCycle | src/Monster.py:47-50 | on any collision a move state passes to the next state of the cycle |
| Monster.IdleIgnoresCollision | src/Monster.py:47-50 | an idle state ignores a collision whose repr does not mention a timeout |
| Monster.EdgesWired | src/Monster.py:39-46 | the timeout transitions lead around the whole cycle |
| Monster.ProducedAtStart | src/Monster.py:25-52 | the new monster is at the start of the cycle and not yet active |
| Monster.TimeoutsKept | src/Monster.py:26-37 | every stored state keeps the common timeout of 100 under changes of active time |
| Monster.AtAgain | src/StateMachine.py:63-87 | a machine that differs from one on the cycle only in active times is on the cycle again |
| Monster.StepStaysWithinTimeout | src/StateMachine.py:63-71 | an update that keeps the active time within 100 stays put, adds `dt` to the time and raises nothing |
| Monster.TimeoutTransitionAt | src/StateMachine.py:78-87 | at each position the transition taken on a timeout leads to the next state of the cycle |
| Monster.StepLandsOnNext | src/StateMachine.py:63-71 | an update of at most 100 that passes the timeout lands on the next state, active for `dt`, with one timeout event |
| Monster.StepMovesOnCycle | src/StateMachine.py:63-71 | such an update keeps the monster on the cycle, one position on |
| Monster.CollisionLandsOnNext | test/MonsterTests.py:39-45 | a collision takes a moving monster to the next (idle) state, active for no time |
| Monster.CollisionMovesOn | src/Monster.py:47-50 | such a collision keeps the monster on the cycle, one position on |
| Monster.IdleIgnoresCollisionAt | src/StateMachine.py:78-87 | an idle monster ignores such a collision and nothing changes |
| Monster.Advance | src/Monster.py:26-51 | the reference position after one update stays on the cycle |
| Monster.Track | src/Monster.py:26-51 | the reference position after a series of updates stays on the cycle |
| Monster.StepWithinFollowsAdvance | src/StateMachine.py:63-71 | an update within the timeout matches the reference, position and time |
| Monster.StepPastFollowsAdvance | src/StateMachine.py:63-71 | an update past the timeout matches the reference, position and time |
| Monster.Replay | src/StateMachine.py:63-71 | after any series of updates of at most 100, the machine is where the reference says, for as long as it says |
| Monster.Wander | src/Monster.py:25-52 | a new monster under such a series ends where the reference started from the cycle's head says |
| Monster.CycleAlternates | src/Monster.py:28-51 | even cycle positions are idle states and odd ones are move states |
| Monster.TestScenarios | test/MonsterTests.py:30-58 | the update sequences of the tests end in the idle, move, move and idle states they expect |
| Monster.LastMoveEdgeIsCollision | src/Monster.py:38-51 | for a move state, the last-declared transition of its pair is the collision one, which a timeout does not invoke |
| Monster.LastEdgesIgnoreTimeout | src/StateMachine.py:118-120 | a machine holding only last-of-pair transitions has no timeout transition out of a move state |
| Monster.KeptMoveIgnoresTimeout | src/StateMachine.py:118-120 | the transitions the digraph keeps leave no timeout transition out of any move state |
| Monster.AsWrittenMoveSpins | src/StateMachine.py:63-71 | with those transitions, a move state that times out stays current and timed out, and the step never ends |
| Monster.Produce | src/Monster.py:25-52 | (no contract; characterised by Monster.ProducedMachine) the machine is built, well formed, starts in `idle_1` and holds the twelve declared transitions |
| Graphs.AddNode | src/Graph.py:24-26 | the node is stored under its name with an empty edge map, replacing earlier edges; other nodes are unchanged |
| Graphs.NamesHasEach | src/Graph.py:24-26 | every added state's name is among the names |
| Graphs.AddNodesKeys | src/Graph.py:24-26 | adding nodes adds exactly their names, each with an empty edge map |
| Graphs.AddNodesLastWins | src/Graph.py:24-26 | a name added twice keeps the last state |
| Graphs.AddNodesKeep | src/Graph.py:24-26 | adding nodes under other names keeps a node |
| Graphs.AddEdge | src/Graph.py:28-29 | a missing start node fails (a `KeyError`); otherwise the repr of the event maps to the end node and nothing else changes |
| Graphs.AddEdgesFromSource | src/Graph.py:31-33 | the loop adds the edges in list order and stops at the first failure |
| Graphs.LastEndAt | src/Graph.py:28-33 | the destination found for a start and key is that of the last edge for them |
| Graphs.LastEndAbsent | src/Graph.py:28-33 | a destination is found exactly when some edge has that start and key |
| Graphs.FoldEdgesSucceedsIff | src/Graph.py:31-33 | adding the edges succeeds exactly when every start is a node; nodes and edge-map keys are unchanged |
| Graphs.FoldEdgesLastWins | src/Graph.py:28-33 | after the edges are added, a key leads to the destination of the last edge for it, else to what it led to before |
| Graphs.FoldIntoBare | src/Graph.py:31-33 | edges added to a graph with empty edge maps lead where the last matching edge says |
| Graphs.AddNodeAgainForgetsEdges | src/Graph.py:24-26 | adding a node again discards the edges that already left it |
| Player.MoveNames | src/Player.py:27-30 | the four move states are named after their directions and carry the directions' velocities |
| Player.IdleNode | src/Player.py:31-32 | the last node added is the idle start state |
| Player.BareShape | src/Player.py:26-32 | every node has an empty edge map before the edges are added |
| Player.BareEmpty | src/Player.py:26-32 | the graph with nodes only has no edges |
| Player.EdgeShape | src/Player.py:33-35 | the edges are the four key presses from idle, then the four releases |
| Player.EdgeStartIsNode | src/Player.py:33-35 | every edge starts at a node |
| Player.KeyRepr | src/Player.py:33-35 | a key event's repr is its type, then `,key:'` and the key's name |
| Player.EdgesDiffer | src/Player.py:33-35 | no two edges share both their start and their event key |
| Player.BareFits | src/Player.py:26-36 | every edge's start is a node with an empty edge map |
| Player.SetupFinds | src/Player.py:25-36 | building the graph succeeds, and an event leads from a node to the last listed edge's destination for it |
| Player.EdgeTaken | src/Player.py:33-36 | every listed edge is taken by its own event from its own start |
| Player.PressMoves | src/Player.py:33-36 | from idle, pressing a direction key leads to the move state for that direction |
| Player.ReleaseStops | src/Player.py:33-36 | releasing a move state's key leads back to idle |
| Player.SetupStartsIdle | src/Player.py:31-32 | the start state is stored and is an idle state |
| Player.SetupMoves | src/Player.py:27-30 | every move state is stored with its direction's velocity |
| Player.SetupNode | src/Player.py:26-36 | every node is stored under its name in the built graph |
| Player.NodeStored | src/Player.py:26-32 | no two nodes share a name, so each is stored |
| Player.KeyEventsStartWithK | src/Player.py:33-35 | every edge key is the repr of a key event |
| Player.CollisionLeadsNowhere | src/Player.py:33-36 | a collision, with any parameters, leads nowhere from any node |
| Player.Setup | src/Player.py:25-36 | (no contract; characterised by Player.SetupFinds and Player.EdgeTaken) the graph is built with the five nodes, and every listed edge is taken by its own event from its own start |
| Hitboxes.MaxOf | src/CompositeHitbox.py:105-111 | `max` of a non-empty list is an upper bound that occurs in the list |
| Hitboxes.New | src/CompositeHitbox.py:105-116 | the container sits at the position and is just large enough for the hitboxes' right and bottom edges; the inner hitboxes are the given ones moved by the position, with their types kept |
| Hitboxes.Translate | src/CompositeHitbox.py:134-140 | the container and every inner hitbox move by the offset and keep their sizes and types |
| Hitboxes.Relative | src/CompositeHitbox.py:144-150 | there is one relative hitbox per inner hitbox, each of the default type |
| Hitboxes.CountIsMultiplicity | src/CompositeHitbox.py:122-125 | `list.count` is the multiplicity in the list's multiset |
| Hitboxes.SameIffMultiset | src/CompositeHitbox.py:122-125 | `==` holds exactly when the containers are equal and the inner rectangles agree as multisets |
| Hitboxes.DefaultComposite | src/CompositeHitbox.py:105-116 | the default composite is a zero container at the origin with no hitboxes |
| Hitboxes.TranslateUndoes | src/CompositeHitbox.py:134-154 | the opposite translation undoes a translation, and the position moves by the offset |
| Hitboxes.TranslateNew | src/CompositeHitbox.py:105-140 | translating a new composite is building it at the moved position |
| Hitboxes.RelativeRoundTrip | src/CompositeHitbox.py:144-150 | the relative hitboxes of a new composite are the given rectangles |
| Hitboxes.RelativeIgnoresTranslation | src/CompositeHitbox.py:134-150 | translation does not change the relative hitboxes |
| Hitboxes.SameIgnoresTypes | src/CompositeHitbox.py:122-125 | the hitbox types do not take part in equality |
| Hitboxes.TestComposite | test/CompositeHitboxTests.py:132-161 | the tests' two-hitbox composite has the container and inner boxes the tests expect, and differs from the default |
| Hitboxes.SwappedPairIsSame | src/CompositeHitbox.py:122-125 | inner hitboxes in another order and with other types still compare equal |
| Hitboxes.Position | src/CompositeHitbox.py:153-154 | (no contract; characterised by Hitboxes.DefaultComposite and Hitboxes.TranslateUndoes) the default composite sits at the origin, and a translation moves the position by the same amount |
| Hitboxes.Same | src/CompositeHitbox.py:122-125 | (no contract; characterised by Hitboxes.SameIffMultiset) equal containers and equal multisets of inner rectangles; order and types do not matter |
| Spatial.New | src/SpatialDictionary.py:13-18 | the dictionary is empty and has `width / cell_size` columns, floor division |
| Spatial.CornerCells | src/SpatialDictionary.py:36-66 | the four corner cells include the top-left one and number one to four |
| Spatial.TopLeftCovered | src/SpatialDictionary.py:42-57 | the top-left corner's cell is covered |
| Spatial.PointCellCovered | src/SpatialDictionary.py:68-70 | the cell of every point inside a volume is covered |
| Spatial.CoveredComplete | src/SpatialDictionary.py:59-64 | two colliding volumes of positive size share a covered cell |
| Spatial.CornersCovered | src/SpatialDictionary.py:42-57 | the corner cells are among the covered cells |
| Spatial.CornersSufficeForSmallVolumes | src/SpatialDictionary.py:49-57 | for volumes no larger than a cell, the corner cells are all the covered cells |
| Spatial.CornersMissOverlap | test/SpatialDictionaryTests.py:138-145 | the tests' entities D and E overlap, but their corner cells are disjoint |
| Spatial.AddObj | src/SpatialDictionary.py:24-33 | the object joins the set of every cell of the corrected covered block, creating missing cells; other cells are unchanged |
| Spatial.RemoveObj | src/SpatialDictionary.py:76-83 | the object leaves every existing cell of the corrected covered block; no cell is created; other cells are unchanged |
| Spatial.Nearby | src/SpatialDictionary.py:85-98 | the nearby objects are exactly the other objects sharing a cell of the corrected covered block |
| Spatial.Clear | src/SpatialDictionary.py:111-112 | after `clear` every cell is empty |
| Spatial.AddThenExists | src/SpatialDictionary.py:100-109 | after `add_obj` the object exists, and so does every object that existed before |
| Spatial.AddTwiceIsAddOnce | src/SpatialDictionary.py:24-33 | adding an object twice equals adding it once |
| Spatial.RemoveThenGone | src/SpatialDictionary.py:76-109 | after `remove_obj` the object does not exist |
| Spatial.RemoveKeepsOthers | src/SpatialDictionary.py:76-109 | `remove_obj` does not change whether any other object exists |
| Spatial.RemoveUntrackedIsNoop | src/SpatialDictionary.py:76-83 | removing an object the dictionary does not hold changes nothing |
| Spatial.ClearEmpties | src/SpatialDictionary.py:111-112 | after `clear` nothing exists and nothing is nearby |
| Spatial.AddObjs | src/SpatialDictionary.py:20-22 | afterwards every given object exists, and so does every object that existed |
| Spatial.RemoveObjs | src/SpatialDictionary.py:72-74 | afterwards no given object exists, and every other object exists exactly if it did before |
| Spatial.Hash | src/SpatialDictionary.py:68-70 | (no contract; characterised by Spatial.TopLeftCovered and Spatial.PointCellCovered) the cell of a point inside a volume is one of the volume's covered cells |
| Spatial.Exists | src/SpatialDictionary.py:100-109 | (no contract; characterised by Spatial.AddThenExists, Spatial.RemoveThenGone and Spatial.RemoveKeepsOthers) an added object exists, a removed one does not, and other objects keep their existence; the covered cells are the corrected block (see Left out) |
| Collisions.New | src/CollisionDetector.py:14-17 | the detector lists the objects and its fresh dictionary holds each of them |
| Collisions.PairsWith | src/CollisionDetector.py:45-52 | the pairs are exactly the target paired with each colliding object |
| Collisions.AllCollisions | src/CollisionDetector.py:35-43 | an empty list has no collisions |
| Collisions.PairsAreSound | src/CollisionDetector.py:35-52 | every reported pair holds two distinct overlapping objects, one listed, that share one of the listed object's covered cells |
| Collisions.PairsAreComplete | src/CollisionDetector.py:35-52 | every pair of distinct listed objects of positive size that overlap is reported |
| Collisions.AllCollisionsAsWritten | src/CollisionDetector.py:35-43 | as written, the method fails on any non-empty list and gives the empty set for an empty one |
| Collisions.AsWrittenFailsWhereIntendedAnswers | src/CollisionDetector.py:38-41 | the written and intended forms agree only on the empty list |
| Collisions.RemoveObjsAsWritten | src/CollisionDetector.py:28-30 | as written, every listed object is removed, whatever list is given; an object the detector does not list exists afterwards exactly if it did before |
| Collisions.RemoveObjsIntended | src/CollisionDetector.py:28-30 | as intended, exactly the given objects are removed |
| Collisions.SmallObjectsAllPaired | test/SpatialDictionaryTests.py:131-136 | the tests' three overlapping objects I, J and K inside one cell are all paired |
| World.Copies | src/GameWorld.py:94-98 | `n` copies of an event |
| World.All | src/GameWorld.py:95 | the indices of every entity, in order |
| World.DeliverAllCounts | src/GameWorld.py:97-98 | notifying along a list leaves each entity's other fields alone and appends the event once per listing |
| World.NotifyOfDelivers | src/GameWorld.py:94-98 | an empty list notifies every entity exactly once; otherwise each entity is notified once per listing |
| World.BroadcastIsListingAll | src/GameWorld.py:94-98 | a broadcast equals listing every entity once |
| World.CollisionEvent | src/GameWorld.py:154-160 | the collision event has the collision type |
| World.CollisionEventParameters | src/GameWorld.py:154-160 | its parameters are exactly the two entities and the two volumes |
| World.PushBack | src/GameWorld.py:170-175 | the displacement is along x by the clip's width when the clip is narrower than tall, else along y by its height |
| World.ResolveCollision | src/GameWorld.py:149-177 | both entities are notified of the collision event; only the mover's hitbox moves, by the push-back; every other entity is unchanged |
| World.NoCollisionNoMove | src/GameWorld.py:166-177 | volumes that do not collide are not moved |
| World.PushBackSeparatesX | src/GameWorld.py:172-173 | pushing back along x separates the volumes when neither holds the other's span strictly inside |
| World.PushBackSeparatesY | src/GameWorld.py:174-175 | the same along y |
| World.PushBackSeparates | src/GameWorld.py:170-177 | with overhanging spans on both axes, the push-back separates the volumes |
| World.ResolveSeparates | src/GameWorld.py:149-177 | after resolution, the two entities' hitboxes no longer overlap under those conditions |
| World.Register | src/GameWorld.py:126-127 | the hitbox maps to the entity, and other hitboxes are unchanged |
| World.Unregister | src/GameWorld.py:133-134 | removing an unregistered hitbox fails (a `KeyError`); otherwise the hitbox is gone and the others are unchanged |
| World.RegisterUnregister | src/GameWorld.py:126-134 | registering and then unregistering a new hitbox restores the map |
| World.Tilemap | src/GameWorld.py:185-195 | one column per collision-map column, each as long as the first column; a shorter column fails (an `IndexError`) |
| World.TilemapReadsBack | src/GameWorld.py:185-195 | for a rectangular map, a tile is solid exactly where the map is |
| World.SegmentTilemap | src/GameWorld.py:188-195 | the tilemap of a loaded segment marks exactly its even tiles as solid |
| World.NotifyOf | src/GameWorld.py:94-98 | (no contract; characterised by World.NotifyOfDelivers and World.BroadcastIsListingAll) an empty list notifies every entity once; otherwise each entity gets the event once per listing and nothing else changes |
| World.Lookup | src/GameWorld.py:142-143 | (no contract; characterised by World.Register, World.Unregister and World.RegisterUnregister) a registered hitbox gives its entity back; an unregistered one gives nothing, where the source raises a `KeyError` |
| Segments.ToWords | src/Segment.py:128-160 | the bytes are read two at a time, low byte first; an odd trailing byte makes no word |
| Segments.FromWords | src/Segment.py:19-34 | every word takes two bytes |
| Segments.WordsRoundTrip | src/Segment.py:19-34 | writing words out and reading them back gives the words |
| Segments.Records | src/Segment.py:130-141 | `n` reference records, five words each |
| Segments.Columns | src/Segment.py:146-160 | the tile words are cut into `width` columns of `height` tiles |
| Segments.DecodeWords | src/Segment.py:124-160 | loading succeeds exactly when the file holds every word the layout asks for; the matrix is `width` columns of `height` tiles |
| Segments.Decode | src/Segment.py:124-160 | the same, over the file's bytes |
| Segments.ColumnsIndex | src/Segment.py:146-160 | column `x`, row `y` is flat word `x * height + y` |
| Segments.TileIsWordAt | src/Segment.py:19-34 | tile `[x][y]` is word `3 + 5N + x * height + y` of the file: column-major storage |
| Segments.RefMapLastWins | src/Segment.py:140-141 | a position read more than once keeps its last destination |
| Segments.RefMapKeys | src/Segment.py:130-141 | the reference dictionary has an entry exactly for the positions read |
| Segments.IdsAreTheTiles | src/Segment.py:155-156 | the tile list holds exactly the ids found in the matrix |
| Segments.RecordWords | src/Segment.py:19-29 | each record takes five words |
| Segments.RecordsRoundTrip | src/Segment.py:130-141 | reading written records gives the records |
| Segments.FlattenColumns | src/Segment.py:146-160 | cutting flattened columns gives the columns |
| Segments.DecodeEncode | src/Segment.py:124-160 | decoding the file of a writable layout gives its reference dictionary, dimensions, tiles and tile ids |
| Segments.DecodeLayoutWords | src/Segment.py:124-160 | the same, over words |
| Segments.LayoutNeedsAll | src/Segment.py:19-34 | a layout's words are exactly as many as it asks for |
| Segments.PrefixNeedsMore | src/Segment.py:128-150 | any proper prefix of such words asks for more than it holds |
| Segments.ShortFileFails | src/Segment.py:128-150 | a file cut short anywhere does not load (a `struct.error`) |
| Segments.ToWordsPrefix | src/Segment.py:128-150 | the words of a byte prefix are a prefix of the words |
| Segments.CollisionMap | src/Segment.py:103-114 | the map has the matrix's shape and is true exactly at even tile ids |
| Segments.NewSegment | src/Segment.py:44-66 | a segment loads exactly when its file decodes, and keeps its id and the entry point it was given |
| Segments.NewDefaultSegment | src/Segment.py:44-48 | without an entry point, a segment loads exactly when its file decodes and is entered at the origin tile |
| Segments.Tangible | src/Segment.py:187-188 | (no contract; characterised by Segments.CollisionMap) a tile is tangible exactly when its id is even |
| Levels.AddSegment | src/Level.py:26-30 | the segment is stored under its id, replacing any earlier one; it becomes the root exactly when it has an entry point |
| Levels.DefaultSegmentBecomesRoot | src/Level.py:26-30 | a segment built with the default entry point always becomes the root, entered at the origin |
| Levels.LastEntered | src/Level.py:29-30 | the last segment with an entry point has one |
| Levels.RootIsLastEntered | src/Level.py:26-30 | after adding segments, the root is the last of them with an entry point, else the old root |
| Levels.LastEnteredFront | src/Level.py:29-30 | the last entered segment of a list, seen from its head |
| Levels.RootHasEntryPoint | src/Level.py:16-30 | a level built from nothing has a root exactly when some segment has an entry point, and the root has one |
| Levels.LastEnteredExists | src/Level.py:29-30 | a last entered segment exists exactly when some segment has an entry point |
| Globals.Clamp | src/Globals.py:98-106 | the result lies in the bounds: the value itself when inside, else the bound it passed |
| Globals.ClampInt | src/Globals.py:98-106 | the same on integers |
| Globals.ClampIntAgrees | src/Globals.py:98-106 | integer and real clamping agree |
| Globals.ClampIdempotentMonotone | src/Globals.py:98-106 | clamping twice is clamping once, and clamping keeps order |
| Globals.ClampExamples | test/GlobalsTests.py:24-37 | the three clamp cases of the tests |
| Globals.Lerp | src/Globals.py:116-119 | the result lies between the ends and is each end at delta 0 and 1 |
| Globals.LerpReverseMonotone | src/Globals.py:116-119 | interpolating backwards is interpolating forwards from the other end; it rises with delta when the ends rise |
| Globals.LerpExamples | test/GlobalsTests.py:39-44 | the interpolation cases of the tests |
| Globals.Ease | src/Globals.py:129-136 | the result lies between the ends, is each end at 0 and 1, and is the midpoint at one half |
| Globals.EaseIsLerpOfFraction | src/Globals.py:129-136 | easing is interpolation along a curve from 0 to 1 |
| Globals.EaseSymmetric | src/Globals.py:129-136 | the curve is point-symmetric about its middle |
| Globals.EaseExamples | test/GlobalsTests.py:46-49 | the easing cases of the tests |
| Animations.New | src/Animation.py:30-45 | a zero frame count fails (division by zero); otherwise the animation is not started, and frames split the sheet's width |
| Animations.DefaultIsWholeSheet | src/Animation.py:30-45 | with the defaults, the one frame is the whole sheet |
| Animations.Start | src/Animation.py:82-83 | only the start time changes |
| Animations.End | src/Animation.py:102-103 | the timer returns to not started, and nothing else changes |
| Animations.EndForgetsStart | src/Animation.py:82-103 | ending forgets the start, and starting again overrides an end |
| Animations.FrameNumber | src/Animation.py:114-122 | a frame number exists exactly when there is a frame time to divide by and frames to wrap around; it is a valid frame |
| Animations.LoopingFrameCoversElapsed | src/Animation.py:114-118 | a looping animation shows frame `n` exactly in the frame times congruent to `n` |
| Animations.LoopingPeriodic | src/Animation.py:114-118 | a looping animation repeats after a whole pass through its frames |
| Animations.HoldingFrameCoversElapsed | src/Animation.py:114-122 | a non-looping animation shows frame `n` during its `n`-th frame time and then holds the last frame |
| Animations.HoldingMonotone | src/Animation.py:119-120 | a non-looping animation never goes back to an earlier frame |
| Animations.FrameRect | src/Animation.py:92-98 | a frame exists exactly for a started, playable animation; it is one frame wide and the sheet's height, at the top (a looping animation with a negative frame count gets a negative width; see Left out) |
| Animations.FrameInSheet | src/Animation.py:92-98 | every frame of a started animation lies inside the sheet |
| Animations.NewFramesInSheet | src/Animation.py:30-98 | every frame of a freshly built and started animation lies inside the sheet |
| Animations.FrameRectAsWritten | src/Animation.py:92-98 | as written, `get_frame` never answers |
| Animations.AsWrittenNeverAnswers | src/Animation.py:95 | the written form fails wherever the intended one answers |
| Animations.LoopingTestFrames | test/AnimationTests.py:168-192 | the looping frames the tests expect |
| Animations.TestAnimationBuilt | test/AnimationTests.py:58-73 | the tests' animation is a 20 by 10 sheet with two 5 ms frames, started at 0 |
| Animations.LoopingTestFrame | src/Animation.py:114-118 | in a looping two-frame animation, the frame alternates every frame time |
| Animations.HoldingTestFrames | test/AnimationTests.py:194-219 | the non-looping frames the tests expect |

## Left out

- Rendering, sound, input and the program entry point (`Camera`, `GameView`, `HealthWidget`, `InputController`, `main`) are not part of this model: they are I/O.
- `FollowState`, `Entity`, `World` and `HashableRect` are not part of this model. An entity is reduced to a name, a hitbox and an inbox of events. Objects of the spatial dictionary are an identity plus a volume.
- Loading images and sounds (`load_image`, `load_sound`, `Segment._load_tile_info`, `get_image`, the sprite sheet of `Animation`) is left out as file I/O. The segment file is a byte sequence parameter, not a path. `Animations.New` takes the sheet's width and height as parameters.
- `struct.unpack('H', …)` reads in native byte order. The model fixes little-endian, the order on the platforms the game targets.
- Python dictionaries iterate in an order the language leaves open. Event parameters are a sequence of entries in iteration order. That order decides `repr` and `str`, but not `==`.
- Floating point is not modelled. Mass, positions, velocities and times are integers; pygame rectangles truncate to integers anyway. `Globals` works on reals, without rounding.
- `float("inf")` is the `Infinite` timeout.
- Identity-based hashing (`Hitbox.__hash__`, `frozenset` members, the hitbox-to-entity dictionary) is modelled by explicit identities.
- `StateMachine.simulate_step` calls `has_timed_out` and `EventType.STATE_TIMEOUT`; `State` defines `is_timed_out`, and `EventType` defines `TIMEOUT`. The model reads both as the defined names, so the machine can be stepped at all.
- `IdleState` and `MoveState` take no timeout, yet `Monster` passes one to each. The model gives both the `timeout` parameter of `State.__init__`, which the monster evidently relies on.
- `ShiftState` and `HitState` build their changes from a `CompositeHitbox` where `PhysicalState` expects a rectangle. The model reads such a change as the rectangle at the given offset with zero size.
- `Machines.Settle` and `Machines.Step` take a fuel bound on loop rounds. `None` means the bound was reached; the source would keep looping. `Machines.SpinPersists` shows that the loop without a timeout transition never ends for any bound.
- `Player.py:37` passes a `Graph` and a `State` to `StateMachine`, whose constructor expects a list of states and a list of transitions. The player's behaviour is modelled on the `Graph` (`Graphs.FoldEdges`, `Graphs.Target`), not as a running machine.
- `GameWorld.__init__` and `GameWorld.update` are left out as a whole. The detector they build is a bare `SpatialDictionary`, which has no `get_all_collisions`. The constructor also loads the world from disk. The collision resolution and broadcasting they call are modelled in `World`.
- `CollisionDetector.clear`, `add_objs`, `add_obj`, `remove_obj` and `exists` only forward to the dictionary. They are modelled by `Spatial.Clear`, `Spatial.AddObjs`, `Spatial.AddObj`, `Spatial.RemoveObj` and `Spatial.Exists` on the detector's dictionary.
- `Transition.__repr__` refers to a field that does not exist. It is not used by the core and is left out.
- Regular expressions are not modelled in general. The patterns the core uses (`.*`, `.*timeout.*`, `.*collision.*`, and the reprs of events) are literal searches for the text between the `.*`.
- World.PushBack: states the direction and size of the displacement, and separation only under the overhang conditions of `World.PushBackSeparates`. A volume held strictly inside the other can stay overlapping, and the source does not promise otherwise.
- Collisions.AllCollisions: its own contract states only the empty case. Soundness and completeness are stated by `Collisions.PairsAreSound` and `Collisions.PairsAreComplete`, and completeness requires volumes of positive size.
- Physics.AddDelta: `PhysicalState` has no health fields (src/PhysicalState.py:31-34, 58-69), so as written `HitState`'s arrival change (src/HitState.py:41-48) raises `TypeError` on its `curr_health` and `max_health` keywords. The model adds `currHealth` and `maxHealth` to every physical state and sums them in `add_delta`. States.HitDeltas states the damage on that repaired reading.
- States.StepChanges, States.ArrivalChanges and States.DepartureChanges: the `IdleState` and `MoveState` changes (src/IdleState.py:36-49, src/MoveState.py:38-53) are bare `PhysicalState`s. As written, `step_delta += …` (src/StateMachine.py:66) and `departure + arrival` (line 85) then fail. The model wraps those changes into deltas with no events, as the other variants return them.
- Events.KeyDown and Events.KeyUp: `EventType` (src/Event.py:18-36) defines no `KEYDOWN` or `KEYUP`, so as written `Player` (src/Player.py:33-35) fails before any edge exists. The model supplies the two types as `keydown` and `keyup`, and the `Player` members depend on them.
- Spatial.AddObj, Spatial.RemoveObj and Spatial.Exists compare an object by its identity and its volume together. The source compares entities by identity, and an entity's volume can change in place. The model assumes an object's volume is fixed while the dictionary holds it: a moved object has to be removed under its old volume and added under its new one.
- World.CollisionEvent: the source puts the two hitbox rectangles themselves in the event (src/GameWorld.py:158) and then moves one of them in place (line 177), so a receiver sees the mover's volume after the push-back. The model's event records the volumes as they were before the push-back.
- Segments.NewSegment takes the entry point as an `Option`; `None` is what a caller passes explicitly. The default of `Segment.__init__`, the origin, is `Segments.NewDefaultSegment`.
- Spatial.AddObj, Spatial.RemoveObj, Spatial.Exists and Spatial.Nearby use the corrected covered block of the src/SpatialDictionary.py:36-66 row under Findings, not the four corner cells the source computes. For volumes no larger than a cell the two agree (`Spatial.CornersSufficeForSmallVolumes`); for larger volumes the source misses the cells in between.
- Machines.LeavingFilters and Machines.FirstLeavingMatch read a state's outgoing transitions in declaration order. The source reads them from the `networkx` graph in the order of its adjacency dictionary, which the language leaves unspecified, so which matching transition is taken first is open there. `Machines.New` also keeps every declared transition, the corrected reading of the src/StateMachine.py:118-120 row under Findings. The monster does not depend on the order: its timeout and collision patterns never fire for the same event (`Monster.PatternsSeparateEvents`).
- Machines.Step, Machines.Settle and Machines.SimulateTransition require a well-formed machine, and so do `Machines.Take`, `Machines.StepCurrent`, `Machines.Round` and `Machines.Current`: the current state and every transition endpoint are stored states, each under its own name. For an unknown current state the source raises an `AttributeError` on `None` (src/StateMachine.py:66, 131), and for a transition endpoint that is not a listed state it raises a `KeyError` on `["obj"]` (src/StateMachine.py:130). Those failures are not modelled. `Monster.ProducedMachine` and `Machines.NewWellFormed` show that the machines the core builds are well formed.
- Animations.FrameRect returns the frame rectangle, not the sheet's subsurface. For a looping animation with a negative frame count the rectangle has a negative width, where `subsurface` would raise; a frame lies within the sheet when the frames fit (`Animations.FrameInSheet`).
- The animation tests pass the frame time where the constructor takes the frame count. They also overwrite fields (`_frame_width`, `_frame_count`) and call a method (`get_sheet`) that `src/Animation.py` does not have. The model follows the code, and `Animations.TestAnimationBuilt` fixes the tests' two-frame animation explicitly.

## Findings

| source | as written | input that shows it | evidently intended | confidence | as-written member | corrected member |
|---|---|---|---|---|---|---|
| src/SpatialDictionary.py:36-66 | only the cells of the four corners are covered, so a volume wider or taller than a cell misses the cells in between | entities D (35, 35, 30, 45) and E (60, 60, 10, 10) of `test/SpatialDictionaryTests.py:26-27` with cell size 25: they overlap, D's corners lie in cells 5, 6, 13 and 14, and E lies in cell 10, so the pair is never found | every cell of the block between the corners is covered (the commented-out loop at lines 59-64), so overlapping volumes always share a cell | high; not executed | Spatial.CornersMissOverlap | Spatial.CoveredComplete |
| src/CollisionDetector.py:35-43 | `_get_set_of_collisions` is called without `self.`, a `NameError` on the first listed object | any detector listing at least one object | the method is called on `self`, and the pairs of every listed object are collected | high; not executed | Collisions.AsWrittenFailsWhereIntendedAnswers | Collisions.PairsAreComplete |
| src/CollisionDetector.py:28-30 | `remove_objs(objs)` loops over `self.objs`, so it removes every listed object and ignores its argument | a detector listing A and B, asked to remove only A: B is removed as well | only the given objects are removed | high; not executed | Collisions.RemoveObjsAsWritten | Collisions.RemoveObjsIntended |
| src/Animation.py:92-98 | `_get_frame_number` is called without `self.`, a `NameError` on every call | any started animation | the frame number comes from `self._get_frame_number`, and the frame is cut out of the sheet | high; not executed | Animations.AsWrittenNeverAnswers | Animations.FrameInSheet |
| src/StateMachine.py:118-120 | the transitions are stored in a `networkx` `DiGraph`, which keeps one edge per pair of states, so the monster's collision transitions replace its timeout transitions out of the move states (src/Monster.py:43-50); the spin shows only once the repairs listed under Left out are made, since as written `Monster()` already fails on the timeout it passes to `IdleState` and the first step fails on the bare `PhysicalState` an idle state returns | `test/MonsterTests.py:47-57`: after updates of 100, 1, 1, 1, 1 and 96, the next update of 1 times out `move_up`, and the `while` loop at lines 67-69 never ends | every declared transition is kept (a multigraph, or a list), so a timeout in a move state leads on to the next idle state | medium; not executed | Monster.AsWrittenMoveSpins | Monster.StepMovesOnCycle |
