/** The player of `src/Player.py`: an idle state and four move states in a
    dictionary graph, where pressing a direction key moves and releasing
    it stops. Edges are keyed by the exact `repr` of the key event. */
module Player {
  import opened Options
  import opened Strings
  import opened Events
  import opened States
  import opened Graphs

  /** The start state, the idle state the graph is handed. */
  const Start := "idle_1"

  /** The four direction keys, in the order their edges are listed. */
  const Directions: seq<string> := ["up", "left", "right", "down"]

  /** The five nodes, in the order they are added; no timeouts are given. */
  const Nodes: seq<State> := [
    NewMove("up", 0, -1, Infinite),
    NewMove("down", 0, 1, Infinite),
    NewMove("left", -1, 0, Infinite),
    NewMove("right", 1, 0, Infinite),
    NewIdle("1", Infinite)
  ]

  /** A key event with the key's name as its only parameter. */
  function Key(kind: string, d: string): Event
  {
    Event(kind, [Param("key", Str(d))])
  }

  /** Pressing `d` in the idle state moves in direction `d`. */
  function Press(d: string): Edge
  {
    Edge(Start, "move_" + d, Key(KeyDown, d))
  }

  /** Releasing `d` in the move state for `d` returns to idle. */
  function Release(d: string): Edge
  {
    Edge("move_" + d, Start, Key(KeyUp, d))
  }

  /** The eight edges, in the order they are listed. */
  const PlayerEdges: seq<Edge> := [
    Press("up"), Press("left"), Press("right"), Press("down"),
    Release("up"), Release("left"), Release("right"), Release("down")
  ]

  /** `_setup_machine`: the nodes, then the edges. */
  function Setup(): Option<Graph>
  {
    FoldEdges(AddNodes(EmptyGraph, Nodes), PlayerEdges)
  }

  /** The graph with the nodes but no edges yet. */
  function Bare(): Graph
  {
    AddNodes(EmptyGraph, Nodes)
  }

  /** Which node moves in each direction, and with which velocity. */
  const MoveNode: seq<nat> := [0, 2, 3, 1]
  const DirVx: seq<int> := [0, -1, 1, 0]
  const DirVy: seq<int> := [-1, 0, 0, 1]

  /** The names and velocities of the move states. */
  lemma MoveNames(j: nat)
    requires j < |Directions|
    ensures Nodes[MoveNode[j]].name == "move_" + Directions[j]
    ensures Nodes[MoveNode[j]].behaviour == Move(DirVx[j], DirVy[j])
    ensures |Directions[j]| > 0
  {
  }

  /** The last node is the idle start state. */
  lemma IdleNode()
    ensures Nodes[4].name == Start && Nodes[4].behaviour == Idle
  {
  }

  /** Every node's name has an empty edge map in the bare graph. */
  lemma BareShape(i: nat)
    requires i < |Nodes|
    ensures Nodes[i].name in Bare().edges && Bare().edges[Nodes[i].name] == map[]
  {
    AddNodesKeys(EmptyGraph, Nodes);
    NamesHasEach(Nodes, i);
  }

  /** The bare graph has no edges at all. */
  lemma BareEmpty()
    ensures forall n :: n in Bare().edges ==> Bare().edges[n] == map[]
  {
    AddNodesKeys(EmptyGraph, Nodes);
  }

  /** The edges are presses from the idle state, then releases. */
  lemma EdgeShape(i: nat)
    requires i < |PlayerEdges|
    ensures PlayerEdges[i] == if i < 4 then Press(Directions[i]) else Release(Directions[i - 4])
  {
  }

  /** Which node each edge starts at. */
  const StartNode: seq<nat> := [4, 4, 4, 4, 0, 2, 3, 1]

  lemma EdgeStartIsNode(i: nat)
    requires i < |PlayerEdges|
    ensures StartNode[i] < |Nodes| && PlayerEdges[i].start == Nodes[StartNode[i]].name
  {
    EdgeShape(i);
    if i >= 4 {
      MoveNames(i - 4);
    }
  }

  /** The `repr` of a key event. */
  lemma KeyRepr(kind: string, d: string)
    ensures Repr(Key(kind, d)) == kind + ",key:'" + d + "'"
  {
    assert ReprParams([Param("key", Str(d))]) == ReprParams([]) + "," + "key" + ":" + ReprValue(Str(d));
  }

  /** No two edges share both their start and their event key. */
  lemma EdgesDiffer(i: nat, j: nat)
    requires i < j < |PlayerEdges|
    ensures PlayerEdges[i].start != PlayerEdges[j].start || Repr(PlayerEdges[i].event) != Repr(PlayerEdges[j].event)
  {
    EdgeShape(i);
    EdgeShape(j);
    if j < 4 {
      KeyRepr(KeyDown, Directions[i]);
      KeyRepr(KeyDown, Directions[j]);
      assert Repr(PlayerEdges[i].event)[13] != Repr(PlayerEdges[j].event)[13];
    } else if i < 4 {
      assert PlayerEdges[i].start[0] != PlayerEdges[j].start[0];
    } else {
      assert PlayerEdges[i].start[5] != PlayerEdges[j].start[5];
    }
  }

  /** The bare graph has an empty edge map for the start of every
      edge. */
  lemma BareFits()
    ensures forall i :: 0 <= i < |PlayerEdges| ==> PlayerEdges[i].start in Bare().edges
    ensures forall n :: n in Bare().edges ==> Bare().edges[n] == map[]
  {
    BareEmpty();
    forall i | 0 <= i < |PlayerEdges|
      ensures PlayerEdges[i].start in Bare().edges
    {
      EdgeStartIsNode(i);
      BareShape(StartNode[i]);
    }
  }

  /** The graph is built, and an event leads from a node exactly where the
      last listed edge for that node and the event's `repr` leads. */
  lemma SetupFinds(c: string, e: Event)
    ensures Setup().Some?
    ensures Setup().value.nodes == Bare().nodes
    ensures Target(Setup().value, c, e) == LastEnd(PlayerEdges, c, Repr(e))
  {
    BareFits();
    FoldIntoBare(Bare(), PlayerEdges, c, e);
  }

  /** Every listed edge is taken by exactly its own event from its own
      start. */
  lemma EdgeTaken(k: nat)
    requires k < |PlayerEdges|
    ensures Setup().Some? && Target(Setup().value, PlayerEdges[k].start, PlayerEdges[k].event) == Some(PlayerEdges[k].end)
  {
    SetupFinds(PlayerEdges[k].start, PlayerEdges[k].event);
    forall j | k < j < |PlayerEdges|
      ensures PlayerEdges[j].start != PlayerEdges[k].start || Repr(PlayerEdges[j].event) != Repr(PlayerEdges[k].event)
    {
      EdgesDiffer(k, j);
    }
    LastEndAt(PlayerEdges, PlayerEdges[k].start, Repr(PlayerEdges[k].event), k);
  }

  /** From the idle state, pressing a direction key moves that way. */
  lemma PressMoves(j: nat)
    requires j < |Directions|
    ensures Setup().Some? && Target(Setup().value, Start, Key(KeyDown, Directions[j])) == Some("move_" + Directions[j])
  {
    EdgeShape(j);
    EdgeTaken(j);
  }

  /** From a move state, releasing its key returns to the idle state. */
  lemma ReleaseStops(j: nat)
    requires j < |Directions|
    ensures Setup().Some? && Target(Setup().value, "move_" + Directions[j], Key(KeyUp, Directions[j])) == Some(Start)
  {
    EdgeShape(j + 4);
    EdgeTaken(j + 4);
  }

  /** The player starts in the idle state. */
  lemma SetupStartsIdle()
    ensures Setup().Some? && Start in Setup().value.nodes && Setup().value.nodes[Start].behaviour == Idle
  {
    IdleNode();
    SetupNode(4);
  }

  /** Each move state carries the velocity of its direction. */
  lemma SetupMoves(j: nat)
    requires j < |Directions|
    ensures Setup().Some? && "move_" + Directions[j] in Setup().value.nodes
    ensures Setup().value.nodes["move_" + Directions[j]].behaviour == Move(DirVx[j], DirVy[j])
  {
    MoveNames(j);
    SetupNode(MoveNode[j]);
  }

  /** Every node is in the built graph under its name. */
  lemma SetupNode(i: nat)
    requires i < |Nodes|
    ensures Setup().Some? && Nodes[i].name in Setup().value.nodes && Setup().value.nodes[Nodes[i].name] == Nodes[i]
  {
    SetupFinds(Start, DefaultEvent);
    NodeStored(i);
  }

  /** Each node is stored under its own name: no two share one. */
  lemma NodeStored(i: nat)
    requires i < |Nodes|
    ensures Nodes[i].name in Bare().nodes && Bare().nodes[Nodes[i].name] == Nodes[i]
  {
    forall j | i < j < |Nodes|
      ensures Nodes[j].name != Nodes[i].name
    {
      assert Nodes[j].name[5] != Nodes[i].name[5];
    }
    AddNodesLastWins(EmptyGraph, Nodes, i);
  }

  /** Every edge's key is the `repr` of a key event, which starts with
      `k`. */
  lemma KeyEventsStartWithK(i: nat)
    requires i < |PlayerEdges|
    ensures |Repr(PlayerEdges[i].event)| > 0 && Repr(PlayerEdges[i].event)[0] == 'k'
  {
    EdgeShape(i);
    ReprStartsWithType(PlayerEdges[i].event);
  }

  /** A collision, whatever its parameters, leads nowhere: no edge is
      keyed by it. */
  lemma CollisionLeadsNowhere(c: string, ps: seq<Param>)
    ensures Setup().Some? && Target(Setup().value, c, Event(Collision, ps)) == None
  {
    SetupFinds(c, Event(Collision, ps));
    ReprStartsWithType(Event(Collision, ps));
    forall i | 0 <= i < |PlayerEdges|
      ensures Repr(PlayerEdges[i].event) != Repr(Event(Collision, ps))
    {
      KeyEventsStartWithK(i);
    }
    LastEndAbsent(PlayerEdges, c, Repr(Event(Collision, ps)));
  }
}
