/** The dictionary graph of `src/Graph.py`: nodes are states keyed by
    name, and every node has a map from the `repr` of an event to the name
    of the node that event leads to. */
module Graphs {
  import opened Options
  import opened Events
  import opened States

  datatype Graph = Graph(nodes: map<string, State>, edges: map<string, map<string, string>>)

  /** One `(start, end, event)` triple of `add_edges_from_source`. */
  datatype Edge = Edge(start: string, end: string, event: Event)

  /** `Graph()`: no nodes and no edges. */
  const EmptyGraph := Graph(map[], map[])

  /** Every node has an edge map and every edge map belongs to a node. */
  predicate Shaped(g: Graph)
  {
    g.nodes.Keys == g.edges.Keys
  }

  /** `add_node`: the node is stored under its name, and that name's edge
      map starts (again) empty; every other name keeps its node and its
      edges. */
  function AddNode(g: Graph, s: State): (r: Graph)
    ensures s.name in r.nodes && r.nodes[s.name] == s
    ensures s.name in r.edges && r.edges[s.name] == map[]
    ensures r.nodes.Keys == g.nodes.Keys + {s.name}
    ensures r.edges.Keys == g.edges.Keys + {s.name}
    ensures forall n :: n in g.nodes && n != s.name ==> r.nodes[n] == g.nodes[n]
    ensures forall n :: n in g.edges && n != s.name ==> r.edges[n] == g.edges[n]
    ensures Shaped(g) ==> Shaped(r)
  {
    Graph(g.nodes[s.name := s], g.edges[s.name := map[]])
  }

  /** Adding nodes one after the other, from the first. */
  function AddNodes(g: Graph, ss: seq<State>): Graph
    decreases |ss|
  {
    if |ss| == 0 then g else AddNodes(AddNode(g, ss[0]), ss[1..])
  }

  /** The names of a list of states. */
  function Names(ss: seq<State>): set<string>
    decreases |ss|
  {
    if |ss| == 0 then {} else {ss[0].name} + Names(ss[1..])
  }

  /** Each state's name is among the names. */
  lemma {:induction false} NamesHasEach(ss: seq<State>, i: nat)
    requires i < |ss|
    ensures ss[i].name in Names(ss)
    decreases |ss|
  {
    if i > 0 {
      NamesHasEach(ss[1..], i - 1);
    }
  }

  /** Every added name gets a node and an empty edge map; other names keep
      theirs, and the graph stays shaped. */
  lemma {:induction false} AddNodesKeys(g: Graph, ss: seq<State>)
    ensures AddNodes(g, ss).nodes.Keys == g.nodes.Keys + Names(ss)
    ensures AddNodes(g, ss).edges.Keys == g.edges.Keys + Names(ss)
    ensures forall n :: n in Names(ss) ==> AddNodes(g, ss).edges[n] == map[]
    ensures forall n :: n in g.edges && n !in Names(ss) ==> AddNodes(g, ss).edges[n] == g.edges[n]
    ensures Shaped(g) ==> Shaped(AddNodes(g, ss))
    decreases |ss|
  {
    if |ss| > 0 {
      AddNodesKeys(AddNode(g, ss[0]), ss[1..]);
    }
  }

  /** A node that no later node of the list renames is the one stored. */
  lemma {:induction false} AddNodesLastWins(g: Graph, ss: seq<State>, i: nat)
    requires i < |ss|
    requires forall j :: i < j < |ss| ==> ss[j].name != ss[i].name
    ensures ss[i].name in AddNodes(g, ss).nodes && AddNodes(g, ss).nodes[ss[i].name] == ss[i]
    decreases |ss|
  {
    AddNodesKeys(g, ss);
    if i > 0 {
      AddNodesLastWins(AddNode(g, ss[0]), ss[1..], i - 1);
    } else {
      AddNodesKeep(AddNode(g, ss[0]), ss[1..], ss[0].name);
    }
  }

  /** Adding nodes under other names keeps a node. */
  lemma {:induction false} AddNodesKeep(g: Graph, ss: seq<State>, n: string)
    requires n in g.nodes
    requires forall j :: 0 <= j < |ss| ==> ss[j].name != n
    ensures n in AddNodes(g, ss).nodes && AddNodes(g, ss).nodes[n] == g.nodes[n]
    decreases |ss|
  {
    if |ss| > 0 {
      AddNodesKeep(AddNode(g, ss[0]), ss[1..], n);
    }
  }

  /** `add_edge(start, end, event)`: the entry for `repr(event)` in
      `start`'s edge map becomes `end`, replacing an earlier destination
      for the same key. A start without an edge map is a `KeyError`,
      modelled as `None`. Nothing else changes. */
  function AddEdge(g: Graph, start: string, end: string, event: Event): (r: Option<Graph>)
    ensures r.Some? <==> start in g.edges
    ensures r.Some? ==> r.value.nodes == g.nodes && r.value.edges.Keys == g.edges.Keys
    ensures r.Some? ==> Repr(event) in r.value.edges[start] && r.value.edges[start][Repr(event)] == end
    ensures r.Some? ==> r.value.edges[start].Keys == g.edges[start].Keys + {Repr(event)}
    ensures r.Some? ==> forall k :: k in g.edges[start] && k != Repr(event) ==> r.value.edges[start][k] == g.edges[start][k]
    ensures r.Some? ==> forall n :: n in g.edges && n != start ==> r.value.edges[n] == g.edges[n]
    ensures r.Some? && Shaped(g) ==> Shaped(r.value)
  {
    if start in g.edges then
      Some(Graph(g.nodes, g.edges[start := g.edges[start][Repr(event) := end]]))
    else None
  }

  /** Adding the edges one after the other, from the first; the first
      edge whose start has no edge map stops the fold with `None`. */
  function FoldEdges(g: Graph, es: seq<Edge>): Option<Graph>
    decreases |es|
  {
    if |es| == 0 then Some(g)
    else match AddEdge(g, es[0].start, es[0].end, es[0].event)
      case None => None
      case Some(g') => FoldEdges(g', es[1..])
  }

  /** `add_edges_from_source`: the loop adds the edges in list order, so
      the result is the fold of `add_edge` over the list. */
  method AddEdgesFromSource(g: Graph, es: seq<Edge>) returns (r: Option<Graph>)
    ensures r == FoldEdges(g, es)
  {
    var cur := g;
    var k := 0;
    while k < |es|
      invariant 0 <= k <= |es|
      invariant FoldEdges(cur, es[k..]) == FoldEdges(g, es)
    {
      assert es[k..][1..] == es[k + 1..];
      var next := AddEdge(cur, es[k].start, es[k].end, es[k].event);
      if next.None? {
        return None;
      }
      cur := next.value;
      k := k + 1;
    }
    assert es[k..] == [];
    r := Some(cur);
  }

  /** The destination of the last edge that leaves `start` for the event
      rendered as `key`, if there is one. */
  function LastEnd(es: seq<Edge>, start: string, key: string): Option<string>
    decreases |es|
  {
    if |es| == 0 then None
    else
      var later := LastEnd(es[1..], start, key);
      if later.Some? then later
      else if es[0].start == start && Repr(es[0].event) == key then Some(es[0].end)
      else None
  }

  /** The destination `key` has in an edge map, if any. */
  function Find(m: map<string, string>, key: string): Option<string>
  {
    if key in m then Some(m[key]) else None
  }

  /** The node an event leads to from `current`: only an event whose
      `repr` is a key of `current`'s edge map leads anywhere. */
  function Target(g: Graph, current: string, e: Event): Option<string>
  {
    if current in g.edges then Find(g.edges[current], Repr(e)) else None
  }

  /** The last edge found is the last one given: an edge for the start
      and key that no later edge repeats. */
  lemma {:induction false} LastEndAt(es: seq<Edge>, start: string, key: string, k: nat)
    requires k < |es| && es[k].start == start && Repr(es[k].event) == key
    requires forall j :: k < j < |es| ==> es[j].start != start || Repr(es[j].event) != key
    ensures LastEnd(es, start, key) == Some(es[k].end)
    decreases |es|
  {
    if k > 0 {
      LastEndAt(es[1..], start, key, k - 1);
    } else {
      LastEndAbsent(es[1..], start, key);
    }
  }

  /** Without an edge for the start and key nothing is found, and what is
      found belongs to some edge for them. */
  lemma {:induction false} LastEndAbsent(es: seq<Edge>, start: string, key: string)
    ensures LastEnd(es, start, key).Some? <==> exists i :: 0 <= i < |es| && es[i].start == start && Repr(es[i].event) == key
    decreases |es|
  {
    if |es| > 0 {
      LastEndAbsent(es[1..], start, key);
      if LastEnd(es[1..], start, key).Some? {
        var i :| 0 <= i < |es[1..]| && es[1..][i].start == start && Repr(es[1..][i].event) == key;
        assert es[i + 1] == es[1..][i];
      } else {
        assert forall i :: 1 <= i < |es| ==> es[i] == es[1..][i - 1];
      }
    }
  }

  /** The fold succeeds exactly when every edge starts at a node that has
      an edge map, and it leaves the nodes and the set of edge maps as
      they were. */
  lemma {:induction false} FoldEdgesSucceedsIff(g: Graph, es: seq<Edge>)
    ensures FoldEdges(g, es).Some? <==> forall i :: 0 <= i < |es| ==> es[i].start in g.edges
    ensures FoldEdges(g, es).Some? ==> FoldEdges(g, es).value.nodes == g.nodes
    ensures FoldEdges(g, es).Some? ==> FoldEdges(g, es).value.edges.Keys == g.edges.Keys
    decreases |es|
  {
    if |es| > 0 {
      var n := AddEdge(g, es[0].start, es[0].end, es[0].event);
      if n.Some? {
        FoldEdgesSucceedsIff(n.value, es[1..]);
        assert forall i :: 1 <= i < |es| ==> es[i] == es[1..][i - 1];
      }
    }
  }

  /** After the fold, an event key leads from a node to the destination of
      the last edge given for that node and key; without such an edge the
      node keeps what it had. */
  lemma {:induction false} FoldEdgesLastWins(g: Graph, es: seq<Edge>, start: string, key: string)
    requires FoldEdges(g, es).Some? && start in g.edges
    ensures start in FoldEdges(g, es).value.edges
    ensures Find(FoldEdges(g, es).value.edges[start], key)
         == (if LastEnd(es, start, key).Some? then LastEnd(es, start, key) else Find(g.edges[start], key))
    decreases |es|
  {
    if |es| > 0 {
      var n := AddEdge(g, es[0].start, es[0].end, es[0].event).value;
      FoldEdgesLastWins(n, es[1..], start, key);
    }
  }

  /** Edges folded into a graph whose edge maps are all empty, each edge
      starting at a node: the fold succeeds, and an event leads from a
      node exactly where the last edge given for it leads. */
  lemma FoldIntoBare(g: Graph, es: seq<Edge>, c: string, e: Event)
    requires forall i :: 0 <= i < |es| ==> es[i].start in g.edges
    requires forall n :: n in g.edges ==> g.edges[n] == map[]
    ensures FoldEdges(g, es).Some?
    ensures FoldEdges(g, es).value.nodes == g.nodes
    ensures Target(FoldEdges(g, es).value, c, e) == LastEnd(es, c, Repr(e))
  {
    FoldEdgesSucceedsIff(g, es);
    LastEndAbsent(es, c, Repr(e));
    if c in g.edges {
      FoldEdgesLastWins(g, es, c, Repr(e));
    }
  }

  /** Re-adding a node discards the edges that already left it. */
  lemma AddNodeAgainForgetsEdges(g: Graph, s: State, key: string, end: string, e: Event)
    requires Repr(e) == key
    ensures AddEdge(AddNode(g, s), s.name, end, e).Some?
    ensures Find(AddNode(AddEdge(AddNode(g, s), s.name, end, e).value, s).edges[s.name], key) == None
    ensures Find(AddEdge(AddNode(g, s), s.name, end, e).value.edges[s.name], key) == Some(end)
  {
  }
}
