/**
 * The part of networkx's undirected `nx.Graph` that the pipeline uses, as a
 * value. A graph keeps its nodes in insertion order, an optional `label`
 * attribute per node, per node its neighbours in insertion order (the order
 * in which `G.neighbors(n)` and `G.edges(n)` report them) and the `type`
 * attribute of each edge, which both directions share. A pair is joined at
 * most once.
 */
module Graphs {
  import opened Seqs

  datatype Graph = Graph(
    nodes: seq<string>,
    labels: map<string, string>,
    adj: map<string, seq<string>>,
    edgeType: map<(string, string), string>)

  /** `nx.Graph()` */
  const Empty: Graph := Graph([], map[], map[], map[])

  /** The consistency networkx keeps between its node dict and its adjacency dicts. */
  ghost predicate Valid(g: Graph)
  {
    NodesValid(g) && AdjValid(g) && TypesValid(g)
  }

  ghost predicate NodesValid(g: Graph)
  {
    NoDup(g.nodes)
    && (forall n :: n in g.adj <==> n in g.nodes)
    && (forall n :: n in g.labels ==> n in g.adj)
  }

  /** Neighbour lists are duplicate-free and every edge is seen from both ends. */
  ghost predicate AdjValid(g: Graph)
  {
    (forall u :: u in g.adj ==> NoDup(g.adj[u]))
    && (forall u, v :: u in g.adj && v in g.adj[u] ==> v in g.adj && u in g.adj[v])
  }

  /** Exactly the edges carry a type, and both directions share it. */
  ghost predicate TypesValid(g: Graph)
  {
    (forall u, v :: (u, v) in g.edgeType <==> u in g.adj && v in g.adj[u])
    && (forall u, v :: (u, v) in g.edgeType ==> (v, u) in g.edgeType && g.edgeType[(v, u)] == g.edgeType[(u, v)])
  }

  /** `G.has_edge(u, v)` */
  predicate HasEdge(g: Graph, u: string, v: string)
  {
    u in g.adj && v in g.adj[u]
  }

  /** An edge between `u` and `v` whose `type` attribute is `t`. */
  predicate TypedEdge(g: Graph, u: string, v: string, t: string)
  {
    HasEdge(g, u, v) && (u, v) in g.edgeType && g.edgeType[(u, v)] == t
  }

  /** The edges as unordered pairs: what `G.edges` enumerates, each edge once. */
  ghost function EdgeSet(g: Graph): set<set<string>>
  {
    set u, v | u in g.adj && v in g.adj[u] :: {u, v}
  }

  /** `G._adj[u][v] = datadict`: a new neighbour goes to the end, a known one keeps its place. */
  function Append(s: seq<string>, v: string): (r: seq<string>)
    ensures NoDup(s) ==> NoDup(r)
    ensures forall x :: x in r <==> x in s || x == v
  {
    if v in s then s else s + [v]
  }

  // ---------------------------------------------------------------------------
  // `G.add_node(n, label=l)` and `G.add_edge(u, v, type=t)`
  // ---------------------------------------------------------------------------

  /** Adds `n` if missing (at the end of the node order) and sets its `label` attribute. */
  function AddNode(g: Graph, n: string, l: string): Graph
  {
    if n in g.adj then g.(labels := g.labels[n := l])
    else Graph(g.nodes + [n], g.labels[n := l], g.adj[n := []], g.edgeType)
  }

  /** Adds `n` if missing, without attributes (what `add_edge` does for an unknown end). */
  function EnsureNode(g: Graph, n: string): (h: Graph)
    ensures n in h.adj && h.adj.Keys == g.adj.Keys + {n}
    ensures h.labels == g.labels && h.edgeType == g.edgeType
  {
    if n in g.adj then g else Graph(g.nodes + [n], g.labels, g.adj[n := []], g.edgeType)
  }

  /** The adjacency update of `add_edge(u, v)` once both ends are nodes. */
  function Link(g: Graph, u: string, v: string, t: string): Graph
    requires u in g.adj && v in g.adj
  {
    var adj1 := g.adj[u := Append(g.adj[u], v)];
    Graph(g.nodes, g.labels, adj1[v := Append(adj1[v], u)], g.edgeType[(u, v) := t][(v, u) := t])
  }

  /** `G.add_edge(u, v, type=t)`: unknown ends become nodes first. */
  function AddEdge(g: Graph, u: string, v: string, t: string): Graph
  {
    Link(EnsureNode(EnsureNode(g, u), v), u, v, t)
  }

  predicate SamePair(x: string, y: string, u: string, v: string)
  {
    (x == u && y == v) || (x == v && y == u)
  }

  lemma EnsureNodeEdges(g: Graph, n: string, x: string, y: string)
    ensures HasEdge(EnsureNode(g, n), x, y) <==> HasEdge(g, x, y)
    ensures n !in g.adj ==> EnsureNode(g, n).adj[n] == []
  {
  }

  lemma EnsureNodeValid(g: Graph, n: string)
    requires Valid(g)
    ensures Valid(EnsureNode(g, n))
  {
    if n !in g.adj {
      assert n !in g.nodes;
      var h := EnsureNode(g, n);
      forall x, y | x in h.adj && y in h.adj[x] ensures HasEdge(g, x, y) {
        EnsureNodeEdges(g, n, x, y);
      }
    }
  }

  lemma AddNodeValid(g: Graph, n: string, l: string)
    requires Valid(g)
    ensures Valid(AddNode(g, n, l))
    ensures AddNode(g, n, l).adj == EnsureNode(g, n).adj
    ensures AddNode(g, n, l).nodes == EnsureNode(g, n).nodes
    ensures AddNode(g, n, l).edgeType == g.edgeType
  {
    EnsureNodeValid(g, n);
  }

  lemma LinkNodesValid(g: Graph, u: string, v: string, t: string)
    requires NodesValid(g) && u in g.adj && v in g.adj
    ensures NodesValid(Link(g, u, v, t))
    ensures Link(g, u, v, t).nodes == g.nodes
  {
    assert Link(g, u, v, t).adj.Keys == g.adj.Keys;
  }

  lemma LinkEdges(g: Graph, u: string, v: string, t: string, x: string, y: string)
    requires u in g.adj && v in g.adj
    ensures HasEdge(Link(g, u, v, t), x, y) <==> HasEdge(g, x, y) || SamePair(x, y, u, v)
  {
  }

  lemma LinkAdjValid(g: Graph, u: string, v: string, t: string)
    requires NodesValid(g) && AdjValid(g) && u in g.adj && v in g.adj
    ensures NodesValid(Link(g, u, v, t)) && AdjValid(Link(g, u, v, t))
  {
    var h := Link(g, u, v, t);
    assert h.adj.Keys == g.adj.Keys;
    forall x | x in h.adj ensures NoDup(h.adj[x]) {
      if x != v && x != u {
        assert h.adj[x] == g.adj[x];
      }
    }
    forall x, y | x in h.adj && y in h.adj[x] ensures y in h.adj && x in h.adj[y] {
      LinkEdges(g, u, v, t, x, y);
      LinkEdges(g, u, v, t, y, x);
    }
  }

  lemma LinkTypeKeys(g: Graph, u: string, v: string, t: string, x: string, y: string)
    requires TypesValid(g) && u in g.adj && v in g.adj
    ensures (x, y) in Link(g, u, v, t).edgeType <==> HasEdge(Link(g, u, v, t), x, y)
  {
    LinkEdges(g, u, v, t, x, y);
  }

  lemma LinkTypeSym(g: Graph, u: string, v: string, t: string, x: string, y: string)
    requires TypesValid(g) && u in g.adj && v in g.adj
    requires (x, y) in Link(g, u, v, t).edgeType
    ensures (y, x) in Link(g, u, v, t).edgeType
    ensures Link(g, u, v, t).edgeType[(y, x)] == Link(g, u, v, t).edgeType[(x, y)]
  {
    if !SamePair(x, y, u, v) {
      assert (x, y) in g.edgeType;
    }
  }

  lemma LinkValid(g: Graph, u: string, v: string, t: string)
    requires Valid(g) && u in g.adj && v in g.adj
    ensures Valid(Link(g, u, v, t))
  {
    var h := Link(g, u, v, t);
    LinkAdjValid(g, u, v, t);
    forall x, y ensures (x, y) in h.edgeType <==> x in h.adj && y in h.adj[x] {
      LinkTypeKeys(g, u, v, t, x, y);
    }
    forall x, y | (x, y) in h.edgeType
      ensures (y, x) in h.edgeType && h.edgeType[(y, x)] == h.edgeType[(x, y)]
    {
      LinkTypeSym(g, u, v, t, x, y);
    }
  }

  /** The edge relation after `add_edge(u, v)`: the old one plus the pair {u, v}. */
  lemma AddEdgeEdges(g: Graph, u: string, v: string, t: string, x: string, y: string)
    ensures HasEdge(AddEdge(g, u, v, t), x, y) <==> HasEdge(g, x, y) || SamePair(x, y, u, v)
  {
    EnsureNodeEdges(g, u, x, y);
    EnsureNodeEdges(EnsureNode(g, u), v, x, y);
    LinkEdges(EnsureNode(EnsureNode(g, u), v), u, v, t, x, y);
  }

  lemma AddEdgeValid(g: Graph, u: string, v: string, t: string)
    requires Valid(g)
    ensures Valid(AddEdge(g, u, v, t))
    ensures AddEdge(g, u, v, t).nodes == EnsureNode(EnsureNode(g, u), v).nodes
    ensures AddEdge(g, u, v, t).labels == g.labels
  {
    EnsureNodeValid(g, u);
    EnsureNodeValid(EnsureNode(g, u), v);
    LinkValid(EnsureNode(EnsureNode(g, u), v), u, v, t);
  }

  /** After `add_edge(u, v, type=t)` the pair {u, v} has type `t`; every other pair keeps its type. */
  lemma AddEdgeTyped(g: Graph, u: string, v: string, t: string, x: string, y: string, t': string)
    ensures TypedEdge(AddEdge(g, u, v, t), x, y, t') <==>
              if SamePair(x, y, u, v) then t' == t else TypedEdge(g, x, y, t')
  {
    var g1 := EnsureNode(EnsureNode(g, u), v);
    AddEdgeEdges(g, u, v, t, x, y);
    EnsureNodeEdges(g, u, x, y);
    EnsureNodeEdges(EnsureNode(g, u), v, x, y);
    assert AddEdge(g, u, v, t).edgeType == g.edgeType[(u, v) := t][(v, u) := t];
  }

  // ---------------------------------------------------------------------------
  // Reading a graph
  // ---------------------------------------------------------------------------

  function NodesIn(ns: seq<string>, keep: set<string>): (r: seq<string>)
    ensures forall n :: n in r <==> n in ns && n in keep
    ensures NoDup(ns) ==> NoDup(r)
    decreases |ns|
  {
    if ns == [] then [] else
      var p := ns[..|ns| - 1];
      assert NoDup(ns) ==> ns[|ns| - 1] !in p;
      NodesIn(p, keep) + (if ns[|ns| - 1] in keep then [ns[|ns| - 1]] else [])
  }

  /** Keeping nothing leaves nothing. */
  lemma {:induction false} NodesInNone(ns: seq<string>)
    ensures NodesIn(ns, {}) == []
    decreases |ns|
  {
    if ns != [] {
      NodesInNone(ns[..|ns| - 1]);
    }
  }

  /** `[n for n, attr in G.nodes(data=True) if attr.get('label') == l]` */
  function NodesLabelled(g: Graph, l: string): (r: seq<string>)
    ensures forall n :: n in r <==> n in g.nodes && n in g.labels && g.labels[n] == l
  {
    NodesIn(g.nodes, set n | n in g.labels && g.labels[n] == l)
  }

  /** The neighbours of `u` reached over edges of type `t`, in adjacency order. */
  function TypedNbrs(g: Graph, u: string, ns: seq<string>, t: string): (r: seq<string>)
    ensures forall n :: n in r <==> n in ns && (u, n) in g.edgeType && g.edgeType[(u, n)] == t
    decreases |ns|
  {
    if ns == [] then [] else
      var p := ns[..|ns| - 1];
      var n := ns[|ns| - 1];
      TypedNbrs(g, u, p, t) + (if (u, n) in g.edgeType && g.edgeType[(u, n)] == t then [n] else [])
  }

  /** `G.neighbors(n)` as a set. */
  function NbrSet(g: Graph, n: string): set<string>
  {
    if n in g.adj then set m | m in g.adj[n] else {}
  }

  /**
   * `G.subgraph(keep)`: the nodes of `keep` that are in the graph, in graph
   * order, with their attributes, and the edges with both ends in `keep`.
   */
  function Induced(g: Graph, keep: set<string>): Graph
  {
    Graph(NodesIn(g.nodes, keep),
          map n | n in g.labels && n in keep :: g.labels[n],
          map n | n in g.adj && n in keep :: NodesIn(g.adj[n], keep),
          map e | e in g.edgeType && e.0 in keep && e.1 in keep :: g.edgeType[e])
  }

  /** The edges of the induced subgraph are exactly the graph's edges inside `keep`. */
  lemma InducedEdges(g: Graph, keep: set<string>, x: string, y: string)
    ensures HasEdge(Induced(g, keep), x, y) <==> HasEdge(g, x, y) && x in keep && y in keep
  {
    var h := Induced(g, keep);
    if x in g.adj && x in keep {
      assert h.adj[x] == NodesIn(g.adj[x], keep);
    }
  }

  /** ... and they keep their types. */
  lemma InducedTyped(g: Graph, keep: set<string>, x: string, y: string, t: string)
    ensures TypedEdge(Induced(g, keep), x, y, t) <==> TypedEdge(g, x, y, t) && x in keep && y in keep
  {
    InducedEdges(g, keep, x, y);
  }

  /** The induced subgraph is a graph, with the nodes of `keep` that the graph has. */
  lemma InducedValid(g: Graph, keep: set<string>)
    requires Valid(g)
    ensures Valid(Induced(g, keep))
    ensures forall n :: n in Induced(g, keep).nodes <==> n in g.nodes && n in keep
  {
    var h := Induced(g, keep);
    assert NodesValid(h);
    assert AdjValid(h) by {
      forall x, y | x in h.adj && y in h.adj[x] ensures y in h.adj && x in h.adj[y] {
        InducedEdges(g, keep, x, y);
        InducedEdges(g, keep, y, x);
      }
    }
    assert TypesValid(h) by {
      forall x, y ensures (x, y) in h.edgeType <==> x in h.adj && y in h.adj[x] {
        InducedEdges(g, keep, x, y);
      }
    }
  }
}
