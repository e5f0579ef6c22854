/**
 * `build_graph` from knowledge_graph/graph_builder.py: one node per disease
 * (label Disease), one per symptom (label Symptom), then one undirected
 * edge per relationship, carrying the relationship's type.
 */
module GraphBuilder {
  import opened Wrappers
  import opened Seqs
  import opened Schema
  import opened Graphs
  import opened DataProcessor

  /** `for n in ns: G.add_node(n, label=l)` */
  function AddNodes(g: Graph, ns: seq<string>, l: string): Graph
    decreases |ns|
  {
    if ns == [] then g else AddNode(AddNodes(g, ns[..|ns| - 1], l), ns[|ns| - 1], l)
  }

  /** `for rel in rels: G.add_edge(rel['source'], rel['target'], type=rel['type'])` */
  function AddEdges(g: Graph, rels: seq<Relationship>): Graph
    decreases |rels|
  {
    if rels == [] then g else
      var r := rels[|rels| - 1];
      AddEdge(AddEdges(g, rels[..|rels| - 1]), r.source, r.target, r.relType)
  }

  /** The graph `build_graph(diseases, symptoms, relationships)` returns. */
  function Build(diseases: seq<string>, symptoms: seq<string>, relationships: seq<Relationship>): Graph
  {
    AddEdges(AddNodes(AddNodes(Empty, diseases, DISEASE), symptoms, SYMPTOM), relationships)
  }

  /** The ends of the relationships in the order `add_edge` meets them: source, then target. */
  function Endpoints(rels: seq<Relationship>): (r: seq<string>)
    ensures |r| == 2 * |rels|
    decreases |rels|
  {
    if rels == [] then [] else
      var last := rels[|rels| - 1];
      Endpoints(rels[..|rels| - 1]) + [last.source, last.target]
  }

  /** The type of the last relationship joining `x` and `y` (in either direction): later ones overwrite. */
  function LastType(rels: seq<Relationship>, x: string, y: string): (t: Option<string>)
    ensures t.Some? ==> exists r :: r in rels && SamePair(x, y, r.source, r.target) && r.relType == t.value
    decreases |rels|
  {
    if rels == [] then None else
      var last := rels[|rels| - 1];
      if SamePair(x, y, last.source, last.target) then Some(last.relType)
      else LastType(rels[..|rels| - 1], x, y)
  }

  method BuildGraph(diseases: seq<string>, symptoms: seq<string>, relationships: seq<Relationship>) returns (g: Graph)
    ensures g == Build(diseases, symptoms, relationships)
    ensures Valid(g)
  {
    g := Empty;
    for i := 0 to |diseases|
      invariant g == AddNodes(Empty, diseases[..i], DISEASE)
    {
      assert diseases[..i + 1][..i] == diseases[..i];
      g := AddNode(g, diseases[i], DISEASE);
    }
    assert diseases[..|diseases|] == diseases;
    ghost var g0 := g;
    for i := 0 to |symptoms|
      invariant g == AddNodes(g0, symptoms[..i], SYMPTOM)
    {
      assert symptoms[..i + 1][..i] == symptoms[..i];
      g := AddNode(g, symptoms[i], SYMPTOM);
    }
    assert symptoms[..|symptoms|] == symptoms;
    ghost var g1 := g;
    for i := 0 to |relationships|
      invariant g == AddEdges(g1, relationships[..i])
    {
      assert relationships[..i + 1][..i] == relationships[..i];
      var rel := relationships[i];
      g := AddEdge(g, rel.source, rel.target, rel.relType);
    }
    assert relationships[..|relationships|] == relationships;
    BuildValid(diseases, symptoms, relationships);
  }

  // ---------------------------------------------------------------------------
  // The built graph is a graph
  // ---------------------------------------------------------------------------

  lemma {:induction false} AddNodesValid(g: Graph, ns: seq<string>, l: string)
    requires Valid(g)
    ensures Valid(AddNodes(g, ns, l))
    decreases |ns|
  {
    if ns != [] {
      AddNodesValid(g, ns[..|ns| - 1], l);
      AddNodeValid(AddNodes(g, ns[..|ns| - 1], l), ns[|ns| - 1], l);
    }
  }

  lemma {:induction false} AddEdgesValid(g: Graph, rels: seq<Relationship>)
    requires Valid(g)
    ensures Valid(AddEdges(g, rels))
    decreases |rels|
  {
    if rels != [] {
      var r := rels[|rels| - 1];
      AddEdgesValid(g, rels[..|rels| - 1]);
      AddEdgeValid(AddEdges(g, rels[..|rels| - 1]), r.source, r.target, r.relType);
    }
  }

  lemma BuildValid(diseases: seq<string>, symptoms: seq<string>, relationships: seq<Relationship>)
    ensures Valid(Build(diseases, symptoms, relationships))
  {
    AddNodesValid(Empty, diseases, DISEASE);
    AddNodesValid(AddNodes(Empty, diseases, DISEASE), symptoms, SYMPTOM);
    AddEdgesValid(AddNodes(AddNodes(Empty, diseases, DISEASE), symptoms, SYMPTOM), relationships);
  }

  // ---------------------------------------------------------------------------
  // Labels: a name listed as a symptom ends up labelled Symptom, even if it
  // was also a disease; a name only reached by an edge has no label
  // ---------------------------------------------------------------------------

  lemma {:induction false} AddNodesLabels(g: Graph, ns: seq<string>, l: string, n: string)
    ensures n in ns ==> n in AddNodes(g, ns, l).labels && AddNodes(g, ns, l).labels[n] == l
    ensures n !in ns ==> (n in AddNodes(g, ns, l).labels <==> n in g.labels)
    ensures n !in ns && n in g.labels ==> AddNodes(g, ns, l).labels[n] == g.labels[n]
    decreases |ns|
  {
    if ns != [] {
      var p := ns[..|ns| - 1];
      AddNodesLabels(g, p, l, n);
      assert ns == p + [ns[|ns| - 1]];
    }
  }

  lemma {:induction false} AddEdgesLabels(g: Graph, rels: seq<Relationship>)
    ensures AddEdges(g, rels).labels == g.labels
    decreases |rels|
  {
    if rels != [] {
      AddEdgesLabels(g, rels[..|rels| - 1]);
    }
  }

  lemma BuildLabels(diseases: seq<string>, symptoms: seq<string>, relationships: seq<Relationship>, n: string)
    ensures var g := Build(diseases, symptoms, relationships);
      && (n in g.labels <==> n in diseases || n in symptoms)
      && (n in symptoms ==> g.labels[n] == SYMPTOM)
      && (n in diseases && n !in symptoms ==> g.labels[n] == DISEASE)
  {
    var g0 := AddNodes(Empty, diseases, DISEASE);
    AddNodesLabels(Empty, diseases, DISEASE, n);
    AddNodesLabels(g0, symptoms, SYMPTOM, n);
    AddEdgesLabels(AddNodes(g0, symptoms, SYMPTOM), relationships);
  }

  // ---------------------------------------------------------------------------
  // Edges
  // ---------------------------------------------------------------------------

  lemma {:induction false} AddNodesEdges(g: Graph, ns: seq<string>, l: string, x: string, y: string)
    ensures HasEdge(AddNodes(g, ns, l), x, y) <==> HasEdge(g, x, y)
    ensures AddNodes(g, ns, l).edgeType == g.edgeType
    decreases |ns|
  {
    if ns != [] {
      var h := AddNodes(g, ns[..|ns| - 1], l);
      AddNodesEdges(g, ns[..|ns| - 1], l, x, y);
      EnsureNodeEdges(h, ns[|ns| - 1], x, y);
    }
  }

  /** Some relationship joins `x` and `y`, in either direction. */
  predicate Joins(rels: seq<Relationship>, x: string, y: string)
  {
    exists r :: r in rels && SamePair(x, y, r.source, r.target)
  }

  lemma JoinsStep(rels: seq<Relationship>, x: string, y: string)
    requires rels != []
    ensures Joins(rels, x, y) <==>
              Joins(rels[..|rels| - 1], x, y) || SamePair(x, y, rels[|rels| - 1].source, rels[|rels| - 1].target)
  {
    var p := rels[..|rels| - 1];
    var r := rels[|rels| - 1];
    if Joins(rels, x, y) {
      var r' :| r' in rels && SamePair(x, y, r'.source, r'.target);
      if r' != r {
        assert r' in p by { assert rels == p + [r]; }
      }
    }
    if Joins(p, x, y) {
      var r' :| r' in p && SamePair(x, y, r'.source, r'.target);
      assert r' in rels;
    }
  }

  lemma {:induction false} AddEdgesEdges(g: Graph, rels: seq<Relationship>, x: string, y: string)
    ensures HasEdge(AddEdges(g, rels), x, y) <==> HasEdge(g, x, y) || Joins(rels, x, y)
    decreases |rels|
  {
    if rels != [] {
      var p := rels[..|rels| - 1];
      var r := rels[|rels| - 1];
      AddEdgesEdges(g, p, x, y);
      AddEdgeEdges(AddEdges(g, p), r.source, r.target, r.relType, x, y);
      JoinsStep(rels, x, y);
    }
  }

  /** `G.has_edge(x, y)` holds exactly when some relationship joins `x` and `y`, in either direction. */
  lemma BuildEdges(diseases: seq<string>, symptoms: seq<string>, relationships: seq<Relationship>, x: string, y: string)
    ensures HasEdge(Build(diseases, symptoms, relationships), x, y) <==> Joins(relationships, x, y)
  {
    var g0 := AddNodes(Empty, diseases, DISEASE);
    AddNodesEdges(Empty, diseases, DISEASE, x, y);
    AddNodesEdges(g0, symptoms, SYMPTOM, x, y);
    AddEdgesEdges(AddNodes(g0, symptoms, SYMPTOM), relationships, x, y);
  }

  lemma EdgePairFromRelationship(diseases: seq<string>, symptoms: seq<string>, relationships: seq<Relationship>, u: string, v: string)
    requires HasEdge(Build(diseases, symptoms, relationships), u, v)
    ensures {u, v} in set r | r in relationships :: {r.source, r.target}
  {
    BuildEdges(diseases, symptoms, relationships, u, v);
    var r :| r in relationships && SamePair(u, v, r.source, r.target);
    assert {u, v} == {r.source, r.target};
  }

  /** The edges as unordered pairs are the relationships' pairs: one edge however often a pair repeats. */
  lemma BuildEdgeSet(diseases: seq<string>, symptoms: seq<string>, relationships: seq<Relationship>)
    ensures EdgeSet(Build(diseases, symptoms, relationships)) == set r | r in relationships :: {r.source, r.target}
  {
    var g := Build(diseases, symptoms, relationships);
    var pairs := set r | r in relationships :: {r.source, r.target};
    forall e | e in EdgeSet(g) ensures e in pairs {
      var u, v :| u in g.adj && v in g.adj[u] && e == {u, v};
      EdgePairFromRelationship(diseases, symptoms, relationships, u, v);
    }
    forall e | e in pairs ensures e in EdgeSet(g) {
      var r :| r in relationships && e == {r.source, r.target};
      BuildEdges(diseases, symptoms, relationships, r.source, r.target);
      assert HasEdge(g, r.source, r.target);
    }
  }

  lemma {:induction false} AddEdgesTyped(g: Graph, rels: seq<Relationship>, x: string, y: string, t: string)
    ensures TypedEdge(AddEdges(g, rels), x, y, t) <==>
              match LastType(rels, x, y) case Some(t0) => t0 == t case None => TypedEdge(g, x, y, t)
    decreases |rels|
  {
    if rels != [] {
      var p := rels[..|rels| - 1];
      var r := rels[|rels| - 1];
      AddEdgesTyped(g, p, x, y, t);
      AddEdgeTyped(AddEdges(g, p), r.source, r.target, r.relType, x, y, t);
    }
  }

  /** The `type` of an edge is that of the last relationship over the same pair. */
  lemma BuildTyped(diseases: seq<string>, symptoms: seq<string>, relationships: seq<Relationship>, x: string, y: string, t: string)
    ensures TypedEdge(Build(diseases, symptoms, relationships), x, y, t) <==> LastType(relationships, x, y) == Some(t)
  {
    var g0 := AddNodes(Empty, diseases, DISEASE);
    var g1 := AddNodes(g0, symptoms, SYMPTOM);
    AddNodesEdges(Empty, diseases, DISEASE, x, y);
    AddNodesEdges(g0, symptoms, SYMPTOM, x, y);
    AddEdgesTyped(g1, relationships, x, y, t);
  }

  /** A pair some relationship joins has a last type; whatever `preprocess_data` produced is typed HAS_SYMPTOM. */
  lemma {:induction false} LastTypeOf(rels: seq<Relationship>, x: string, y: string)
    ensures LastType(rels, x, y).Some? <==> Joins(rels, x, y)
    ensures (forall r :: r in rels ==> r.relType == HAS_SYMPTOM) && LastType(rels, x, y).Some? ==>
              LastType(rels, x, y) == Some(HAS_SYMPTOM)
    decreases |rels|
  {
    if rels != [] {
      var p := rels[..|rels| - 1];
      LastTypeOf(p, x, y);
      JoinsStep(rels, x, y);
      assert forall r :: r in p ==> r in rels;
    }
  }

  // ---------------------------------------------------------------------------
  // Nodes: every name once, in the order `add_node` / `add_edge` first meet it
  // ---------------------------------------------------------------------------

  lemma EnsureNodeOrder(g: Graph, xs: seq<string>, n: string)
    requires NodesValid(g) && g.nodes == Unique(xs)
    ensures NodesValid(EnsureNode(g, n))
    ensures EnsureNode(g, n).nodes == Unique(xs + [n])
  {
    assert (xs + [n])[..|xs|] == xs;
    if n !in g.adj {
      assert n !in g.nodes;
    }
  }

  lemma AddNodeOrder(g: Graph, xs: seq<string>, n: string, l: string)
    requires NodesValid(g) && g.nodes == Unique(xs)
    ensures NodesValid(AddNode(g, n, l))
    ensures AddNode(g, n, l).nodes == Unique(xs + [n])
  {
    EnsureNodeOrder(g, xs, n);
  }

  lemma AddEdgeOrder(g: Graph, xs: seq<string>, u: string, v: string, t: string)
    requires NodesValid(g) && g.nodes == Unique(xs)
    ensures NodesValid(AddEdge(g, u, v, t))
    ensures AddEdge(g, u, v, t).nodes == Unique(xs + [u, v])
  {
    var h := EnsureNode(EnsureNode(g, u), v);
    EnsureNodeOrder(g, xs, u);
    EnsureNodeOrder(EnsureNode(g, u), xs + [u], v);
    assert xs + [u] + [v] == xs + [u, v];
    LinkNodesValid(h, u, v, t);
  }

  lemma {:induction false} AddNodesOrder(g: Graph, xs: seq<string>, ns: seq<string>, l: string)
    requires NodesValid(g) && g.nodes == Unique(xs)
    ensures NodesValid(AddNodes(g, ns, l))
    ensures AddNodes(g, ns, l).nodes == Unique(xs + ns)
    decreases |ns|
  {
    if ns != [] {
      var p := ns[..|ns| - 1];
      AddNodesOrder(g, xs, p, l);
      AddNodeOrder(AddNodes(g, p, l), xs + p, ns[|ns| - 1], l);
      assert AddNodes(g, ns, l) == AddNode(AddNodes(g, p, l), ns[|ns| - 1], l);
      assert xs + p + [ns[|ns| - 1]] == xs + ns;
    } else {
      assert xs + ns == xs;
    }
  }

  lemma EndpointsStep(xs: seq<string>, rels: seq<Relationship>)
    requires rels != []
    ensures xs + Endpoints(rels) == xs + Endpoints(rels[..|rels| - 1]) + [rels[|rels| - 1].source, rels[|rels| - 1].target]
  {
  }

  lemma {:induction false} AddEdgesOrder(g: Graph, xs: seq<string>, rels: seq<Relationship>)
    requires NodesValid(g) && g.nodes == Unique(xs)
    ensures NodesValid(AddEdges(g, rels))
    ensures AddEdges(g, rels).nodes == Unique(xs + Endpoints(rels))
    decreases |rels|
  {
    if rels != [] {
      var p := rels[..|rels| - 1];
      var r := rels[|rels| - 1];
      AddEdgesOrder(g, xs, p);
      AddEdgeOrder(AddEdges(g, p), xs + Endpoints(p), r.source, r.target, r.relType);
      EndpointsStep(xs, rels);
    } else {
      assert xs + Endpoints(rels) == xs;
    }
  }

  /** `list(G.nodes)`: the diseases, the symptoms and the relationship ends, each once, in first-appearance order. */
  lemma BuildNodes(diseases: seq<string>, symptoms: seq<string>, relationships: seq<Relationship>)
    ensures Build(diseases, symptoms, relationships).nodes == Unique(diseases + symptoms + Endpoints(relationships))
    ensures |Build(diseases, symptoms, relationships).nodes| == |SetOf(diseases + symptoms + Endpoints(relationships))|
  {
    var g0 := AddNodes(Empty, diseases, DISEASE);
    var g1 := AddNodes(g0, symptoms, SYMPTOM);
    assert Empty.nodes == Unique([]);
    AddNodesOrder(Empty, [], diseases, DISEASE);
    assert [] + diseases == diseases;
    AddNodesOrder(g0, diseases, symptoms, SYMPTOM);
    AddEdgesOrder(g1, diseases + symptoms, relationships);
    UniqueCard(diseases + symptoms + Endpoints(relationships));
  }
}
