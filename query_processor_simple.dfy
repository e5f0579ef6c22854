/**
 * `SimpleQueryProcessor`: entity matching by substring and character
 * similarity, with a looser fuzzy rescan of the diseases when nothing
 * matched, and the 1-hop subgraph around the matches.
 */
module SimpleQuery {
  import opened Text
  import opened Graphs
  import opened Schema
  import opened Similarity
  import opened Matching

  /** Everything `process_query` matches for the given query terms. */
  function SimpleMatched(diseases: seq<string>, symptoms: seq<string>, terms: seq<string>): set<string>
  {
    var direct := DirectMatches(diseases, symptoms, terms);
    if direct == {} then RescanTier(diseases, terms) else direct
  }

  /** `process_query` on a processor built over `g`. */
  function SimpleRetrieve(g: Graph, query: string): Graph
  {
    Neighbourhood(g, SimpleMatched(NodesLabelled(g, DISEASE), NodesLabelled(g, SYMPTOM), Terms(query)))
  }

  class SimpleQueryProcessor {
    const graph: Graph
    const diseaseNodes: seq<string>
    const symptomNodes: seq<string>

    /** The node lists by label, in graph order. */
    constructor (graph: Graph)
      ensures this.graph == graph
      ensures diseaseNodes == NodesLabelled(graph, DISEASE)
      ensures symptomNodes == NodesLabelled(graph, SYMPTOM)
    {
      this.graph := graph;
      diseaseNodes := NodesLabelled(graph, DISEASE);
      symptomNodes := NodesLabelled(graph, SYMPTOM);
    }

    method ProcessQuery(query: string) returns (sub: Graph)
      ensures sub == Neighbourhood(graph, SimpleMatched(diseaseNodes, symptomNodes, Terms(query)))
    {
      var terms := Split(Lower(query));
      var matched := MatchDiseases(diseaseNodes, terms);
      matched := MatchSymptoms(symptomNodes, terms, matched);
      assert matched == DirectMatches(diseaseNodes, symptomNodes, terms);
      if matched == {} {
        for i := 0 to |diseaseNodes|
          invariant matched == RescanTier(diseaseNodes[..i], terms)
        {
          RescanTierStep(diseaseNodes, terms, i);
          var disease := diseaseNodes[i];
          var diseaseLower := Lower(disease);
          ghost var before := matched;
          for j := 0 to |terms|
            invariant matched == before
            invariant forall m :: 0 <= m < j ==> !FuzzyTerm(terms[m], diseaseLower, RESCAN_THRESHOLD, false)
          {
            var term := terms[j];
            if |term| > 3 {
              var similarity := StringSimilarity(term, diseaseLower);
              if similarity > RESCAN_THRESHOLD {
                matched := matched + {disease};
                assert FuzzyTerm(terms[j], diseaseLower, RESCAN_THRESHOLD, false);
                break;
              }
            }
          }
          assert matched == before + (if FuzzyHit(terms, diseaseLower, RESCAN_THRESHOLD, false) then {disease} else {});
        }
        assert diseaseNodes[..|diseaseNodes|] == diseaseNodes;
      }
      sub := Subgraph(graph, matched);
    }
  }

  // ---------------------------------------------------------------------------
  // Properties
  // ---------------------------------------------------------------------------

  /**
   * A matched entity is a disease or a symptom that a tier accepts, the
   * rescan counting only when tiers 1 to 3 found nothing; every entity a
   * tier accepts is matched.
   */
  lemma SimpleMatchedSpec(diseases: seq<string>, symptoms: seq<string>, terms: seq<string>, e: string)
    ensures e in SimpleMatched(diseases, symptoms, terms) <==>
              (e in diseases && DiseaseHit(terms, e))
              || (e in symptoms && AnyTermIn(terms, Lower(e)))
              || (DirectMatches(diseases, symptoms, terms) == {} && e in diseases && FuzzyHit(terms, Lower(e), RESCAN_THRESHOLD, false))
  {
    var direct := DirectMatches(diseases, symptoms, terms);
    assert e in direct <==> (e in diseases && DiseaseHit(terms, e)) || (e in symptoms && AnyTermIn(terms, Lower(e)));
    if direct == {} {
      assert e in RescanTier(diseases, terms) <==> e in diseases && FuzzyHit(terms, Lower(e), RESCAN_THRESHOLD, false);
    }
  }

  /** Nothing is matched exactly when no tier, the rescan included, accepts anything; what tiers 1 to 3 accept is always kept. */
  lemma RescanOnlyWhenNothingMatched(diseases: seq<string>, symptoms: seq<string>, terms: seq<string>)
    ensures SimpleMatched(diseases, symptoms, terms) == {} <==>
              DirectMatches(diseases, symptoms, terms) == {} && RescanTier(diseases, terms) == {}
    ensures DirectMatches(diseases, symptoms, terms) <= SimpleMatched(diseases, symptoms, terms)
  {
  }

  /**
   * The subgraph is a graph; its nodes are graph nodes; a disease that a
   * query term names (a word inside its name, or a word such as "diabetes?"
   * holding the whole name) is in it together with every symptom it has.
   */
  lemma SimpleRetrieveSpec(g: Graph, query: string, d: string, t: string, s: string)
    requires Valid(g)
    ensures Valid(SimpleRetrieve(g, query))
    ensures forall n :: n in SimpleRetrieve(g, query).nodes ==> n in g.nodes
    ensures d in NodesLabelled(g, DISEASE) && t in Terms(query) && NamesDisease(t, d) ==>
              d in SimpleRetrieve(g, query).nodes
              && (TypedEdge(g, d, s, HAS_SYMPTOM) ==> s in SimpleRetrieve(g, query).nodes && TypedEdge(SimpleRetrieve(g, query), d, s, HAS_SYMPTOM))
  {
    var ds := NodesLabelled(g, DISEASE);
    var ss := NodesLabelled(g, SYMPTOM);
    var terms := Terms(query);
    var matched := SimpleMatched(ds, ss, terms);
    NeighbourhoodNodes(g, matched);
    if d in ds && t in terms && NamesDisease(t, d) {
      NamedMatch(ds, terms, d, t);
      assert d in matched;
      if TypedEdge(g, d, s, HAS_SYMPTOM) {
        NeighbourhoodKeepsEdges(g, matched, d, s, HAS_SYMPTOM);
        assert HasEdge(g, d, s);
      }
    }
  }

  /** An empty or all-whitespace query retrieves the empty subgraph. */
  lemma SimpleBlankQuery(g: Graph, query: string)
    requires Valid(g) && AllSpace(query)
    ensures SimpleRetrieve(g, query).nodes == []
  {
    BlankQueryMatchesNothing(query, NodesLabelled(g, DISEASE), NodesLabelled(g, SYMPTOM));
    NeighbourhoodNodes(g, {});
  }
}
