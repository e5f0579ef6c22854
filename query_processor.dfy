/**
 * `QueryProcessor`: the same three matching tiers as `SimpleQueryProcessor`,
 * with a semantic fallback in place of the fuzzy rescan. The sentence-embedding
 * model is a parameter: `cosine(a, b)` stands for the cosine similarity of
 * the embeddings of `a` and `b`.
 */
module SemanticQuery {
  import opened Text
  import opened Graphs
  import opened Schema
  import opened Matching
  import opened Ranking

  const SEMANTIC_THRESHOLD: real := 0.3
  const DISEASE_TEXT_PREFIX: string := "Disease: "

  /** `similarities`: the query against `"Disease: " + d` for every disease, in disease order. */
  function Scores(cosine: (string, string) -> real, query: string, diseases: seq<string>): (r: seq<real>)
    ensures |r| == |diseases|
    ensures forall i :: 0 <= i < |diseases| ==> r[i] == cosine(query, DISEASE_TEXT_PREFIX + diseases[i])
  {
    seq(|diseases|, i requires 0 <= i < |diseases| => cosine(query, DISEASE_TEXT_PREFIX + diseases[i]))
  }

  /** The diseases at the given ranked indices whose score is above 0.3. */
  function Picks(diseases: seq<string>, scores: seq<real>, idxs: seq<nat>): set<string>
  {
    set idx | idx in idxs && idx < |diseases| && idx < |scores| && scores[idx] > SEMANTIC_THRESHOLD :: diseases[idx]
  }

  /** The semantic tier: the top three diseases by score, kept when above 0.3. */
  function SemanticTier(diseases: seq<string>, scores: seq<real>): set<string>
  {
    Picks(diseases, scores, TopThree(scores))
  }

  function SemanticMatched(diseases: seq<string>, symptoms: seq<string>, terms: seq<string>, scores: seq<real>): set<string>
  {
    var direct := DirectMatches(diseases, symptoms, terms);
    if direct == {} then SemanticTier(diseases, scores) else direct
  }

  /** `process_query` on a processor built over `g` with the embedding model `cosine`. */
  function SemanticRetrieve(g: Graph, cosine: (string, string) -> real, query: string): Graph
  {
    var diseases := NodesLabelled(g, DISEASE);
    Neighbourhood(g, SemanticMatched(diseases, NodesLabelled(g, SYMPTOM), Terms(query), Scores(cosine, query, diseases)))
  }

  class QueryProcessor {
    const graph: Graph
    const cosine: (string, string) -> real
    const diseaseNodes: seq<string>
    const symptomNodes: seq<string>

    constructor (graph: Graph, cosine: (string, string) -> real)
      ensures this.graph == graph && this.cosine == cosine
      ensures diseaseNodes == NodesLabelled(graph, DISEASE)
      ensures symptomNodes == NodesLabelled(graph, SYMPTOM)
    {
      this.graph := graph;
      this.cosine := cosine;
      diseaseNodes := NodesLabelled(graph, DISEASE);
      symptomNodes := NodesLabelled(graph, SYMPTOM);
    }

    method ProcessQuery(query: string) returns (sub: Graph)
      ensures sub == Neighbourhood(graph, SemanticMatched(diseaseNodes, symptomNodes, Terms(query), Scores(cosine, query, diseaseNodes)))
    {
      var terms := Split(Lower(query));
      var matched := MatchDiseases(diseaseNodes, terms);
      matched := MatchSymptoms(symptomNodes, terms, matched);
      assert matched == DirectMatches(diseaseNodes, symptomNodes, terms);
      if matched == {} {
        var similarities := Scores(cosine, query, diseaseNodes);
        var topIndices := TopThree(similarities);
        TopThreeDescending(similarities);
        matched := PickDiseases(diseaseNodes, similarities, topIndices);
      }
      sub := Subgraph(graph, matched);
    }
  }

  /** `for idx in top_indices: if similarities[idx] > 0.3: matched_entities.add(...)` */
  method PickDiseases(diseases: seq<string>, scores: seq<real>, topIndices: seq<nat>) returns (matched: set<string>)
    requires |scores| == |diseases|
    requires forall p :: 0 <= p < |topIndices| ==> topIndices[p] < |diseases|
    ensures matched == Picks(diseases, scores, topIndices)
  {
    matched := {};
    for k := 0 to |topIndices|
      invariant matched == Picks(diseases, scores, topIndices[..k])
    {
      PicksStep(diseases, scores, topIndices, k);
      var idx := topIndices[k];
      if scores[idx] > SEMANTIC_THRESHOLD {
        matched := matched + {diseases[idx]};
      }
    }
    assert topIndices[..|topIndices|] == topIndices;
  }

  // ---------------------------------------------------------------------------
  // Properties
  // ---------------------------------------------------------------------------

  lemma PicksStep(diseases: seq<string>, scores: seq<real>, idxs: seq<nat>, k: nat)
    requires k < |idxs|
    ensures Picks(diseases, scores, idxs[..k + 1]) ==
              Picks(diseases, scores, idxs[..k]) +
              (if idxs[k] < |diseases| && idxs[k] < |scores| && scores[idxs[k]] > SEMANTIC_THRESHOLD then {diseases[idxs[k]]} else {})
  {
    assert idxs[..k + 1] == idxs[..k] + [idxs[k]];
  }

  lemma {:induction false} PicksCard(diseases: seq<string>, scores: seq<real>, idxs: seq<nat>, k: nat)
    requires k <= |idxs|
    ensures |Picks(diseases, scores, idxs[..k])| <= k
  {
    if k > 0 {
      PicksCard(diseases, scores, idxs, k - 1);
      PicksStep(diseases, scores, idxs, k - 1);
    }
  }

  /** The semantic tier adds at most three diseases. */
  lemma SemanticTierCard(diseases: seq<string>, scores: seq<real>)
    ensures |SemanticTier(diseases, scores)| <= 3
  {
    var top := TopThree(scores);
    TopThreeSpec(scores);
    PicksCard(diseases, scores, top, |top|);
    assert top[..|top|] == top;
  }

  /** Each disease it adds scores above 0.3, and at least as high as every disease left out of the top three. */
  lemma SemanticTierPicks(diseases: seq<string>, scores: seq<real>, d: string)
    requires |scores| == |diseases|
    requires d in SemanticTier(diseases, scores)
    ensures exists i :: 0 <= i < |diseases| && diseases[i] == d && scores[i] > SEMANTIC_THRESHOLD
              && forall j :: 0 <= j < |scores| && j !in TopThree(scores) ==> scores[j] <= scores[i]
  {
    var top := TopThree(scores);
    var i :| i in top && i < |diseases| && i < |scores| && scores[i] > SEMANTIC_THRESHOLD && diseases[i] == d;
    TopThreeSpec(scores);
    assert forall j :: 0 <= j < |scores| && j !in top ==> scores[j] <= scores[i];
  }

  /** When any disease scores above 0.3, the best-ranked one is added. */
  lemma SemanticTierNonEmpty(diseases: seq<string>, scores: seq<real>, i: nat)
    requires |scores| == |diseases|
    requires i < |scores| && scores[i] > SEMANTIC_THRESHOLD
    ensures SemanticTier(diseases, scores) != {}
  {
    var top := TopThree(scores);
    TopThreeSpec(scores);
    assert top[0] in top;
    if i !in top {
      assert scores[i] <= scores[top[0]];
    } else {
      var p :| 0 <= p < |top| && top[p] == i;
      assert p == 0 || scores[top[p]] <= scores[top[0]];
    }
    assert diseases[top[0]] in SemanticTier(diseases, scores);
  }

  /** The semantic tier only runs when tiers 1 to 3 found nothing, and then picks nothing but diseases. */
  lemma SemanticMatchedSpec(diseases: seq<string>, symptoms: seq<string>, terms: seq<string>, scores: seq<real>)
    requires |scores| == |diseases|
    ensures DirectMatches(diseases, symptoms, terms) <= SemanticMatched(diseases, symptoms, terms, scores)
    ensures DirectMatches(diseases, symptoms, terms) == {} ==>
              |SemanticMatched(diseases, symptoms, terms, scores)| <= 3
              && forall e :: e in SemanticMatched(diseases, symptoms, terms, scores) ==> e in diseases
    ensures forall e :: e in SemanticMatched(diseases, symptoms, terms, scores) ==> e in diseases || e in symptoms
  {
    SemanticTierCard(diseases, scores);
  }

  /** As for the simple processor: a graph, over graph nodes, holding every disease a query term names, with its symptoms. */
  lemma SemanticRetrieveSpec(g: Graph, cosine: (string, string) -> real, query: string, d: string, t: string, s: string)
    requires Valid(g)
    ensures Valid(SemanticRetrieve(g, cosine, query))
    ensures forall n :: n in SemanticRetrieve(g, cosine, query).nodes ==> n in g.nodes
    ensures d in NodesLabelled(g, DISEASE) && t in Terms(query) && NamesDisease(t, d) ==>
              d in SemanticRetrieve(g, cosine, query).nodes
              && (TypedEdge(g, d, s, HAS_SYMPTOM) ==> s in SemanticRetrieve(g, cosine, query).nodes && TypedEdge(SemanticRetrieve(g, cosine, query), d, s, HAS_SYMPTOM))
  {
    var ds := NodesLabelled(g, DISEASE);
    var terms := Terms(query);
    var matched := SemanticMatched(ds, NodesLabelled(g, SYMPTOM), terms, Scores(cosine, query, ds));
    NeighbourhoodNodes(g, matched);
    if d in ds && t in terms && NamesDisease(t, d) {
      NamedMatch(ds, terms, d, t);
      assert d in matched;
      if TypedEdge(g, d, s, HAS_SYMPTOM) {
        NeighbourhoodKeepsEdges(g, matched, d, s, HAS_SYMPTOM);
        assert HasEdge(g, d, s);
      }
    }
  }
}
