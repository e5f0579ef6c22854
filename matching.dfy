/**
 * The entity-matching rules that `SimpleQueryProcessor.process_query` and
 * `QueryProcessor.process_query` share, stated as functions of the query
 * terms: which diseases and symptoms each tier matches, the 0.6 rescan, and
 * the 1-hop neighbourhood the subgraph is cut from.
 */
module Matching {
  import opened Text
  import opened Seqs
  import opened Graphs
  import opened Similarity

  /** Words the fuzzy disease tier skips. */
  const STOP_WORDS: seq<string> := ["symptoms", "symptom", "disease", "condition", "is", "what", "are", "of", "the", "for"]

  const FUZZY_THRESHOLD: real := 0.7
  const RESCAN_THRESHOLD: real := 0.6

  /** `query.lower().split()` */
  function Terms(query: string): seq<string>
  {
    Split(Lower(query))
  }

  /** The last word of a query, already in lower case, is one of its terms. */
  lemma LastTerm(head: string, w: string)
    requires w != [] && NoSpace(w) && Lower(w) == w
    ensures w in Terms(head + " " + w)
  {
    LowerAppend(head + " ", w);
    LowerAppend(head, " ");
    LowerOfLowercase(" ");
    SplitLast(Lower(head), w);
  }

  /** `any(term in name for term in terms)` */
  function AnyTermIn(terms: seq<string>, name: string): (b: bool)
    ensures b <==> exists t :: t in terms && Contains(name, t)
    decreases |terms|
  {
    if terms == [] then false
    else Contains(name, terms[0]) || AnyTermIn(terms[1..], name)
  }

  /** A term that passes the fuzzy test against `name`: long enough and similar enough (stop words skipped when asked). */
  predicate FuzzyTerm(t: string, name: string, threshold: real, skipStop: bool)
  {
    (!skipStop || t !in STOP_WORDS) && |t| > 3 && StringSimilarity(t, name) > threshold
  }

  predicate FuzzyHit(terms: seq<string>, name: string, threshold: real, skipStop: bool)
  {
    exists t :: t in terms && FuzzyTerm(t, name, threshold, skipStop)
  }

  /** Tiers 1 and 2 for one disease: a term inside its name, or a fuzzy match above 0.7. */
  predicate DiseaseHit(terms: seq<string>, disease: string)
  {
    AnyTermIn(terms, Lower(disease)) || FuzzyHit(terms, Lower(disease), FUZZY_THRESHOLD, true)
  }

  function DiseaseTier(diseases: seq<string>, terms: seq<string>): set<string>
  {
    set d | d in diseases && DiseaseHit(terms, d)
  }

  /** Tier 3: a symptom whose lowercased name contains a term. */
  function SymptomTier(symptoms: seq<string>, terms: seq<string>): set<string>
  {
    set s | s in symptoms && AnyTermIn(terms, Lower(s))
  }

  /** The rescan of `SimpleQueryProcessor`: threshold 0.6, no stop words skipped. */
  function RescanTier(diseases: seq<string>, terms: seq<string>): set<string>
  {
    set d | d in diseases && FuzzyHit(terms, Lower(d), RESCAN_THRESHOLD, false)
  }

  /** What tiers 1 to 3 match; the fallback tier runs only when this is empty. */
  function DirectMatches(diseases: seq<string>, symptoms: seq<string>, terms: seq<string>): set<string>
  {
    DiseaseTier(diseases, terms) + SymptomTier(symptoms, terms)
  }

  /** `subgraph_nodes`: every matched entity and its neighbours. */
  function Hood(g: Graph, matched: set<string>): set<string>
  {
    matched + (set e, n | e in matched && e in g.adj && n in g.adj[e] :: n)
  }

  /** The returned subgraph: `G.subgraph([])` when nothing matched, else the induced 1-hop neighbourhood. */
  function Neighbourhood(g: Graph, matched: set<string>): Graph
  {
    if matched == {} then Induced(g, {}) else Induced(g, Hood(g, matched))
  }

  // ---------------------------------------------------------------------------
  // Steps the loops take
  // ---------------------------------------------------------------------------

  lemma PrefixStep(xs: seq<string>, i: nat)
    requires i < |xs|
    ensures forall x :: x in xs[..i + 1] <==> x in xs[..i] || x == xs[i]
  {
    assert xs[..i + 1] == xs[..i] + [xs[i]];
  }

  lemma DiseaseTierStep(diseases: seq<string>, terms: seq<string>, i: nat)
    requires i < |diseases|
    ensures DiseaseTier(diseases[..i + 1], terms) ==
              DiseaseTier(diseases[..i], terms) + (if DiseaseHit(terms, diseases[i]) then {diseases[i]} else {})
  {
    PrefixStep(diseases, i);
  }

  lemma SymptomTierStep(symptoms: seq<string>, terms: seq<string>, i: nat)
    requires i < |symptoms|
    ensures SymptomTier(symptoms[..i + 1], terms) ==
              SymptomTier(symptoms[..i], terms) + (if AnyTermIn(terms, Lower(symptoms[i])) then {symptoms[i]} else {})
  {
    PrefixStep(symptoms, i);
  }

  lemma RescanTierStep(diseases: seq<string>, terms: seq<string>, i: nat)
    requires i < |diseases|
    ensures RescanTier(diseases[..i + 1], terms) ==
              RescanTier(diseases[..i], terms) + (if FuzzyHit(terms, Lower(diseases[i]), RESCAN_THRESHOLD, false) then {diseases[i]} else {})
  {
    PrefixStep(diseases, i);
  }

  /** No position of `terms` passes the fuzzy test, so no term does. */
  lemma NoFuzzyHit(terms: seq<string>, name: string, threshold: real, skipStop: bool)
    requires forall m :: 0 <= m < |terms| ==> !FuzzyTerm(terms[m], name, threshold, skipStop)
    ensures !FuzzyHit(terms, name, threshold, skipStop)
  {
    forall t | t in terms
      ensures !FuzzyTerm(t, name, threshold, skipStop)
    {
      var m :| 0 <= m < |terms| && terms[m] == t;
    }
  }

  lemma HoodStep(g: Graph, done: set<string>, e: string)
    ensures Hood(g, done + {e}) == Hood(g, done) + {e} + NbrSet(g, e)
  {
    var lhs := Hood(g, done + {e});
    var rhs := Hood(g, done) + {e} + NbrSet(g, e);
    forall n | n in lhs ensures n in rhs {
      if n !in done + {e} {
        var e', n' :| e' in done + {e} && e' in g.adj && n' in g.adj[e'] && n == n';
        if e' == e {
          assert n in NbrSet(g, e);
        }
      }
    }
    forall n | n in rhs ensures n in lhs {
      if n in NbrSet(g, e) {
        assert e in g.adj && n in g.adj[e];
      }
    }
  }

  // ---------------------------------------------------------------------------
  // The loops both processors run
  // ---------------------------------------------------------------------------

  /** Tiers 1 and 2: the direct check with `continue`, then the fuzzy scan with its `continue` and `break`. */
  method MatchDiseases(diseases: seq<string>, terms: seq<string>) returns (matched: set<string>)
    ensures matched == DiseaseTier(diseases, terms)
  {
    matched := {};
    for i := 0 to |diseases|
      invariant matched == DiseaseTier(diseases[..i], terms)
    {
      DiseaseTierStep(diseases, terms, i);
      var disease := diseases[i];
      var diseaseLower := Lower(disease);
      if AnyTermIn(terms, diseaseLower) {
        matched := matched + {disease};
        continue;
      }
      ghost var before := matched;
      for j := 0 to |terms|
        invariant matched == before
        invariant forall m :: 0 <= m < j ==> !FuzzyTerm(terms[m], diseaseLower, FUZZY_THRESHOLD, true)
      {
        var term := terms[j];
        if term in STOP_WORDS {
          continue;
        }
        if |term| > 3 {
          var similarity := StringSimilarity(term, diseaseLower);
          if similarity > FUZZY_THRESHOLD {
            matched := matched + {disease};
            assert FuzzyTerm(terms[j], diseaseLower, FUZZY_THRESHOLD, true);
            break;
          }
        }
      }
      assert matched == before + (if DiseaseHit(terms, disease) then {disease} else {});
    }
    assert diseases[..|diseases|] == diseases;
  }

  /** Tier 3, added to what tiers 1 and 2 found. */
  method MatchSymptoms(symptoms: seq<string>, terms: seq<string>, found: set<string>) returns (matched: set<string>)
    ensures matched == found + SymptomTier(symptoms, terms)
  {
    matched := found;
    for i := 0 to |symptoms|
      invariant matched == found + SymptomTier(symptoms[..i], terms)
    {
      SymptomTierStep(symptoms, terms, i);
      var symptom := symptoms[i];
      if AnyTermIn(terms, Lower(symptom)) {
        matched := matched + {symptom};
      }
    }
    assert symptoms[..|symptoms|] == symptoms;
  }

  /** `subgraph_nodes`, collected entity by entity in whatever order the set yields them. */
  method CollectHood(g: Graph, matched: set<string>) returns (keep: set<string>)
    ensures keep == Hood(g, matched)
  {
    keep := {};
    var todo := matched;
    ghost var done: set<string> := {};
    assert Hood(g, {}) == {};
    while todo != {}
      invariant done + todo == matched && done !! todo
      invariant keep == Hood(g, done)
      decreases todo
    {
      var entity :| entity in todo;
      HoodStep(g, done, entity);
      keep := keep + {entity} + NbrSet(g, entity);
      done := done + {entity};
      todo := todo - {entity};
    }
  }

  /** The tail of `process_query`: the empty subgraph, or the one induced by the 1-hop neighbourhood. */
  method Subgraph(g: Graph, matched: set<string>) returns (sub: Graph)
    ensures sub == Neighbourhood(g, matched)
  {
    if matched == {} {
      return Induced(g, {});
    }
    var keep := CollectHood(g, matched);
    sub := Induced(g, keep);
  }

  // ---------------------------------------------------------------------------
  // What the tiers match
  // ---------------------------------------------------------------------------

  /** The direct check does not skip stop words: a disease containing any query term, even "the", is matched. */
  lemma DirectMatch(diseases: seq<string>, terms: seq<string>, d: string, t: string)
    requires d in diseases && t in terms && Contains(Lower(d), t)
    ensures d in DiseaseTier(diseases, terms)
  {
  }

  /**
   * A term that contains the lowercased disease name, such as "diabetes?"
   * for Diabetes, matches it through the substring rule (0.9 > 0.7), as long
   * as it is no stop word and longer than 3.
   */
  lemma PunctuatedMatch(diseases: seq<string>, terms: seq<string>, d: string, t: string)
    requires d in diseases && t in terms && t !in STOP_WORDS && |t| > 3
    requires Contains(t, Lower(d))
    ensures d in DiseaseTier(diseases, terms)
  {
    SimilarityRange(t, Lower(d));
    assert FuzzyTerm(t, Lower(d), FUZZY_THRESHOLD, true);
  }

  /**
   * Term `t` names disease `d` when it occurs in the lowercased name (tier 1)
   * or, no stop word and longer than 3, holds the whole name (tier 2).
   */
  predicate NamesDisease(t: string, d: string)
  {
    Contains(Lower(d), t) || (t !in STOP_WORDS && |t| > 3 && Contains(t, Lower(d)))
  }

  lemma NamedMatch(diseases: seq<string>, terms: seq<string>, d: string, t: string)
    requires d in diseases && t in terms && NamesDisease(t, d)
    ensures d in DiseaseTier(diseases, terms)
  {
    if Contains(Lower(d), t) {
      DirectMatch(diseases, terms, d, t);
    } else {
      PunctuatedMatch(diseases, terms, d, t);
    }
  }

  /** A term of 3 characters or fewer only ever matches through the direct check. */
  lemma ShortTermsOnlyDirect(terms: seq<string>, name: string, threshold: real, skipStop: bool)
    requires forall t :: t in terms ==> |t| <= 3
    ensures !FuzzyHit(terms, name, threshold, skipStop)
  {
  }

  /** A fuzzy match in tier 2 (above 0.7, stop words skipped) is also a rescan match (above 0.6, none skipped). */
  lemma RescanCoversFuzzy(terms: seq<string>, name: string)
    requires FuzzyHit(terms, name, FUZZY_THRESHOLD, true)
    ensures FuzzyHit(terms, name, RESCAN_THRESHOLD, false)
  {
    var t :| t in terms && FuzzyTerm(t, name, FUZZY_THRESHOLD, true);
    assert FuzzyTerm(t, name, RESCAN_THRESHOLD, false);
  }

  /** An empty or all-whitespace query has no terms, so no tier matches anything. */
  lemma BlankQueryMatchesNothing(query: string, diseases: seq<string>, symptoms: seq<string>)
    requires AllSpace(query)
    ensures Terms(query) == []
    ensures DiseaseTier(diseases, Terms(query)) == {}
    ensures SymptomTier(symptoms, Terms(query)) == {}
    ensures RescanTier(diseases, Terms(query)) == {}
  {
    assert AllSpace(Lower(query)) by {
      forall m | 0 <= m < |query| ensures IsSpace(Lower(query)[m]) {
        assert IsSpace(query[m]);
      }
    }
    SplitEmptyIff(Lower(query));
  }

  // ---------------------------------------------------------------------------
  // The subgraph
  // ---------------------------------------------------------------------------

  /** The matched entities and the nodes adjacent to one of them. */
  lemma HoodMembers(g: Graph, matched: set<string>, n: string)
    ensures n in Hood(g, matched) <==> n in matched || exists e :: e in matched && HasEdge(g, e, n)
  {
    if n in Hood(g, matched) && n !in matched {
      var e, n' :| e in matched && e in g.adj && n' in g.adj[e] && n == n';
      assert HasEdge(g, e, n);
    }
    if exists e :: e in matched && HasEdge(g, e, n) {
      var e :| e in matched && HasEdge(g, e, n);
      assert n in (set e, n | e in matched && e in g.adj && n in g.adj[e] :: n);
    }
  }

  /**
   * The subgraph is a graph holding the matched entities that are graph
   * nodes and their neighbours, and nothing when nothing matched.
   */
  lemma NeighbourhoodNodes(g: Graph, matched: set<string>)
    requires Valid(g)
    ensures Valid(Neighbourhood(g, matched))
    ensures matched == {} ==> Neighbourhood(g, matched).nodes == []
    ensures forall n :: n in Neighbourhood(g, matched).nodes <==>
              n in g.nodes && (n in matched || exists e :: e in matched && HasEdge(g, e, n))
  {
    var keep := if matched == {} then {} else Hood(g, matched);
    assert Hood(g, {}) == {};
    assert keep == Hood(g, matched);
    InducedValid(g, keep);
    forall n {
      HoodMembers(g, matched, n);
    }
    if matched == {} {
      NodesInNone(g.nodes);
    }
  }

  /** Its edges are exactly the graph's edges between two nodes of the neighbourhood. */
  lemma NeighbourhoodEdges(g: Graph, matched: set<string>, x: string, y: string)
    ensures HasEdge(Neighbourhood(g, matched), x, y) <==>
              HasEdge(g, x, y) && x in Hood(g, matched) && y in Hood(g, matched)
  {
    var keep := if matched == {} then {} else Hood(g, matched);
    assert Hood(g, {}) == {};
    assert keep == Hood(g, matched);
    InducedEdges(g, keep, x, y);
  }

  /** Every matched graph node keeps all its edges in the subgraph, with their types. */
  lemma NeighbourhoodKeepsEdges(g: Graph, matched: set<string>, e: string, n: string, t: string)
    requires e in matched && TypedEdge(g, e, n, t)
    ensures TypedEdge(Neighbourhood(g, matched), e, n, t)
  {
    assert n in (set e, n | e in matched && e in g.adj && n in g.adj[e] :: n);
    InducedTyped(g, Hood(g, matched), e, n, t);
  }
}
