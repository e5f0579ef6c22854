/**
 * `BiomedicalRAG`: a query processor and a response generator over one
 * graph. Which processor is used depends on whether `sentence_transformers`
 * imports; here that is the `model` argument: `Some(cosine)` for the
 * semantic `QueryProcessor`, `None` for `SimpleQueryProcessor`.
 */
module BiomedicalRag {
  import opened Wrappers
  import opened Text
  import opened Schema
  import opened Graphs
  import opened Matching
  import opened SimpleQuery
  import opened SemanticQuery
  import opened ResponseGeneration

  type Cosine = (string, string) -> real

  datatype Processor = Semantic(semantic: QueryProcessor) | Simple(simple: SimpleQueryProcessor)

  /** The subgraph the chosen processor retrieves. */
  function Retrieve(g: Graph, model: Option<Cosine>, query: string): Graph
  {
    match model
    case Some(cosine) => SemanticRetrieve(g, cosine, query)
    case None => SimpleRetrieve(g, query)
  }

  /** The retrieved subgraph is a graph, holding nothing but graph nodes. */
  lemma RetrieveValid(g: Graph, model: Option<Cosine>, query: string)
    requires Valid(g)
    ensures Valid(Retrieve(g, model, query))
    ensures forall n :: n in Retrieve(g, model, query).nodes ==> n in g.nodes
  {
    match model {
      case Some(cosine) => SemanticRetrieveSpec(g, cosine, query, "", "", "");
      case None => SimpleRetrieveSpec(g, query, "", "", "");
    }
  }

  /** What `extract_context` makes of the retrieved subgraph. */
  function AnswerContext(g: Graph, model: Option<Cosine>, query: string): Context
    requires Valid(g)
  {
    RetrieveValid(g, model, query);
    Extract(g, Retrieve(g, model, query), query)
  }

  /** `answer_query` */
  function Answer(g: Graph, model: Option<Cosine>, llm: Llm, query: string): string
    requires Valid(g)
  {
    RetrieveValid(g, model, query);
    Respond(g, llm, Retrieve(g, model, query), query)
  }

  class BiomedicalRAG {
    const graph: Graph
    const model: Option<Cosine>
    const processor: Processor
    const generator: ResponseGenerator

    /** The processor and the generator are built over this RAG's graph. */
    ghost predicate Wired()
    {
      generator.graph == graph
      && match processor
         case Semantic(p) =>
           model == Some(p.cosine) && p.graph == graph
           && p.diseaseNodes == NodesLabelled(graph, DISEASE) && p.symptomNodes == NodesLabelled(graph, SYMPTOM)
         case Simple(p) =>
           model == None && p.graph == graph
           && p.diseaseNodes == NodesLabelled(graph, DISEASE) && p.symptomNodes == NodesLabelled(graph, SYMPTOM)
    }

    constructor (graph: Graph, model: Option<Cosine>, llm: Llm)
      ensures this.graph == graph && this.model == model && generator.llm == llm
      ensures Wired()
    {
      this.graph := graph;
      this.model := model;
      match model {
        case Some(cosine) =>
          var p := new QueryProcessor(graph, cosine);
          processor := Semantic(p);
        case None =>
          var p := new SimpleQueryProcessor(graph);
          processor := Simple(p);
      }
      generator := new ResponseGenerator(graph, llm);
    }

    method AnswerQuery(query: string) returns (response: string)
      requires Valid(graph) && Wired()
      ensures response == Answer(graph, model, generator.llm, query)
    {
      var subgraph: Graph;
      match processor {
        case Semantic(p) =>
          subgraph := p.ProcessQuery(query);
        case Simple(p) =>
          subgraph := p.ProcessQuery(query);
      }
      assert subgraph == Retrieve(graph, model, query);
      RetrieveValid(graph, model, query);
      response := generator.GenerateResponse(query, subgraph);
    }
  }

  // ---------------------------------------------------------------------------
  // Properties of the whole pipeline
  // ---------------------------------------------------------------------------

  /** With the simple processor, an empty or all-whitespace query is answered with the "nothing found" message. */
  lemma BlankQueryAnswer(g: Graph, llm: Llm, query: string)
    requires Valid(g) && AllSpace(query)
    ensures Answer(g, None, llm, query) == NO_INFO
  {
    SimpleBlankQuery(g, query);
    RetrieveValid(g, None, query);
    RespondSpec(g, llm, Retrieve(g, None, query), query, Record("", []), "");
  }

  /**
   * Query word `t` asks about disease `d`: it is the disease's lowercased
   * name, or a longer word that is no stop word and holds the whole name,
   * as "diabetes?" does in "What are the symptoms of diabetes?".
   */
  predicate AsksAbout(query: string, d: string, t: string)
  {
    t in Terms(query) && d != [] && Contains(t, Lower(d)) && (t == Lower(d) || (t !in STOP_WORDS && |t| > 3))
  }

  /** Such a word names the disease for matching, and the query mentions the disease. */
  lemma AsksAboutNames(query: string, d: string, t: string)
    requires AsksAbout(query, d, t)
    ensures NamesDisease(t, d)
    ensures Mentioned(query, d)
  {
    var n := Lower(d);
    if t == n {
      ContainsSelf(t);
    }
    SplitWords(Lower(query));
    NoSpaceInside(t, n);
    SplitWord(n);
    LowerIdempotent(d);
    ContainsTrans(Lower(query), t, n);
    assert Split(n)[0] == n;
  }

  /** The disease a query word asks about is retrieved, with every symptom it has, and the query mentions it. */
  lemma NamedDisease(g: Graph, model: Option<Cosine>, query: string, d: string, t: string, s: string)
    requires Valid(g) && d in NodesLabelled(g, DISEASE) && AsksAbout(query, d, t)
    ensures d in Retrieve(g, model, query).nodes
    ensures Mentioned(query, d)
    ensures TypedEdge(g, d, s, HAS_SYMPTOM) ==> s in Retrieve(g, model, query).nodes
  {
    AsksAboutNames(query, d, t);
    match model {
      case Some(cosine) => SemanticRetrieveSpec(g, cosine, query, d, t, s);
      case None => SimpleRetrieveSpec(g, query, d, t, s);
    }
  }

  /** Asking about a disease by name, the records handed to the answer include the disease with all its symptoms. */
  lemma NamedDiseaseContext(g: Graph, model: Option<Cosine>, query: string, d: string, t: string)
    requires Valid(g) && d in NodesLabelled(g, DISEASE) && AsksAbout(query, d, t)
    requires d in g.adj && SymptomsOf(g, d) != []
    ensures AnswerContext(g, model, query).Records?
    ensures Record(d, SymptomsOf(g, d)) in AnswerContext(g, model, query).items
  {
    var sub := Retrieve(g, model, query);
    RetrieveValid(g, model, query);
    NamedDisease(g, model, query, d, t, "");
    assert AnyMentioned(g, query);
    ExtractSpec(g, sub, query, d, SymptomsOf(g, d));
  }

  /**
   * Whichever processor is used, the model's prompt then names the disease
   * and every one of its symptoms, and so does an answer given without the
   * model (none available, or the call failed).
   */
  lemma NamedDiseaseAnswer(g: Graph, model: Option<Cosine>, llm: Llm, query: string, d: string, t: string, s: string)
    requires Valid(g) && d in NodesLabelled(g, DISEASE) && AsksAbout(query, d, t)
    requires d in g.adj && SymptomsOf(g, d) != []
    ensures AnswerContext(g, model, query).Records?
    ensures var items := AnswerContext(g, model, query).items;
            Contains(PromptFor(query, items), d)
            && (TypedEdge(g, d, s, HAS_SYMPTOM) ==> Contains(PromptFor(query, items), s))
            && (llm.NoLlm? || llm.invoke(PromptFor(query, items)).Failure? ==>
                  Contains(Answer(g, model, llm, query), d)
                  && (TypedEdge(g, d, s, HAS_SYMPTOM) ==> Contains(Answer(g, model, llm, query), s)))
  {
    NamedDiseaseContext(g, model, query, d, t);
    var sub := Retrieve(g, model, query);
    RetrieveValid(g, model, query);
    var r := Record(d, SymptomsOf(g, d));
    var items := AnswerContext(g, model, query).items;
    assert items == Extract(g, sub, query).items;
    SymptomsOfSpec(g, d, s);
    RecordCarried(g, llm, sub, query, r, s);
    assert Answer(g, model, llm, query) == Respond(g, llm, sub, query);
  }
}
