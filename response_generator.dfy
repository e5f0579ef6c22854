/**
 * `ResponseGenerator`: the disease records behind an answer, their text
 * form, the prompt, and the choice between the language model's reply and
 * the rule-based answer. The language model is a parameter: a function
 * from prompt to reply that may fail.
 */
module ResponseGeneration {
  import opened Wrappers
  import opened Text
  import opened Seqs
  import opened Schema
  import opened Graphs

  const NO_INFO: string := "No relevant information found in the knowledge base."
  const KB_HEADER: string := "Knowledge Base Information:\n\n"
  const RULE_HEADER: string := "Here's what I found related to your query:\n\n"
  const RULE_NOTHING: string := "No relevant information found."

  /** `{"disease": d, "symptoms": [...]}` */
  datatype Record = Record(disease: string, symptoms: seq<string>)

  /** What `extract_context` returns: the "nothing found" message or a list of records. */
  datatype Context = Message(text: string) | Records(items: seq<Record>)

  /** `self.llm`: `None` when the client could not be created, else its `invoke`, which may raise. */
  datatype Llm = NoLlm | Ollama(invoke: string -> Result<string, string>)

  // ---------------------------------------------------------------------------
  // `extract_context`
  // ---------------------------------------------------------------------------

  /** `any(term.lower() in text for term in words)` */
  function AnyWordIn(words: seq<string>, text: string): (b: bool)
    ensures b <==> exists k :: 0 <= k < |words| && Contains(text, Lower(words[k]))
    decreases |words|
  {
    if words == [] then false
    else
      assert forall k :: 0 < k < |words| ==> words[k] == words[1..][k - 1];
      Contains(text, Lower(words[0])) || AnyWordIn(words[1..], text)
  }

  /** Some word of the disease name occurs in the query, both lowercased. */
  predicate Mentioned(query: string, disease: string)
  {
    AnyWordIn(Split(Lower(disease)), Lower(query))
  }

  /** The neighbours of `disease` over `HAS_SYMPTOM` edges, in adjacency order. */
  function SymptomsOf(g: Graph, disease: string): seq<string>
    requires disease in g.adj
  {
    TypedNbrs(g, disease, g.adj[disease], HAS_SYMPTOM)
  }

  predicate Selected(onlyMentioned: bool, query: string, disease: string)
  {
    !onlyMentioned || Mentioned(query, disease)
  }

  /** A record for every selected disease of `ds` that has a symptom, in the order of `ds`. */
  function Collect(g: Graph, ds: seq<string>, query: string, onlyMentioned: bool): seq<Record>
    requires forall d :: d in ds ==> d in g.adj
    decreases |ds|
  {
    if ds == [] then [] else
      var d := ds[|ds| - 1];
      var s := SymptomsOf(g, d);
      Collect(g, ds[..|ds| - 1], query, onlyMentioned)
        + (if Selected(onlyMentioned, query, d) && s != [] then [Record(d, s)] else [])
  }

  /** The diseases of the whole graph that the query mentions. */
  function Primary(g: Graph, query: string): seq<Record>
    requires NodesValid(g)
  {
    Collect(g, NodesLabelled(g, DISEASE), query, true)
  }

  /** Every disease of the subgraph. */
  function Fallback(sub: Graph): seq<Record>
    requires NodesValid(sub)
  {
    Collect(sub, NodesLabelled(sub, DISEASE), "", false)
  }

  function Extract(g: Graph, sub: Graph, query: string): Context
    requires NodesValid(g) && NodesValid(sub)
  {
    if |sub.nodes| == 0 then Message(NO_INFO)
    else if Primary(g, query) != [] then Records(Primary(g, query))
    else Records(Fallback(sub))
  }

  // ---------------------------------------------------------------------------
  // `format_context_for_llm`, `_generate_rule_based_response`, the prompt
  // ---------------------------------------------------------------------------

  function Block(r: Record): string
  {
    "Disease: " + r.disease + "\n" + "Symptoms: " + Join(r.symptoms, ", ") + "\n\n"
  }

  function Blocks(items: seq<Record>): string
    decreases |items|
  {
    if items == [] then "" else Blocks(items[..|items| - 1]) + Block(items[|items| - 1])
  }

  /** A message or an empty list is passed through; records become the knowledge-base text. */
  function FormatForLlm(context: Context): Context
  {
    if context.Message? || context.items == [] then context
    else Message(KB_HEADER + Blocks(context.items))
  }

  function RuleBased(items: seq<Record>): string
  {
    RULE_HEADER + (if items == [] then RULE_NOTHING else Blocks(items))
  }

  /** `{formatted_context}` in the f-string: the text, or `[]` for an empty list. */
  function Interpolated(formatted: Context): string
    requires formatted.Message? || formatted.items == []
  {
    if formatted.Message? then formatted.text else "[]"
  }

  /** The prompt template; continuation lines keep the 12 spaces of the source's indentation. */
  const PROMPT_HEAD: string :=
    "You are a helpful medical assistant providing information about diseases and symptoms.\n"
    + "            Use ONLY the information provided in the knowledge base to answer the query.\n"
    + "            If the information is not in the knowledge base, acknowledge that you don't have that information.\n"
    + "            Format your response in a clear, concise manner.\n"
    + "            \n"
    + "            Query: "
  const PROMPT_MID: string := "\n" + "            \n" + "            "
  const PROMPT_TAIL: string := "\n" + "            \n" + "            Answer:"

  function Prompt(query: string, context: string): string
  {
    PROMPT_HEAD + query + PROMPT_MID + context + PROMPT_TAIL
  }

  function PromptFor(query: string, items: seq<Record>): string
  {
    Prompt(query, Interpolated(FormatForLlm(Records(items))))
  }

  /** `generate_response` */
  function Respond(g: Graph, llm: Llm, sub: Graph, query: string): string
    requires NodesValid(g) && NodesValid(sub)
  {
    var context := Extract(g, sub, query);
    if context.Message? then context.text
    else match llm
      case NoLlm => RuleBased(context.items)
      case Ollama(invoke) =>
        match invoke(PromptFor(query, context.items))
        case Success(reply) => Strip(reply)
        case Failure(_) => RuleBased(context.items)
  }

  // ---------------------------------------------------------------------------
  // The generator
  // ---------------------------------------------------------------------------

  /** `for _, symptom, edge_data in g.edges(disease, data=True): if edge_data.get('type') == HAS_SYMPTOM` */
  method SymptomNeighbours(g: Graph, disease: string) returns (symptoms: seq<string>)
    requires disease in g.adj
    ensures symptoms == SymptomsOf(g, disease)
  {
    symptoms := [];
    var ns := g.adj[disease];
    for k := 0 to |ns|
      invariant symptoms == TypedNbrs(g, disease, ns[..k], HAS_SYMPTOM)
    {
      assert ns[..k + 1][..k] == ns[..k];
      var symptom := ns[k];
      if (disease, symptom) in g.edgeType && g.edgeType[(disease, symptom)] == HAS_SYMPTOM {
        symptoms := symptoms + [symptom];
      }
    }
    assert ns[..|ns|] == ns;
  }

  /** The loop over `ds`, keeping the mentioned ones only when asked to. */
  method CollectRecords(g: Graph, ds: seq<string>, query: string, onlyMentioned: bool) returns (items: seq<Record>)
    requires forall d :: d in ds ==> d in g.adj
    ensures items == Collect(g, ds, query, onlyMentioned)
  {
    items := [];
    for i := 0 to |ds|
      invariant items == Collect(g, ds[..i], query, onlyMentioned)
    {
      assert ds[..i + 1][..i] == ds[..i];
      var disease := ds[i];
      if !onlyMentioned || AnyWordIn(Split(Lower(disease)), Lower(query)) {
        var symptoms := SymptomNeighbours(g, disease);
        if symptoms != [] {
          items := items + [Record(disease, symptoms)];
        }
      }
    }
    assert ds[..|ds|] == ds;
  }

  /** The `+=` loop both formatters share. */
  method AppendBlocks(start: string, items: seq<Record>) returns (text: string)
    ensures text == start + Blocks(items)
  {
    text := start;
    for k := 0 to |items|
      invariant text == start + Blocks(items[..k])
    {
      assert items[..k + 1][..k] == items[..k];
      text := text + "Disease: " + items[k].disease + "\n";
      text := text + "Symptoms: " + Join(items[k].symptoms, ", ") + "\n\n";
    }
    assert items[..|items|] == items;
  }

  class ResponseGenerator {
    const graph: Graph
    const llm: Llm

    /** `llm` is what creating the Ollama client gave: the client, or nothing when that raised. */
    constructor (graph: Graph, llm: Llm)
      ensures this.graph == graph && this.llm == llm
    {
      this.graph := graph;
      this.llm := llm;
    }

    /** `found_diseases` is written but never read, so it is not kept. */
    method ExtractContext(subgraph: Graph, query: string) returns (context: Context)
      requires NodesValid(graph) && NodesValid(subgraph)
      ensures context == Extract(graph, subgraph, query)
    {
      if |subgraph.nodes| == 0 {
        return Message(NO_INFO);
      }
      var diseaseNodes := NodesLabelled(graph, DISEASE);
      var items := CollectRecords(graph, diseaseNodes, query, true);
      if items == [] {
        var diseases := NodesLabelled(subgraph, DISEASE);
        items := CollectRecords(subgraph, diseases, "", false);
      }
      context := Records(items);
    }

    method FormatContextForLlm(context: Context) returns (formatted: Context)
      ensures formatted == FormatForLlm(context)
    {
      if context.Message? || context.items == [] {
        return context;
      }
      var text := AppendBlocks(KB_HEADER, context.items);
      formatted := Message(text);
    }

    method GenerateRuleBasedResponse(items: seq<Record>, query: string) returns (response: string)
      ensures response == RuleBased(items)
    {
      response := RULE_HEADER;
      if items == [] {
        response := response + RULE_NOTHING;
      } else {
        response := AppendBlocks(response, items);
      }
    }

    method GenerateResponse(query: string, subgraph: Graph) returns (response: string)
      requires NodesValid(graph) && NodesValid(subgraph)
      ensures response == Respond(graph, llm, subgraph, query)
    {
      var context := ExtractContext(subgraph, query);
      if context.Message? {
        return context.text;
      }
      var formatted := FormatContextForLlm(context);
      match llm {
        case Ollama(invoke) =>
          var prompt := Prompt(query, Interpolated(formatted));
          var reply := invoke(prompt);
          match reply {
            case Success(text) =>
              response := Strip(text);
            case Failure(_) =>
              response := GenerateRuleBasedResponse(context.items, query);
          }
        case NoLlm =>
          response := GenerateRuleBasedResponse(context.items, query);
      }
    }
  }

  // ---------------------------------------------------------------------------
  // Properties of the records
  // ---------------------------------------------------------------------------

  /** The symptoms of a disease are the ends of its `HAS_SYMPTOM` edges. */
  lemma SymptomsOfSpec(g: Graph, disease: string, s: string)
    requires disease in g.adj
    ensures s in SymptomsOf(g, disease) <==> TypedEdge(g, disease, s, HAS_SYMPTOM)
  {
  }

  /** A record is made for exactly the selected diseases of `ds` that have a symptom, with all their symptoms. */
  lemma {:induction false} CollectMembers(g: Graph, ds: seq<string>, query: string, onlyMentioned: bool, d: string, s: seq<string>)
    requires forall x :: x in ds ==> x in g.adj
    ensures Record(d, s) in Collect(g, ds, query, onlyMentioned) <==>
              d in ds && Selected(onlyMentioned, query, d) && s == SymptomsOf(g, d) && s != []
    decreases |ds|
  {
    if ds != [] {
      var p := ds[..|ds| - 1];
      assert ds == p + [ds[|ds| - 1]];
      CollectMembers(g, p, query, onlyMentioned, d, s);
    }
  }

  /** Records follow the order of `ds`; so, when `ds` has no duplicates, no disease has two records. */
  lemma {:induction false} CollectOrder(g: Graph, ds: seq<string>, query: string, onlyMentioned: bool)
    requires forall x :: x in ds ==> x in g.adj
    requires NoDup(ds)
    ensures forall i :: 0 <= i < |Collect(g, ds, query, onlyMentioned)| ==> Collect(g, ds, query, onlyMentioned)[i].disease in ds
    ensures forall i, j :: 0 <= i < j < |Collect(g, ds, query, onlyMentioned)| ==>
              IndexOf(ds, Collect(g, ds, query, onlyMentioned)[i].disease) < IndexOf(ds, Collect(g, ds, query, onlyMentioned)[j].disease)
    decreases |ds|
  {
    if ds != [] {
      var n := |ds|;
      var p := ds[..n - 1];
      var last := ds[n - 1];
      var front := Collect(g, p, query, onlyMentioned);
      var r := Collect(g, ds, query, onlyMentioned);
      CollectOrder(g, p, query, onlyMentioned);
      assert r[..|front|] == front;
      forall i | 0 <= i < |front|
        ensures r[i].disease in p && IndexOf(ds, r[i].disease) == IndexOf(p, r[i].disease)
      {
        assert r[i] == front[i];
        IndexOfPrefix(ds, n - 1, r[i].disease);
      }
      if |r| > |front| {
        assert r[|front|].disease == last;
        assert last !in p;
        assert IndexOf(ds, last) == n - 1;
      }
    }
  }

  /** Under `NodesValid`, every node of the disease list has an adjacency entry, and the list has no duplicates. */
  lemma DiseaseListValid(g: Graph)
    requires NodesValid(g)
    ensures forall d :: d in NodesLabelled(g, DISEASE) ==> d in g.adj
    ensures NoDup(NodesLabelled(g, DISEASE))
  {
  }

  /** `Some` disease of the graph is mentioned and has a symptom: the only case the fallback is skipped. */
  ghost predicate AnyMentioned(g: Graph, query: string)
    requires NodesValid(g)
  {
    exists d :: d in NodesLabelled(g, DISEASE) && Mentioned(query, d) && SymptomsOf(g, d) != []
  }

  /**
   * An empty subgraph gives the message; otherwise a record per disease of
   * the graph that the query mentions and that has a symptom, or, when there
   * is none, a record per disease of the subgraph that has a symptom there.
   */
  lemma ExtractSpec(g: Graph, sub: Graph, query: string, d: string, s: seq<string>)
    requires NodesValid(g) && NodesValid(sub)
    ensures Extract(g, sub, query).Message? <==> |sub.nodes| == 0
    ensures Extract(g, sub, query).Message? ==> Extract(g, sub, query).text == NO_INFO
    ensures Extract(g, sub, query).Records? ==>
              (Record(d, s) in Extract(g, sub, query).items <==>
                 if AnyMentioned(g, query) then
                   d in NodesLabelled(g, DISEASE) && Mentioned(query, d) && s == SymptomsOf(g, d) && s != []
                 else
                   d in NodesLabelled(sub, DISEASE) && s == SymptomsOf(sub, d) && s != [])
  {
    DiseaseListValid(g);
    DiseaseListValid(sub);
    CollectMembers(g, NodesLabelled(g, DISEASE), query, true, d, s);
    CollectMembers(sub, NodesLabelled(sub, DISEASE), "", false, d, s);
    if AnyMentioned(g, query) {
      var m :| m in NodesLabelled(g, DISEASE) && Mentioned(query, m) && SymptomsOf(g, m) != [];
      CollectMembers(g, NodesLabelled(g, DISEASE), query, true, m, SymptomsOf(g, m));
      assert Primary(g, query) != [];
    } else if Primary(g, query) != [] {
      var r := Primary(g, query)[0];
      assert r in Primary(g, query);
      CollectMembers(g, NodesLabelled(g, DISEASE), query, true, r.disease, r.symptoms);
      assert false;
    }
  }

  /** The records list each disease once, in graph order (or subgraph order for the fallback), none without symptoms. */
  lemma ExtractOrder(g: Graph, sub: Graph, query: string)
    requires NodesValid(g) && NodesValid(sub)
    ensures Extract(g, sub, query).Records? ==>
              var items := Extract(g, sub, query).items;
              (forall i :: 0 <= i < |items| ==> items[i].symptoms != [])
              && (forall i, j :: 0 <= i < j < |items| ==> items[i].disease != items[j].disease)
  {
    DiseaseListValid(g);
    DiseaseListValid(sub);
    var c := Extract(g, sub, query);
    if c.Records? {
      var ds := if Primary(g, query) != [] then NodesLabelled(g, DISEASE) else NodesLabelled(sub, DISEASE);
      var h := if Primary(g, query) != [] then g else sub;
      var q := if Primary(g, query) != [] then query else "";
      var only := Primary(g, query) != [];
      assert c.items == Collect(h, ds, q, only);
      CollectOrder(h, ds, q, only);
      forall i | 0 <= i < |c.items|
        ensures c.items[i].symptoms != []
      {
        CollectMembers(h, ds, q, only, c.items[i].disease, c.items[i].symptoms);
      }
    }
  }

  // ---------------------------------------------------------------------------
  // Properties of the text
  // ---------------------------------------------------------------------------

  /** A record's disease and each of its symptoms appear in its block. */
  lemma BlockContains(r: Record, s: string)
    ensures Contains(Block(r), r.disease)
    ensures s in r.symptoms ==> Contains(Block(r), s)
  {
    ContainsMiddle("Disease: ", r.disease, "\n" + "Symptoms: " + Join(r.symptoms, ", ") + "\n\n");
    assert Block(r) == "Disease: " + r.disease + ("\n" + "Symptoms: " + Join(r.symptoms, ", ") + "\n\n");
    if s in r.symptoms {
      JoinContains(r.symptoms, ", ", s);
      ContainsLeft(Join(r.symptoms, ", "), "\n\n", s);
      ContainsRight("Disease: " + r.disease + "\n" + "Symptoms: ", Join(r.symptoms, ", ") + "\n\n", s);
      assert Block(r) == ("Disease: " + r.disease + "\n" + "Symptoms: ") + (Join(r.symptoms, ", ") + "\n\n");
    }
  }

  /** Every disease and every symptom of the records appears in their text. */
  lemma {:induction false} BlocksContain(items: seq<Record>, r: Record, s: string)
    requires r in items
    ensures Contains(Blocks(items), r.disease)
    ensures s in r.symptoms ==> Contains(Blocks(items), s)
    decreases |items|
  {
    var p := items[..|items| - 1];
    var last := items[|items| - 1];
    if r == last {
      BlockContains(r, s);
      ContainsRight(Blocks(p), Block(r), r.disease);
      if s in r.symptoms {
        ContainsRight(Blocks(p), Block(r), s);
      }
    } else {
      assert items == p + [last];
      BlocksContain(p, r, s);
      ContainsLeft(Blocks(p), Block(last), r.disease);
      if s in r.symptoms {
        ContainsLeft(Blocks(p), Block(last), s);
      }
    }
  }

  /**
   * Formatting leaves a message or an empty list as it is, and turns
   * records into text that opens with the knowledge-base header and names
   * every disease and symptom.
   */
  lemma FormatSpec(context: Context, r: Record, s: string)
    ensures context.Message? || context.items == [] ==> FormatForLlm(context) == context
    ensures context.Records? && context.items != [] ==>
              FormatForLlm(context).Message? && StartsWith(FormatForLlm(context).text, KB_HEADER)
    ensures context.Records? && r in context.items ==>
              Contains(FormatForLlm(context).text, r.disease)
              && (s in r.symptoms ==> Contains(FormatForLlm(context).text, s))
  {
    if context.Records? && r in context.items {
      BlocksContain(context.items, r, s);
      ContainsRight(KB_HEADER, Blocks(context.items), r.disease);
      if s in r.symptoms {
        ContainsRight(KB_HEADER, Blocks(context.items), s);
      }
    }
    if context.Records? && context.items != [] {
      assert (KB_HEADER + Blocks(context.items))[..|KB_HEADER|] == KB_HEADER;
    }
  }

  /** The rule-based answer opens with its header and names every disease and symptom it was given. */
  lemma RuleBasedSpec(items: seq<Record>, r: Record, s: string)
    ensures StartsWith(RuleBased(items), RULE_HEADER)
    ensures items == [] ==> RuleBased(items) == RULE_HEADER + RULE_NOTHING
    ensures r in items ==> Contains(RuleBased(items), r.disease) && (s in r.symptoms ==> Contains(RuleBased(items), s))
  {
    assert RuleBased(items)[..|RULE_HEADER|] == RULE_HEADER;
    if r in items {
      BlocksContain(items, r, s);
      ContainsRight(RULE_HEADER, Blocks(items), r.disease);
      if s in r.symptoms {
        ContainsRight(RULE_HEADER, Blocks(items), s);
      }
    }
  }

  /** The prompt carries the query and the formatted context. */
  lemma PromptCarries(query: string, context: string)
    ensures Contains(Prompt(query, context), query)
    ensures Contains(Prompt(query, context), context)
  {
    var head := PROMPT_HEAD;
    var mid := PROMPT_MID;
    var tail := PROMPT_TAIL;
    assert Prompt(query, context) == head + query + (mid + context + tail);
    ContainsMiddle(head, query, mid + context + tail);
    assert Prompt(query, context) == (head + query + mid) + context + tail;
    ContainsMiddle(head + query + mid, context, tail);
  }

  /** The model is asked with every disease and symptom of the records in its prompt. */
  lemma PromptForCarries(query: string, items: seq<Record>, r: Record, s: string)
    requires r in items
    ensures Contains(PromptFor(query, items), query)
    ensures Contains(PromptFor(query, items), r.disease)
    ensures s in r.symptoms ==> Contains(PromptFor(query, items), s)
  {
    var text := Interpolated(FormatForLlm(Records(items)));
    PromptCarries(query, text);
    FormatSpec(Records(items), r, s);
    ContainsTrans(PromptFor(query, items), text, r.disease);
    if s in r.symptoms {
      ContainsTrans(PromptFor(query, items), text, s);
    }
  }

  // ---------------------------------------------------------------------------
  // Properties of the answer
  // ---------------------------------------------------------------------------

  /**
   * An empty subgraph answers with the message. Otherwise the answer is the
   * model's reply stripped of surrounding whitespace when the model answers,
   * and the rule-based answer, naming every disease and symptom of the
   * records, when there is no model or the call fails.
   */
  lemma RespondSpec(g: Graph, llm: Llm, sub: Graph, query: string, r: Record, s: string)
    requires NodesValid(g) && NodesValid(sub)
    ensures |sub.nodes| == 0 ==> Respond(g, llm, sub, query) == NO_INFO
    ensures |sub.nodes| > 0 && llm.Ollama? && llm.invoke(PromptFor(query, Extract(g, sub, query).items)).Success? ==>
              var reply := Strip(llm.invoke(PromptFor(query, Extract(g, sub, query).items)).value);
              Respond(g, llm, sub, query) == reply
              && (reply == [] || (!IsSpace(reply[0]) && !IsSpace(reply[|reply| - 1])))
    ensures |sub.nodes| > 0 && (llm.NoLlm? || llm.invoke(PromptFor(query, Extract(g, sub, query).items)).Failure?) ==>
              StartsWith(Respond(g, llm, sub, query), RULE_HEADER)
              && (r in Extract(g, sub, query).items ==>
                    Contains(Respond(g, llm, sub, query), r.disease)
                    && (s in r.symptoms ==> Contains(Respond(g, llm, sub, query), s)))
  {
    ExtractSpec(g, sub, query, r.disease, r.symptoms);
    if |sub.nodes| > 0 {
      RuleBasedSpec(Extract(g, sub, query).items, r, s);
    }
  }

  /**
   * A record of the context reaches the user's side: the prompt names its
   * disease and symptoms, and so does the answer when it is rule-based.
   */
  lemma RecordCarried(g: Graph, llm: Llm, sub: Graph, query: string, r: Record, s: string)
    requires NodesValid(g) && NodesValid(sub)
    requires Extract(g, sub, query).Records? && r in Extract(g, sub, query).items
    ensures Contains(PromptFor(query, Extract(g, sub, query).items), r.disease)
    ensures s in r.symptoms ==> Contains(PromptFor(query, Extract(g, sub, query).items), s)
    ensures llm.NoLlm? || llm.invoke(PromptFor(query, Extract(g, sub, query).items)).Failure? ==>
              Contains(Respond(g, llm, sub, query), r.disease)
              && (s in r.symptoms ==> Contains(Respond(g, llm, sub, query), s))
  {
    var items := Extract(g, sub, query).items;
    PromptForCarries(query, items, r, s);
    RuleBasedSpec(items, r, s);
  }
}
