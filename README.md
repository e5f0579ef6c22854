# BioRAG core in Dafny

BioRAG answers questions about diseases and their symptoms. It has two stages.

- **Building the knowledge graph.** `preprocess_data` reads a table with one
  row per case, a `Disease` column and `Symptom_1 … Symptom_n` columns. It
  returns the distinct diseases, the sorted distinct symptoms and one
  `HAS_SYMPTOM` relationship per filled symptom cell. `build_graph` turns
  these into an undirected networkx graph with labelled nodes and typed edges.
- **Answering a query.** A query processor matches the query against the
  graph's diseases and symptoms in tiers:
  1. a query word inside a disease name;
  2. a fuzzy match of a word against a disease name, above 0.7;
  3. a query word inside a symptom name;
  4. only when tiers 1 to 3 find nothing, a fallback tier.

  The fallback is a looser fuzzy rescan (above 0.6) in `SimpleQueryProcessor`,
  and the three diseases closest in embedding space (above 0.3) in
  `QueryProcessor`. The processor returns the subgraph induced by the matches
  and their neighbours. `ResponseGenerator` then extracts disease/symptom
  records from that subgraph and formats them into a prompt. The answer is
  the language model's reply, or a rule-based text when there is no model or
  the call fails. `BiomedicalRAG` wires the chosen processor to the generator.

Every operation is modelled in the form the source takes. The loops of
`preprocess_data`, `build_graph`, `process_query`, `extract_context` and the
formatters are Dafny methods with loop invariants. Each method is proved
equal to a specification function, and the properties are lemmas about those
functions. The processors, the generator and the RAG object are classes whose
fields are set once, in the constructor.

How the modules map onto the source:

| module | source |
|---|---|
| `DataProcessor` | `knowledge_graph/data_processor.py` |
| `GraphBuilder` | `knowledge_graph/graph_builder.py` |
| `Schema` | `knowledge_graph/schema.py` |
| `Graphs` | the part of networkx's `nx.Graph` the program relies on |
| `Text`, `Seqs` | the Python string and list built-ins it relies on |
| `Similarity` | the two string-similarity helpers both query processors share |
| `Matching` | the tiers and the subgraph both query processors share |
| `SimpleQuery` | `rag/query_processor_simple.py` |
| `SemanticQuery` | `rag/query_processor.py` |
| `Ranking` | `np.argsort(...)[-3:][::-1]` in `rag/query_processor.py` |
| `ResponseGeneration` | `rag/response_generator.py` |
| `BiomedicalRag` | `rag/biomedical_rag.py` |
| `Scenarios` | worked values and questions from `tests/test_rag_system.py` |

External parts become parameters:

- The embedding model is a function `cosine(query, text)`. This function
  stands for the cosine similarity of the two embeddings.
- The Ollama client is `Llm`: either no client, or a function from prompt to
  reply that may fail.
- Which processor is used depends on whether `sentence_transformers` imports.
  That choice is the `model` argument of `BiomedicalRAG`.

## Model

| member | source | states |
|---|---|---|
| DataProcessor.ColumnIndex | knowledge_graph/data_processor.py:13 | the Disease column is absent exactly when the header lacks it; otherwise the result is its first position |
| DataProcessor.SymptomColumns | knowledge_graph/data_processor.py:16 | a column is selected iff its name starts with `Symptom_`, in header order |
| DataProcessor.NonBlank | knowledge_graph/data_processor.py:26 | the kept values are exactly the values that are not blank once stripped |
| DataProcessor.CollectSymptomValues | knowledge_graph/data_processor.py:19-22 | the column loop yields each symptom column's distinct present cells, column after column |
| DataProcessor.CollectRelationships | knowledge_graph/data_processor.py:29-41 | the row loop and its column loop yield one relationship per kept cell, in row-then-column order |
| DataProcessor.Preprocess | knowledge_graph/data_processor.py:6-43 | gives the three results of preprocessing; fails with KeyError('Disease') iff the table has no Disease column |
| DataProcessor.DiseaseColumnMem | knowledge_graph/data_processor.py:13 | a name is in the disease column iff some row's Disease cell holds it |
| DataProcessor.ColumnValuesMem | knowledge_graph/data_processor.py:22 | `dropna()` keeps exactly the present cells of the column |
| DataProcessor.AllSymptomValuesMem | knowledge_graph/data_processor.py:19-22 | a value is collected iff it is a present cell of some symptom column |
| DataProcessor.RowRelationshipsMem | knowledge_graph/data_processor.py:32-41 | one row yields exactly the relationships (disease, cell, HAS_SYMPTOM) of its kept symptom cells |
| DataProcessor.RelationshipsMem | knowledge_graph/data_processor.py:30-41 | a relationship is produced iff some row produces it |
| DataProcessor.RowRelationshipsLength | knowledge_graph/data_processor.py:32-41 | a row yields at most one relationship per symptom column |
| DataProcessor.RelationshipsLength | knowledge_graph/data_processor.py:29-41 | at most rows × symptom columns relationships |
| DataProcessor.IngestDiseases | knowledge_graph/data_processor.py:13 | the disease list has no duplicates, holds exactly the names in the Disease column, and keeps first-appearance order |
| DataProcessor.IngestSymptoms | knowledge_graph/data_processor.py:16-26 | the symptom list is strictly sorted and holds exactly the non-blank present cells of the symptom columns |
| DataProcessor.IngestSymptomsDetermined | knowledge_graph/data_processor.py:16-26 | the symptom list is the only strictly sorted list of the non-blank symptom cells |
| DataProcessor.IngestRelationships | knowledge_graph/data_processor.py:29-41 | a relationship is produced iff it is (row's disease, kept symptom cell, HAS_SYMPTOM) for some row and symptom column |
| DataProcessor.IngestRelationshipsBound | knowledge_graph/data_processor.py:29-41 | there are at most rows × symptom columns relationships |
| DataProcessor.RowRelationshipsCount | knowledge_graph/data_processor.py:32-41 | a row yields exactly as many relationships as it has kept cells |
| DataProcessor.RelationshipsCount | knowledge_graph/data_processor.py:29-41 | the table yields exactly as many relationships as it has kept (row, column) cells |
| DataProcessor.IngestRelationshipsCount | knowledge_graph/data_processor.py:29-41 | the relationship count equals the number of kept symptom cells |
| DataProcessor.IngestHeaderOnly | knowledge_graph/data_processor.py:6-43 | a table with a Disease column and no rows gives three empty results |
| DataProcessor.RelationshipsClosed | knowledge_graph/data_processor.py:29-41 | every relationship joins a disease of the column to a collected non-blank symptom value, with type HAS_SYMPTOM |
| DataProcessor.IngestClosed | knowledge_graph/data_processor.py:6-43 | every relationship's source is in the disease list, its target in the symptom list, and its type is HAS_SYMPTOM |
| Graphs.AddNodeValid | knowledge_graph/graph_builder.py:11 | `add_node` keeps the graph consistent and changes no edge |
| Graphs.AddEdgeValid | knowledge_graph/graph_builder.py:19 | `add_edge` keeps the graph consistent, adds missing endpoints in order, and leaves labels alone |
| Graphs.AddEdgeEdges | knowledge_graph/graph_builder.py:19 | after `add_edge(u, v)` the edges are the old ones plus {u, v} |
| Graphs.AddEdgeTyped | knowledge_graph/graph_builder.py:19 | the new edge carries the given type in both directions; every other edge keeps its type |
| Graphs.NodesLabelled | rag/query_processor_simple.py:13-20 | a node is listed iff it is in the graph and carries that label, in graph order |
| Graphs.TypedNbrs | rag/response_generator.py:35-37 | a neighbour is kept iff its edge has the given type |
| Graphs.InducedEdges | rag/query_processor_simple.py:84 | the subgraph has exactly the graph's edges with both ends kept |
| Graphs.InducedTyped | rag/query_processor_simple.py:84 | edges of the subgraph keep their type |
| Graphs.InducedValid | rag/query_processor_simple.py:84 | the subgraph is a consistent graph whose nodes are the kept graph nodes |
| GraphBuilder.BuildGraph | knowledge_graph/graph_builder.py:5-21 | the three loops build the specified graph, and it is consistent |
| GraphBuilder.AddNodesValid | knowledge_graph/graph_builder.py:10-15 | a node loop keeps the graph consistent |
| GraphBuilder.AddEdgesValid | knowledge_graph/graph_builder.py:18-19 | the edge loop keeps the graph consistent |
| GraphBuilder.BuildValid | knowledge_graph/graph_builder.py:5-21 | the built graph is consistent |
| GraphBuilder.AddNodesLabels | knowledge_graph/graph_builder.py:10-15 | a node loop sets the label of every node it adds and leaves the others alone |
| GraphBuilder.AddEdgesLabels | knowledge_graph/graph_builder.py:18-19 | adding edges changes no label |
| GraphBuilder.BuildLabels | knowledge_graph/graph_builder.py:10-15 | exactly the diseases and symptoms are labelled; a name that is both ends up labelled Symptom |
| GraphBuilder.AddNodesEdges | knowledge_graph/graph_builder.py:10-15 | adding nodes changes no edge |
| GraphBuilder.AddEdgesEdges | knowledge_graph/graph_builder.py:18-19 | the edge loop adds exactly the pairs its relationships join |
| GraphBuilder.BuildEdges | knowledge_graph/graph_builder.py:5-21 | two names are adjacent iff some relationship joins them |
| GraphBuilder.EdgePairFromRelationship | knowledge_graph/graph_builder.py:18-19 | every edge comes from a relationship |
| GraphBuilder.BuildEdgeSet | knowledge_graph/graph_builder.py:18-19 | the graph's edge set equals the set of relationship endpoint pairs |
| GraphBuilder.AddEdgesTyped | knowledge_graph/graph_builder.py:18-19 | an edge's type is that of the last relationship joining the pair |
| GraphBuilder.BuildTyped | knowledge_graph/graph_builder.py:18-19 | an edge of the built graph has type t iff the last relationship joining the pair has type t |
| GraphBuilder.LastTypeOf | knowledge_graph/graph_builder.py:18-19 | a last type exists iff some relationship joins the pair; with only HAS_SYMPTOM relationships it is HAS_SYMPTOM |
| GraphBuilder.AddNodesOrder | knowledge_graph/graph_builder.py:10-15 | a node loop appends the new names in first-appearance order |
| GraphBuilder.AddEdgesOrder | knowledge_graph/graph_builder.py:18-19 | the edge loop appends the unseen endpoints in order |
| GraphBuilder.BuildNodes | knowledge_graph/graph_builder.py:5-21 | the node order is diseases, then symptoms, then relationship endpoints, duplicates dropped; the node count is the number of distinct names |
| Text.Lower | rag/query_processor_simple.py:24 | lowering keeps the length and lowers each character |
| Text.LowerIdempotent | rag/query_processor_simple.py:30 | lowering twice is lowering once |
| Text.LowerAppend | rag/query_processor_simple.py:24 | lowering a concatenation lowers each part |
| Text.LowerOfLowercase | rag/query_processor_simple.py:24 | a string without upper-case letters is unchanged by lowering |
| Text.ContainsIff | rag/query_processor_simple.py:33 | Python's `in` on strings holds iff the needle occurs at some position |
| Text.SplitWords | rag/query_processor_simple.py:24 | `split()` yields nonempty words without whitespace, each occurring in the input |
| Text.SplitEmptyIff | rag/query_processor_simple.py:24 | `split()` yields no word iff the input is all whitespace |
| Text.SplitWord | rag/query_processor_simple.py:24 | a nonempty word without whitespace splits to itself |
| Text.SplitLast | rag/query_processor_simple.py:24 | a nonempty word without whitespace that ends a sentence after a space is one of its words |
| Text.NoSpaceInside | rag/query_processor_simple.py:24 | a piece of a word has no whitespace either |
| Text.VisibleNoSpace | rag/query_processor_simple.py:24 | visible ASCII characters are not whitespace |
| Text.Strip | rag/response_generator.py:102 | `strip()` only shortens, and leaves no whitespace at either end |
| Text.BlankIff | knowledge_graph/data_processor.py:26 | a string strips to empty iff it is all whitespace |
| Text.JoinContains | rag/response_generator.py:72 | every joined item occurs in `', '.join(...)` |
| Text.LexIrreflexive | knowledge_graph/data_processor.py:25 | the string order used by `np.unique` is irreflexive |
| Text.LexTransitive | knowledge_graph/data_processor.py:25 | it is transitive |
| Text.LexTotal | knowledge_graph/data_processor.py:25 | it is total on distinct strings |
| Seqs.Unique | knowledge_graph/data_processor.py:13 | `unique()` gives a duplicate-free list of the same elements |
| Seqs.UniqueOrder | knowledge_graph/data_processor.py:13 | `unique()` keeps first-appearance order |
| Seqs.UniqueCard | knowledge_graph/data_processor.py:13 | the number of distinct elements |
| Seqs.SortedUnique | knowledge_graph/data_processor.py:25-26 | `np.unique` gives a strictly sorted list of the same elements |
| Seqs.SortedListingUnique | knowledge_graph/data_processor.py:25-26 | only one strictly sorted list has a given set of elements |
| Similarity.Aligned | rag/query_processor_simple.py:106 | the number of position-wise matches is at most either length |
| Similarity.AlignedSymmetric | rag/query_processor_simple.py:106 | the count of position-wise matches is symmetric |
| Similarity.AlignedFull | rag/query_processor_simple.py:106 | all positions match in equal lengths only for equal strings |
| Similarity.AlignedAfterMismatches | rag/query_processor_simple.py:106 | a prefix where the strings disagree everywhere adds nothing to the count |
| Similarity.ScoreRange | rag/query_processor_simple.py:103-108 | the score lies in [0, 1] and is 1 iff the strings are equal |
| Similarity.ScoreSymmetric | rag/query_processor_simple.py:103-108 | the score is symmetric |
| Similarity.SimilarityRange | rag/query_processor_simple.py:87-101 | similarity lies in [0, 1) and is symmetric; 0.9 when one string contains the other; otherwise 0.0 when either is shorter than 4 |
| Scenarios.SimilarityExamples | rag/query_processor_simple.py:87-101 | concrete values: "diabet" against "diabetes" is 0.9 and "fevar" against "fever" is 0.8 |
| Scenarios.UnrelatedNamesApart | tests/test_rag_system.py:95-98 | neither "diabetes" nor "hypertension" contains the other |
| Scenarios.UnrelatedNamesAligned | tests/test_rag_system.py:95-98 | "diabetes" and "hypertension" agree at exactly two positions |
| Scenarios.UnrelatedNames | tests/test_rag_system.py:95-98 | "diabetes" against "hypertension" scores below 0.5 |
| Scenarios.DiabetesWord | tests/test_rag_system.py:33-38 | "diabetes?" contains the lowered name of Diabetes, is no stop word and is longer than 3 |
| Scenarios.EndsInDiabetes | tests/test_rag_system.py:33-38 | any query ending in the word "diabetes?" asks about Diabetes through that word |
| Scenarios.DiabetesQuestion | tests/test_rag_system.py:33-38 | "What are the symptoms of diabetes?" asks about Diabetes through "diabetes?" |
| Scenarios.DiabetesRetrieved | tests/test_rag_system.py:29-38 | with either processor, that question retrieves Diabetes and each of its symptoms from a consistent graph holding Diabetes |
| Matching.AnyTermIn | rag/query_processor_simple.py:33 | true iff some term occurs in the name |
| Matching.LastTerm | rag/query_processor_simple.py:24 | the last word of a query, already lower case and without whitespace, is one of its terms |
| Matching.MatchDiseases | rag/query_processor_simple.py:29-52 | the disease loop, with its `continue` and `break`, matches exactly the diseases of tiers 1 and 2 |
| Matching.MatchSymptoms | rag/query_processor_simple.py:55-58 | the symptom loop adds exactly the symptoms containing a term |
| Matching.CollectHood | rag/query_processor_simple.py:77-82 | the loop collects the matches and all their neighbours |
| Matching.Subgraph | rag/query_processor_simple.py:73-84 | the returned subgraph is the empty subgraph for no match, otherwise the one induced by the 1-hop neighbourhood |
| Matching.DirectMatch | rag/query_processor_simple.py:33-35 | a disease whose lowercased name contains a term is matched |
| Matching.PunctuatedMatch | rag/query_processor_simple.py:38-52 | a non-stop-word term longer than 3 that contains the disease name (e.g. "diabetes?") matches it through the fuzzy tier |
| Matching.NamedMatch | rag/query_processor_simple.py:29-52 | a disease is matched when a term lies inside its lowered name, or when a non-stop-word term longer than 3 holds the name |
| Matching.ShortTermsOnlyDirect | rag/query_processor_simple.py:46-47 | terms of at most 3 characters never fuzzy-match |
| Matching.RescanCoversFuzzy | rag/query_processor_simple.py:61-70 | whatever passes the 0.7 fuzzy test passes the 0.6 rescan |
| Matching.BlankQueryMatchesNothing | rag/query_processor_simple.py:24-70 | an all-whitespace query has no terms, so no tier matches anything |
| Matching.HoodMembers | rag/query_processor_simple.py:77-82 | a node is collected iff it is matched or adjacent to a match |
| Matching.NeighbourhoodNodes | rag/query_processor_simple.py:73-84 | the subgraph is consistent; it is empty when nothing matched; its nodes are the graph nodes that are matched or adjacent to a match |
| Matching.NeighbourhoodEdges | rag/query_processor_simple.py:84 | its edges are the graph's edges between such nodes |
| Matching.NeighbourhoodKeepsEdges | rag/query_processor_simple.py:77-84 | every typed edge at a matched entity survives in the subgraph |
| Ranking.InsertIndex | rag/query_processor.py:64 | insertion adds exactly the one index |
| Ranking.InsertAscending | rag/query_processor.py:64 | insertion keeps the indices in ascending score order |
| Ranking.ArgSort | rag/query_processor.py:64 | `argsort` is a permutation of the indices in ascending score order |
| Ranking.Reverse | rag/query_processor.py:64 | `[::-1]` reverses |
| Ranking.TopThreeAt | rag/query_processor.py:64 | `[-3:][::-1]` holds the last min(3, n) sorted indices, last first |
| Ranking.TopThreeDescending | rag/query_processor.py:64 | the top indices are valid, distinct and in descending score order |
| Ranking.TopThreeBeats | rag/query_processor.py:64 | no index left out scores higher than one taken |
| Ranking.TopThreeSpec | rag/query_processor.py:64 | min(3, n) distinct indices, highest score first, none beaten by an index left out |
| SimpleQuery.SimpleQueryProcessor.constructor | rag/query_processor_simple.py:9-20 | the disease and symptom lists are the graph's nodes by label |
| SimpleQuery.SimpleQueryProcessor.ProcessQuery | rag/query_processor_simple.py:22-85 | the subgraph is the neighbourhood of what tiers 1 to 3 match, or of the 0.6 rescan when they match nothing |
| SimpleQuery.SimpleMatchedSpec | rag/query_processor_simple.py:26-70 | an entity is matched iff a tier accepts it, the rescan counting only when tiers 1 to 3 found nothing |
| SimpleQuery.RescanOnlyWhenNothingMatched | rag/query_processor_simple.py:60-70 | nothing is matched iff no tier and no rescan accepts anything; direct matches are always kept |
| SimpleQuery.SimpleRetrieveSpec | rag/query_processor_simple.py:22-85 | the result is a consistent graph over graph nodes; a disease named by a term (a term inside its lowered name, or one like "diabetes?" that holds it) is in it with all its HAS_SYMPTOM edges |
| SimpleQuery.SimpleBlankQuery | rag/query_processor_simple.py:22-74 | an empty or all-whitespace query retrieves the empty subgraph |
| SemanticQuery.Scores | rag/query_processor.py:55-61 | one score per disease: the query against "Disease: " + name |
| SemanticQuery.QueryProcessor.constructor | rag/query_processor.py:7-15 | the disease and symptom lists are the graph's nodes by label |
| SemanticQuery.QueryProcessor.ProcessQuery | rag/query_processor.py:17-82 | the subgraph is the neighbourhood of what tiers 1 to 3 match, or of the semantic tier when they match nothing |
| SemanticQuery.PickDiseases | rag/query_processor.py:65-67 | the loop adds exactly the diseases at the top indices scoring above 0.3 |
| SemanticQuery.PicksCard | rag/query_processor.py:65-67 | k indices pick at most k diseases |
| SemanticQuery.SemanticTierCard | rag/query_processor.py:64-67 | the semantic tier adds at most three diseases |
| SemanticQuery.SemanticTierPicks | rag/query_processor.py:64-67 | each disease it adds scores above 0.3 and at least as high as every disease left out |
| SemanticQuery.SemanticTierNonEmpty | rag/query_processor.py:64-67 | when any disease scores above 0.3, the tier adds something |
| SemanticQuery.SemanticMatchedSpec | rag/query_processor.py:53-67 | direct matches are kept; the fallback adds at most three diseases and nothing else |
| SemanticQuery.SemanticRetrieveSpec | rag/query_processor.py:17-82 | the result is a consistent graph over graph nodes; a disease named by a term (a term inside its lowered name, or one like "diabetes?" that holds it) is in it with all its HAS_SYMPTOM edges |
| ResponseGeneration.AnyWordIn | rag/response_generator.py:32 | true iff some lowercased word of the disease name occurs in the lowercased query |
| ResponseGeneration.SymptomNeighbours | rag/response_generator.py:34-37 | the edge loop collects the disease's HAS_SYMPTOM neighbours in adjacency order |
| ResponseGeneration.CollectRecords | rag/response_generator.py:31-43 | the disease loop gives one record per selected disease that has a symptom |
| ResponseGeneration.AppendBlocks | rag/response_generator.py:69-72 | the `+=` loop appends one "Disease/Symptoms" block per record |
| ResponseGeneration.ResponseGenerator.constructor | rag/response_generator.py:7-16 | the generator keeps the graph and the client, or no client when creating it failed |
| ResponseGeneration.ResponseGenerator.ExtractContext | rag/response_generator.py:18-62 | the message for an empty subgraph, else the records of mentioned graph diseases, else those of the subgraph's diseases |
| ResponseGeneration.ResponseGenerator.FormatContextForLlm | rag/response_generator.py:64-74 | a message or empty list passes through; records become the header followed by their blocks |
| ResponseGeneration.ResponseGenerator.GenerateRuleBasedResponse | rag/response_generator.py:111-122 | the header, then "No relevant information found." or the blocks |
| ResponseGeneration.ResponseGenerator.GenerateResponse | rag/response_generator.py:76-109 | the message, the stripped reply, or the rule-based text when there is no client or the call fails |
| ResponseGeneration.SymptomsOfSpec | rag/response_generator.py:35-37 | the listed symptoms are exactly the HAS_SYMPTOM neighbours |
| ResponseGeneration.CollectMembers | rag/response_generator.py:31-43 | a record is made iff its disease is selected and has symptoms, with exactly those symptoms |
| ResponseGeneration.CollectOrder | rag/response_generator.py:31-43 | records follow the disease list's order, so no disease appears twice |
| ResponseGeneration.DiseaseListValid | rag/response_generator.py:26-27 | the disease list is duplicate-free graph nodes |
| ResponseGeneration.ExtractSpec | rag/response_generator.py:18-62 | the message iff the subgraph is empty; otherwise membership in the records is characterised for the primary and the fallback case |
| ResponseGeneration.ExtractOrder | rag/response_generator.py:18-62 | every record has symptoms and no disease has two records |
| ResponseGeneration.BlockContains | rag/response_generator.py:71-72 | a block names its disease and each symptom |
| ResponseGeneration.BlocksContain | rag/response_generator.py:70-72 | the blocks name every disease and symptom of the records |
| ResponseGeneration.FormatSpec | rag/response_generator.py:64-74 | pass-through for a message or empty list; otherwise text that opens with the header and names every disease and symptom |
| ResponseGeneration.RuleBasedSpec | rag/response_generator.py:111-122 | the text opens with the header, is the "nothing found" text for no records, and names every disease and symptom otherwise |
| ResponseGeneration.PromptCarries | rag/response_generator.py:89-98 | the prompt contains the query and the formatted context |
| ResponseGeneration.PromptForCarries | rag/response_generator.py:85-98 | the prompt contains the query and every disease and symptom of the records |
| ResponseGeneration.RespondSpec | rag/response_generator.py:76-109 | the message for an empty subgraph; the stripped reply when the model answers; otherwise a rule-based text naming every record |
| ResponseGeneration.RecordCarried | rag/response_generator.py:76-109 | every record's disease and symptoms reach the prompt, and the answer when it is rule-based |
| BiomedicalRag.RetrieveValid | rag/biomedical_rag.py:18-21 | either processor retrieves a consistent graph over graph nodes |
| BiomedicalRag.AsksAboutNames | rag/biomedical_rag.py:18-21 | a query word equal to the lowered name, or a non-stop word longer than 3 holding it, names the disease and counts as mentioning it |
| BiomedicalRag.BiomedicalRAG.constructor | rag/biomedical_rag.py:12-16 | the processor and the generator are built over the same graph; the semantic processor is used iff a model is available |
| BiomedicalRag.BiomedicalRAG.AnswerQuery | rag/biomedical_rag.py:18-26 | the answer is the generator's response to the processor's subgraph |
| BiomedicalRag.BlankQueryAnswer | rag/biomedical_rag.py:18-26 | with the simple processor, a blank query is answered with the "nothing found" message |
| BiomedicalRag.NamedDisease | rag/biomedical_rag.py:18-21 | a query with a word naming a disease, its lowered name itself or a longer word such as "diabetes?", retrieves it and its symptoms, and counts as mentioning it |
| BiomedicalRag.NamedDiseaseContext | rag/biomedical_rag.py:18-24 | that disease then has a record with all its symptoms |
| BiomedicalRag.NamedDiseaseAnswer | rag/biomedical_rag.py:18-26 | the prompt names the disease and each of its symptoms, and so does a rule-based answer |

## Left out

- Reading the CSV file (`pd.read_csv`) is not modelled. The model starts from a parsed table, and a missing cell is `None`.
- pandas type inference is not modelled. Every present cell is a string, so the `isinstance(s, str)` and `pd.Series` tests always pass.
- DataProcessor.Preprocess: requires every row to have a Disease cell. A NaN disease would become a float node name, which strings cannot express.
- Text.Lower lowers ASCII letters only. Unicode case mapping is not modelled.
- `np.unique` is modelled as sorting by code point. numpy's string comparison agrees with that on the strings considered here.
- Matching.Subgraph keeps the subgraph's nodes in graph order. networkx may report them in the hash order of the node set instead.
- SemanticQuery.QueryProcessor.ProcessQuery: the sentence-transformer model and the cosine computation are the `cosine` parameter. Embeddings, norms and floating-point rounding are not modelled.
- A NaN similarity (from a zero-norm embedding) is not modelled.
- Ranking.ArgSort breaks ties by lower index first. numpy's default quicksort is not stable, so its order for equal scores may differ.
- SemanticQuery.QueryProcessor.ProcessQuery: with no disease nodes, the model's semantic tier selects nothing. numpy may raise on the empty `np.dot` instead.
- The Ollama client, its network call and the exceptions it raises are the `Llm` parameter. A failed call is `Failure`.
- All `print` output is left out: column listings, warnings and LLM errors.
- Similarity.Score: requires a nonempty string. Division by zero cannot happen, because `_string_similarity_score` is only reached with strings of length at least 4.
- Similarity.StringSimilarity models the `1.0 if s1 == s2` branch as written. That branch is unreachable, because equal strings already return 0.9.
- ResponseGeneration.ResponseGenerator.ExtractContext does not keep `found_diseases`. It is written but never read.
- ResponseGeneration.Interpolated covers only a message or an empty list. A non-empty record list never reaches the prompt unformatted.
- `visualize_graph`, the Neo4j and Spark pipelines, the Streamlit and CLI front ends, the embedding helpers and the test launchers are not part of this model.
- Concurrency is not part of this model. The program has none in its core.
