/** Worked values of the similarity score, and the question about diabetes. */
module Scenarios {
  import opened Wrappers
  import opened Text
  import opened Schema
  import opened Graphs
  import opened Similarity
  import opened Matching
  import opened BiomedicalRag

  /** A term inside the name scores 0.9; a one-letter slip in five letters scores 0.8. */
  lemma SimilarityExamples()
    ensures StringSimilarity("diabet", "diabetes") == 0.9
    ensures StringSimilarity("fevar", "fever") == 0.8
  {
    assert OccursAt("diabetes", "diabet", 0);
    ContainsAt("diabetes", "diabet", 0);
    ContainsIff("fever", "fevar");
    ContainsIff("fevar", "fever");
    assert Aligned("fevar", "fever") == 4;
  }

  /** Neither of two unrelated disease names contains the other. */
  lemma UnrelatedNamesApart()
    ensures !Contains("diabetes", "hypertension") && !Contains("hypertension", "diabetes")
  {
    var a, b := "diabetes", "hypertension";
    ContainsIff(a, b);
    ContainsIff(b, a);
    forall p | 0 <= p <= |b| - |a| ensures !OccursAt(b, a, p) {
      assert b[p..p + |a|][0] == b[p] != a[0];
    }
  }

  /** "diabetes" and "hypertension" disagree in their first five places and agree at two of the rest. */
  lemma UnrelatedNamesAligned(a: string, b: string)
    requires a == "diabetes" && b == "hypertension"
    ensures Aligned(a, b) == 2
  {
    AlignedAfterMismatches(a, b, 5);
    assert a[5..] == "tes" && b[5..] == "tension";
    assert Aligned("tes", "tension") == 2;
  }

  /** Two unrelated disease names agree in 2 of 12 places and score below 0.5. */
  lemma UnrelatedNames()
    ensures StringSimilarity("diabetes", "hypertension") < 0.5
  {
    UnrelatedNamesApart();
    UnrelatedNamesAligned("diabetes", "hypertension");
    assert Max(|"diabetes"|, |"hypertension"|) == 12;
  }

  const DIABETES_QUESTION: string := "What are the symptoms of diabetes?"

  /** The word "diabetes?" holds the lower-cased name Diabetes and is no stop word. */
  lemma DiabetesWord(w: string, d: string)
    requires w == "diabetes?" && d == "Diabetes"
    ensures Contains(w, Lower(d))
    ensures w !in STOP_WORDS && |w| > 3
  {
    assert Lower(d) == "diabetes";
    assert OccursAt(w, "diabetes", 0);
    ContainsAt(w, "diabetes", 0);
  }

  /** A question ending in the word "diabetes?" asks about Diabetes through that word. */
  lemma EndsInDiabetes(head: string, w: string, d: string)
    requires w == "diabetes?" && d == "Diabetes"
    ensures AsksAbout(head + " " + w, d, w)
  {
    LowerOfLowercase(w);
    VisibleNoSpace(w);
    LastTerm(head, w);
    DiabetesWord(w, d);
  }

  /** "What are the symptoms of diabetes?" is such a question. */
  lemma DiabetesQuestion()
    ensures AsksAbout(DIABETES_QUESTION, "Diabetes", "diabetes?")
  {
    var head := "What are the symptoms of";
    assert DIABETES_QUESTION == head + " " + "diabetes?";
    EndsInDiabetes(head, "diabetes?", "Diabetes");
  }

  /** Whichever processor is used, asking for the symptoms of diabetes retrieves Diabetes with its symptoms. */
  lemma DiabetesRetrieved(g: Graph, model: Option<Cosine>, s: string)
    requires Valid(g) && "Diabetes" in NodesLabelled(g, DISEASE)
    ensures "Diabetes" in Retrieve(g, model, DIABETES_QUESTION).nodes
    ensures TypedEdge(g, "Diabetes", s, HAS_SYMPTOM) ==> s in Retrieve(g, model, DIABETES_QUESTION).nodes
  {
    DiabetesQuestion();
    NamedDisease(g, model, DIABETES_QUESTION, "Diabetes", "diabetes?", s);
  }
}
