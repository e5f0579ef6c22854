/** Node labels and relationship types of the knowledge graph (knowledge_graph/schema.py). */
module Schema {
  const DISEASE: string := "Disease"
  const SYMPTOM: string := "Symptom"
  const HAS_SYMPTOM: string := "HAS_SYMPTOM"
  const SYMPTOM_OF: string := "SYMPTOM_OF"
}
