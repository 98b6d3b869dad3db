/**
 * The fixed whitelist of metaedge codes the document-store loader keeps,
 * each mapped to the relation label recorded on a connection.
 */
module EdgeWhitelist {

  /** Metaedge code (as in edges.tsv) to relation label. */
  const ValidEdges: map<string, string> := map[
    "CtD" := "treats",
    "CpD" := "palliates",
    "CuG" := "upregulates",
    "CdG" := "downregulates",
    "DaG" := "associates",
    "DlA" := "localizes",
    "AuG" := "upregulates",
    "AdG" := "downregulates"
  ]

  /** The six labels a recorded connection can carry. */
  const RelationLabels: set<string> :=
    {"treats", "palliates", "upregulates", "downregulates", "associates", "localizes"}

  /** True of the codes the loader keeps. */
  predicate IsWhitelisted(metaedge: string) {
    metaedge in ValidEdges
  }

  /**
   * The label recorded for a whitelisted code. The loader indexes the map
   * directly, which only happens after the filter.
   */
  function EdgeType(metaedge: string): (rel: string)
    requires IsWhitelisted(metaedge)
    ensures rel in RelationLabels
    ensures rel == "upregulates" <==> metaedge == "CuG" || metaedge == "AuG"
    ensures rel == "downregulates" <==> metaedge == "CdG" || metaedge == "AdG"
  {
    ValidEdges[metaedge]
  }

  /** Exactly eight codes are whitelisted, and every one of the six labels is reached. */
  lemma WhitelistShape()
    ensures ValidEdges.Keys == {"CtD", "CpD", "CuG", "CdG", "DaG", "DlA", "AuG", "AdG"}
    ensures ValidEdges.Values == RelationLabels
  {
  }

  /**
   * Two distinct whitelisted codes share a label exactly when they are the
   * compound and anatomy variants of the same gene regulation.
   */
  lemma SharedLabels(c1: string, c2: string)
    requires IsWhitelisted(c1) && IsWhitelisted(c2) && c1 != c2
    ensures EdgeType(c1) == EdgeType(c2) <==>
      ({c1, c2} == {"CuG", "AuG"} || {c1, c2} == {"CdG", "AdG"})
  {
  }
}
