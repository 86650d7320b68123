/** How the copies of the text utilities in the three projects relate to each other. */
module CrossProject {
  import opened Text
  import MemoryPlanner
  import ReasoningLoop
  import StrategySelection

  /** Project 01 strips before lower-casing and project 02 lower-cases before stripping;
      since lower-casing never touches whitespace the two normalisations agree. */
  lemma NormalizersAgree(s: string)
    ensures MemoryPlanner.NormalizeStep(s) == ReasoningLoop.Normalize(s)
    ensures StrategySelection.Normalize(s) == ReasoningLoop.Normalize(s)
  {
    StripLower(s);
  }

  /** The Jaccard copies differ only on two empty lists: project 01 calls them identical
      (1.0), projects 02 and 04 call them unrelated (0.0). On every other input all three
      agree. */
  lemma JaccardPolicies(a: seq<string>, b: seq<string>)
    ensures StrategySelection.Jaccard(a, b) == ReasoningLoop.Jaccard(a, b)
    ensures a == [] && b == [] ==>
              MemoryPlanner.JaccardSimilarity(a, b) == 1.0 && ReasoningLoop.Jaccard(a, b) == 0.0
    ensures a != [] || b != [] ==> MemoryPlanner.JaccardSimilarity(a, b) == ReasoningLoop.Jaccard(a, b)
  {
  }
}
