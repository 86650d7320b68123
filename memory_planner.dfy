/** Project 01, the memory-conditioned planner: the text utilities it uses to compare plan
    steps, `normalize_step` and `jaccard_similarity`. */
module MemoryPlanner {
  import opened Text
  import opened Similarity

  /** `normalize_step`: strip, lower-case, then collapse every whitespace run to one space.
      The result is collapsed (no leading, trailing or doubled whitespace, and every
      whitespace character a plain space), has no upper-case letter, keeps the words of
      the lower-cased step in order, and is empty exactly when the step is all
      whitespace. */
  function NormalizeStep(step: string): (r: string)
    ensures Collapsed(r)
    ensures r == [] || (!IsSpace(r[0]) && !IsSpace(r[|r| - 1]))
    ensures forall i :: 0 < i < |r| ==> !IsSpace(r[i - 1]) || !IsSpace(r[i])
    ensures NoUpper(r)
    ensures Split(r) == Split(Lower(step))
    ensures r == [] <==> AllSpace(step)
  {
    StripLower(step);
    StripCollapse(Lower(step));
    AllSpaceLower(step);
    Join(Split(Lower(Strip(step))))
  }

  /** Normalising twice gives the same step as normalising once. */
  lemma NormalizeStepIdempotent(step: string)
    ensures NormalizeStep(NormalizeStep(step)) == NormalizeStep(step)
  {
    var r := NormalizeStep(step);
    LowerOfNoUpper(r);
    assert Strip(r) == r by {
      if r != [] {
        assert TrimStart(r) == r;
        assert TrimEnd(r) == r;
      }
    }
    JoinSplit(r);
  }

  /** `jaccard_similarity`: 1.0 when both lists are empty, 0.0 when exactly one is, and
      otherwise |A ∩ B| / |A ∪ B| of their element sets. So it lies in [0, 1], is 1
      exactly when the two lists have the same elements, and is 0 exactly when they share
      none and are not both empty. */
  function JaccardSimilarity(a: seq<string>, b: seq<string>): (r: real)
    ensures 0.0 <= r <= 1.0
    ensures a == [] && b == [] ==> r == 1.0
    ensures (a == []) != (b == []) ==> r == 0.0
    ensures r == 1.0 <==> Elements(a) == Elements(b)
    ensures r == 0.0 <==> Elements(a) * Elements(b) == {} && (a != [] || b != [])
  {
    var sa, sb := Elements(a), Elements(b);
    if sa == {} && sb == {} then 1.0
    else if sa == {} || sb == {} then 0.0
    else Ratio(sa, sb)
  }

  /** The similarity does not depend on the order of its arguments. */
  lemma JaccardSimilaritySymmetric(a: seq<string>, b: seq<string>)
    ensures JaccardSimilarity(a, b) == JaccardSimilarity(b, a)
  {
    if a != [] && b != [] {
      RatioSymmetric(Elements(a), Elements(b));
    }
  }

  /** Only the sets of elements matter: reordering or duplicating list entries changes
      nothing. */
  lemma JaccardSimilarityOfSameMembers(a: seq<string>, a': seq<string>, b: seq<string>, b': seq<string>)
    requires forall x :: x in a <==> x in a'
    requires forall x :: x in b <==> x in b'
    ensures JaccardSimilarity(a, b) == JaccardSimilarity(a', b')
  {
    ElementsOfSameMembers(a, a');
    ElementsOfSameMembers(b, b');
  }
}
