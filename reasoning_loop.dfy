/** Project 02, the explicit reasoning-loop agent: its text utilities `normalize` and
    `jaccard`. */
module ReasoningLoop {
  import opened Text
  import opened Similarity

  /** `normalize`: lower-case, strip, then collapse every whitespace run to one space.
      The result is collapsed (no leading, trailing or doubled whitespace, and every
      whitespace character a plain space), has no upper-case letter, keeps the words of
      the lower-cased text in order, and is empty exactly when the text is all
      whitespace. */
  function Normalize(text: string): (r: string)
    ensures Collapsed(r)
    ensures r == [] || (!IsSpace(r[0]) && !IsSpace(r[|r| - 1]))
    ensures forall i :: 0 < i < |r| ==> !IsSpace(r[i - 1]) || !IsSpace(r[i])
    ensures NoUpper(r)
    ensures Split(r) == Split(Lower(text))
    ensures r == [] <==> AllSpace(text)
  {
    StripCollapse(Lower(text));
    AllSpaceLower(text);
    Join(Split(Strip(Lower(text))))
  }

  /** Normalising twice gives the same text as normalising once. */
  lemma NormalizeIdempotent(text: string)
    ensures Normalize(Normalize(text)) == Normalize(text)
  {
    var r := Normalize(text);
    LowerOfNoUpper(r);
    assert Strip(r) == r by {
      if r != [] {
        assert TrimStart(r) == r;
        assert TrimEnd(r) == r;
      }
    }
    JoinSplit(r);
  }

  /** `jaccard`: 0.0 when either list is empty (both empty included), otherwise
      |A ∩ B| / |A ∪ B| of their element sets. So it lies in [0, 1], is 1 exactly when
      the lists are non-empty with the same elements, and is 0 exactly when one is empty
      or they share no element. */
  function Jaccard(a: seq<string>, b: seq<string>): (r: real)
    ensures 0.0 <= r <= 1.0
    ensures a == [] || b == [] ==> r == 0.0
    ensures r == 1.0 <==> a != [] && Elements(a) == Elements(b)
    ensures r == 0.0 <==> a == [] || b == [] || Elements(a) * Elements(b) == {}
  {
    var sa, sb := Elements(a), Elements(b);
    if sa == {} || sb == {} then 0.0
    else Ratio(sa, sb)
  }

  /** The similarity does not depend on the order of its arguments. */
  lemma JaccardSymmetric(a: seq<string>, b: seq<string>)
    ensures Jaccard(a, b) == Jaccard(b, a)
  {
    if a != [] && b != [] {
      RatioSymmetric(Elements(a), Elements(b));
    }
  }

  /** Only the sets of elements matter: reordering or duplicating list entries changes
      nothing. */
  lemma JaccardOfSameMembers(a: seq<string>, a': seq<string>, b: seq<string>, b': seq<string>)
    requires forall x :: x in a <==> x in a'
    requires forall x :: x in b <==> x in b'
    ensures Jaccard(a, b) == Jaccard(a', b')
  {
    ElementsOfSameMembers(a, a');
    ElementsOfSameMembers(b, b');
  }
}
