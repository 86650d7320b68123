/** Project 04, the strategy-selection agent: its utilities `stable_hash`, `normalize` and
    `jaccard`. */
module StrategySelection {
  import opened Text
  import opened Similarity

  predicate IsHexDigit(c: char) {
    '0' <= c <= '9' || 'a' <= c <= 'f'
  }

  /** `stable_hash(text)`: the first 16 characters of the hexadecimal SHA-256 digest of the
      UTF-8 encoding of `text`. The digest is computed by `hashlib` and is passed in here
      as `hexDigest`. The identifier is a prefix of the digest, 16 characters long when the
      digest has at least 16 (a SHA-256 hex digest has 64), and made of lower-case hex
      digits when the digest is. */
  function StableHash(hexDigest: string): (id: string)
    ensures id <= hexDigest
    ensures |id| == if |hexDigest| < 16 then |hexDigest| else 16
    ensures (forall i :: 0 <= i < |hexDigest| ==> IsHexDigit(hexDigest[i])) ==>
              forall i :: 0 <= i < |id| ==> IsHexDigit(id[i])
  {
    if |hexDigest| <= 16 then hexDigest else hexDigest[..16]
  }

  /** Two texts whose digests agree on their first 16 characters share an identifier; for
      64-character digests the converse holds as well. */
  lemma StableHashAgreement(d1: string, d2: string)
    requires |d1| == 64 && |d2| == 64
    ensures StableHash(d1) == StableHash(d2) <==> d1[..16] == d2[..16]
  {
  }

  /** `normalize`: lower-case, strip, then collapse every whitespace run to one space.
      The result is collapsed (no leading, trailing or doubled whitespace, and every
      whitespace character a plain space), has no upper-case letter, keeps the words of
      the lower-cased text in order, and is empty exactly when the text is all
      whitespace. */
  function Normalize(text: string): (r: string)
    ensures Collapsed(r)
    ensures r == [] || (!IsSpace(r[0]) && !IsSpace(r[|r| - 1]))
    ensures forall i :: 0 < i < |r| ==> !IsSpace(r[i - 1]) || !IsSpace(r[i])
    ensures NoUpper(r)
    ensures Split(r) == Split(Lower(text))
    ensures r == [] <==> AllSpace(text)
  {
    StripCollapse(Lower(text));
    AllSpaceLower(text);
    Join(Split(Strip(Lower(text))))
  }

  /** Normalising twice gives the same text as normalising once. */
  lemma NormalizeIdempotent(text: string)
    ensures Normalize(Normalize(text)) == Normalize(text)
  {
    var r := Normalize(text);
    LowerOfNoUpper(r);
    assert Strip(r) == r by {
      if r != [] {
        assert TrimStart(r) == r;
        assert TrimEnd(r) == r;
      }
    }
    JoinSplit(r);
  }

  /** `jaccard`: 0.0 when either list is empty (both empty included), otherwise
      |A ∩ B| / |A ∪ B| of their element sets. So it lies in [0, 1], is 1 exactly when
      the lists are non-empty with the same elements, and is 0 exactly when one is empty
      or they share no element. */
  function Jaccard(a: seq<string>, b: seq<string>): (r: real)
    ensures 0.0 <= r <= 1.0
    ensures a == [] || b == [] ==> r == 0.0
    ensures r == 1.0 <==> a != [] && Elements(a) == Elements(b)
    ensures r == 0.0 <==> a == [] || b == [] || Elements(a) * Elements(b) == {}
  {
    var sa, sb := Elements(a), Elements(b);
    if sa == {} || sb == {} then 0.0
    else Ratio(sa, sb)
  }

  /** The similarity does not depend on the order of its arguments. */
  lemma JaccardSymmetric(a: seq<string>, b: seq<string>)
    ensures Jaccard(a, b) == Jaccard(b, a)
  {
    if a != [] && b != [] {
      RatioSymmetric(Elements(a), Elements(b));
    }
  }

  /** Only the sets of elements matter: reordering or duplicating list entries changes
      nothing. */
  lemma JaccardOfSameMembers(a: seq<string>, a': seq<string>, b: seq<string>, b': seq<string>)
    requires forall x :: x in a <==> x in a'
    requires forall x :: x in b <==> x in b'
    ensures Jaccard(a, b) == Jaccard(a', b')
  {
    ElementsOfSameMembers(a, a');
    ElementsOfSameMembers(b, b');
  }
}
