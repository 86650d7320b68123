/** The set arithmetic shared by the Jaccard similarity functions: a list read as the set
    of its elements, and the exact ratio `|A ∩ B| / |A ∪ B|`. */
module Similarity {

  /** `set(xs)`: the elements of a list, forgetting order and duplicates. */
  function Elements(xs: seq<string>): (r: set<string>)
    ensures forall x :: x in r <==> x in xs
    ensures r == {} <==> xs == []
  {
    var r := set x | x in xs;
    assert xs != [] ==> xs[0] in r;
    r
  }

  /** Two lists with the same members read as the same set. */
  lemma ElementsOfSameMembers(xs: seq<string>, ys: seq<string>)
    requires forall x :: x in xs <==> x in ys
    ensures Elements(xs) == Elements(ys)
  {
  }

  /** The intersection is never larger than the union, and is as large only when the two
      sets are equal. */
  lemma IntersectionUnionCard(sa: set<string>, sb: set<string>)
    ensures |sa * sb| <= |sa + sb|
    ensures |sa * sb| == |sa + sb| <==> sa == sb
  {
    assert |sa - sb| + |sb - sa| + |sa * sb| == |sa + sb|;
    if |sa * sb| == |sa + sb| {
      assert |sa - sb| == 0 && |sb - sa| == 0;
      assert sa - sb == {} && sb - sa == {};
      assert forall x :: x in sa <==> x in sb by {
        forall x ensures x in sa <==> x in sb {
          assert x !in sa - sb && x !in sb - sa;
        }
      }
    }
  }

  /** `len(A & B) / len(A | B)` computed exactly, for a non-empty union. */
  function Ratio(sa: set<string>, sb: set<string>): (r: real)
    requires sa + sb != {}
    ensures 0.0 <= r <= 1.0
    ensures r == 1.0 <==> sa == sb
    ensures r == 0.0 <==> sa * sb == {}
  {
    IntersectionUnionCard(sa, sb);
    assert |sa * sb| == 0 <==> sa * sb == {};
    QuotientBounds(|sa * sb| as real, |sa + sb| as real);
    (|sa * sb| as real) / (|sa + sb| as real)
  }

  /** A quotient `n / d` with `0 <= n <= d` lies in [0, 1], is 1 only when `n == d` and
      0 only when `n == 0`. */
  lemma QuotientBounds(n: real, d: real)
    requires 0.0 <= n <= d && d > 0.0
    ensures 0.0 <= n / d <= 1.0
    ensures n / d == 1.0 <==> n == d
    ensures n / d == 0.0 <==> n == 0.0
  {
    var q := n / d;
    assert q * d == n;
    assert q < 0.0 ==> q * d < 0.0;
    assert q > 1.0 ==> q * d > d;
  }

  /** The ratio does not depend on the order of its arguments. */
  lemma RatioSymmetric(sa: set<string>, sb: set<string>)
    requires sa + sb != {}
    ensures Ratio(sa, sb) == Ratio(sb, sa)
  {
    assert sa * sb == sb * sa && sa + sb == sb + sa;
  }
}
