/** The Python string built-ins the planners use (`str.isspace`, `str.lower`, `str.strip`,
    `str.split()` with no separator, `" ".join` and the substring test `sub in s`),
    restricted to ASCII text, together with the facts about them that the
    normalisation functions rely on. */
module Text {

  /** `str.isspace()` on an ASCII character: tab, line feed, vertical tab, form feed and
      carriage return (9 to 13), the file, group, record and unit separators (28 to 31)
      and the space (32). */
  predicate IsSpace(c: char) {
    9 <= c as int <= 13 || 28 <= c as int <= 32
  }

  /** The ten ASCII characters Python counts as whitespace, listed one by one. */
  lemma IsSpaceCharacters(c: char)
    ensures IsSpace(c) <==>
              c in {'\t', '\n', '\U{B}', '\U{C}', '\r', '\U{1C}', '\U{1D}', '\U{1E}', '\U{1F}', ' '}
  {
  }

  predicate IsUpper(c: char) {
    'A' <= c <= 'Z'
  }

  /** `str.lower()` on one ASCII character. */
  function LowerChar(c: char): (r: char)
    ensures !IsUpper(r)
    ensures IsSpace(r) <==> IsSpace(c)
    ensures !IsUpper(c) ==> r == c
    ensures IsUpper(c) ==> r as int == c as int + 32
  {
    if IsUpper(c) then (c as int - 'A' as int + 'a' as int) as char else c
  }

  predicate NoUpper(s: string) {
    forall i :: 0 <= i < |s| ==> !IsUpper(s[i])
  }

  predicate AllSpace(s: string) {
    forall i :: 0 <= i < |s| ==> IsSpace(s[i])
  }

  predicate NoSpace(s: string) {
    forall i :: 0 <= i < |s| ==> !IsSpace(s[i])
  }

  /** An element of the list `str.split()` returns: a non-empty run without whitespace. */
  predicate IsWord(w: string) {
    |w| > 0 && NoSpace(w)
  }

  /** What `" ".join(s.split())` guarantees: every whitespace character is a plain space
      with a non-whitespace character on either side. So there is no leading, trailing or
      doubled whitespace. */
  predicate Collapsed(s: string) {
    forall i :: 0 <= i < |s| && IsSpace(s[i]) ==>
      s[i] == ' ' && 0 < i < |s| - 1 && !IsSpace(s[i - 1]) && !IsSpace(s[i + 1])
  }

  /** `str.lower()`. */
  function Lower(s: string): (r: string)
    ensures |r| == |s| && NoUpper(r)
    ensures forall i :: 0 <= i < |s| ==> r[i] == LowerChar(s[i])
  {
    seq(|s|, i requires 0 <= i < |s| => LowerChar(s[i]))
  }

  /** `str.lstrip()`: the suffix left after removing every leading whitespace character. */
  function TrimStart(s: string): (r: string)
    ensures |r| <= |s| && r == s[|s| - |r|..]
    ensures AllSpace(s[..|s| - |r|])
    ensures r == [] || !IsSpace(r[0])
    decreases |s|
  {
    if s != [] && IsSpace(s[0]) then
      var r := TrimStart(s[1..]);
      assert s[..|s| - |r|] == [s[0]] + s[1..][..|s| - 1 - |r|];
      AllSpaceCons(s[0], s[1..][..|s| - 1 - |r|]);
      r
    else s
  }

  /** `str.rstrip()`: the prefix left after removing every trailing whitespace character. */
  function TrimEnd(s: string): (r: string)
    ensures |r| <= |s| && r == s[..|r|]
    ensures AllSpace(s[|r|..])
    ensures r == [] || !IsSpace(r[|r| - 1])
    decreases |s|
  {
    if s != [] && IsSpace(s[|s| - 1]) then
      var r := TrimEnd(s[..|s| - 1]);
      assert s[|r|..] == s[..|s| - 1][|r|..] + [s[|s| - 1]];
      AllSpaceSnoc(s[..|s| - 1][|r|..], s[|s| - 1]);
      r
    else s
  }

  lemma AllSpaceCons(c: char, x: string)
    requires IsSpace(c) && AllSpace(x)
    ensures AllSpace([c] + x)
  {
    forall i | 0 <= i < |[c] + x| ensures IsSpace(([c] + x)[i]) {
      if i > 0 { assert ([c] + x)[i] == x[i - 1]; }
    }
  }

  lemma AllSpaceSnoc(x: string, c: char)
    requires AllSpace(x) && IsSpace(c)
    ensures AllSpace(x + [c])
  {
    forall i | 0 <= i < |x + [c]| ensures IsSpace((x + [c])[i]) {
      if i < |x| { assert (x + [c])[i] == x[i]; }
    }
  }

  /** `str.strip()`. */
  function Strip(s: string): (r: string)
    ensures |r| <= |s|
    ensures r == [] || (!IsSpace(r[0]) && !IsSpace(r[|r| - 1]))
    ensures r == [] <==> AllSpace(s)
    ensures exists i :: 0 <= i <= |s| - |r| && r == s[i..][..|r|] && AllSpace(s[..i]) && AllSpace(s[i..][|r|..])
  {
    var t := TrimStart(s);
    var r := TrimEnd(t);
    assert s[|s| - |t|..] == t;
    assert r == [] ==> AllSpace(t) by {
      if r == [] { assert t[|r|..] == t; }
    }
    assert r == [] ==> AllSpace(s) by {
      if r == [] {
        assert s == s[..|s| - |t|] + t;
      }
    }
    assert r != [] ==> !IsSpace(r[0]) by {
      if r != [] {
        assert r[0] == t[0];
      }
    }
    r
  }

  /** The length of the longest prefix of `s` without whitespace. */
  function WordLen(s: string): (n: nat)
    ensures n <= |s|
    ensures NoSpace(s[..n])
    ensures n < |s| ==> IsSpace(s[n])
    ensures s != [] && !IsSpace(s[0]) ==> n > 0
  {
    if s == [] || IsSpace(s[0]) then 0 else 1 + WordLen(s[1..])
  }

  /** `str.split()` with no separator: the maximal runs of non-whitespace characters,
      in order. */
  function Split(s: string): (ws: seq<string>)
    ensures forall k :: 0 <= k < |ws| ==> IsWord(ws[k])
    decreases |s|
  {
    if s == [] then []
    else if IsSpace(s[0]) then Split(s[1..])
    else
      var n := WordLen(s);
      [s[..n]] + Split(s[n..])
  }

  /** `" ".join(ws)`: the words with one space between neighbours, starting with the
      first word. */
  function Join(ws: seq<string>): (s: string)
    ensures ws != [] ==> ws[0] <= s
  {
    if ws == [] then ""
    else if |ws| == 1 then ws[0]
    else ws[0] + " " + Join(ws[1..])
  }

  /** The number of characters in all the strings of `ws` together. */
  function TotalLength(ws: seq<string>): nat {
    if ws == [] then 0 else |ws[0]| + TotalLength(ws[1..])
  }

  /** A join is as long as its words together plus one space per gap. */
  lemma {:induction false} JoinLength(ws: seq<string>)
    ensures |Join(ws)| == if ws == [] then 0 else TotalLength(ws) + |ws| - 1
  {
    if |ws| > 1 {
      JoinLength(ws[1..]);
    }
  }

  /** Python's `sub in s`: `sub` occurs in `s` as a contiguous substring. */
  predicate Contains(s: string, sub: string)
    ensures sub == [] ==> Contains(s, sub)
    ensures Contains(s, sub) ==> |sub| <= |s|
    decreases |s|
  {
    sub <= s || (s != [] && Contains(s[1..], sub))
  }

  /** An occurrence of `sub` at position `k` makes `sub in s` true. */
  lemma {:induction false} ContainsAt(s: string, sub: string, k: nat)
    requires k <= |s| && sub <= s[k..]
    ensures Contains(s, sub)
    decreases k
  {
    if k == 0 {
      assert s[k..] == s;
    } else {
      assert s[k..] == s[1..][k - 1..];
      ContainsAt(s[1..], sub, k - 1);
    }
  }

  /** `sub in s` yields a position where `sub` occurs. */
  lemma {:induction false} OccurrenceOf(s: string, sub: string) returns (k: nat)
    requires Contains(s, sub)
    ensures k <= |s| && sub <= s[k..]
    decreases |s|
  {
    if sub <= s {
      k := 0;
      assert s[k..] == s;
    } else {
      var k' := OccurrenceOf(s[1..], sub);
      k := k' + 1;
      assert s[1..][k'..] == s[k..];
    }
  }

  /** A non-empty `sub` whose first character does not occur in `s` is not in `s`. */
  lemma {:induction false} MissesAbsentFirstChar(s: string, sub: string)
    requires sub != []
    requires forall i :: 0 <= i < |s| ==> s[i] != sub[0]
    ensures !Contains(s, sub)
    decreases |s|
  {
    if s != [] {
      assert s[0] != sub[0];
      assert !(sub <= s);
      MissesAbsentFirstChar(s[1..], sub);
    }
  }

  /** The recursive substring test agrees with the direct definition: `sub` is a prefix of
      some suffix of `s`. */
  lemma ContainsIffOccurs(s: string, sub: string)
    ensures Contains(s, sub) <==> exists k :: 0 <= k <= |s| && sub <= s[k..]
  {
    if Contains(s, sub) {
      var k := OccurrenceOf(s, sub);
    }
    if exists k :: 0 <= k <= |s| && sub <= s[k..] {
      var k :| 0 <= k <= |s| && sub <= s[k..];
      ContainsAt(s, sub, k);
    }
  }

  // ---------------------------------------------------------------------------
  // Facts about Lower and Strip
  // ---------------------------------------------------------------------------

  /** Lowering a string that has no upper-case letter changes nothing. */
  lemma LowerOfNoUpper(s: string)
    requires NoUpper(s)
    ensures Lower(s) == s
  {
  }

  /** Lowering neither creates nor removes whitespace. */
  lemma AllSpaceLower(s: string)
    ensures AllSpace(Lower(s)) <==> AllSpace(s)
  {
    if AllSpace(Lower(s)) {
      forall i | 0 <= i < |s| ensures IsSpace(s[i]) {
        assert IsSpace(Lower(s)[i]);
      }
    }
  }

  /** A text is all whitespace exactly when its stripped form is. */
  lemma StripAllSpace(s: string)
    ensures AllSpace(Strip(s)) <==> AllSpace(s)
  {
    var r := Strip(s);
    if !AllSpace(s) {
      assert !IsSpace(r[0]);
    }
  }

  /** The whitespace facts a collapsed text satisfies, stated one by one. */
  lemma CollapsedEdges(r: string)
    requires Collapsed(r)
    ensures r == [] || (!IsSpace(r[0]) && !IsSpace(r[|r| - 1]))
    ensures forall i :: 0 < i < |r| ==> !IsSpace(r[i - 1]) || !IsSpace(r[i])
  {
  }

  /** Lowering and trimming commute, since lowering never creates or removes whitespace. */
  lemma {:induction false} TrimStartLower(s: string)
    ensures TrimStart(Lower(s)) == Lower(TrimStart(s))
    decreases |s|
  {
    if s != [] && IsSpace(s[0]) {
      assert Lower(s)[1..] == Lower(s[1..]);
      TrimStartLower(s[1..]);
    }
  }

  lemma {:induction false} TrimEndLower(s: string)
    ensures TrimEnd(Lower(s)) == Lower(TrimEnd(s))
    decreases |s|
  {
    if s != [] && IsSpace(s[|s| - 1]) {
      assert Lower(s)[..|s| - 1] == Lower(s[..|s| - 1]);
      TrimEndLower(s[..|s| - 1]);
    }
  }

  lemma StripLower(s: string)
    ensures Strip(Lower(s)) == Lower(Strip(s))
  {
    TrimStartLower(s);
    TrimEndLower(TrimStart(s));
  }

  // ---------------------------------------------------------------------------
  // Facts about Split and Join
  // ---------------------------------------------------------------------------

  /** A leading whitespace character does not change the split. */
  lemma SplitSpaceCons(c: char, t: string)
    requires IsSpace(c)
    ensures Split([c] + t) == Split(t)
  {
    assert ([c] + t)[1..] == t;
  }

  /** `s.split()` is empty exactly when `s` is all whitespace. */
  lemma {:induction false} SplitEmptyIffAllSpace(s: string)
    ensures Split(s) == [] <==> AllSpace(s)
    decreases |s|
  {
    if s != [] && IsSpace(s[0]) {
      SplitEmptyIffAllSpace(s[1..]);
      assert AllSpace(s) <==> AllSpace(s[1..]) by {
        if AllSpace(s[1..]) {
          forall i | 0 <= i < |s| ensures IsSpace(s[i]) {
            if i > 0 { assert s[i] == s[1..][i - 1]; }
          }
        }
      }
    }
  }

  /** A run without whitespace followed by whitespace or by nothing is read as one word. */
  lemma {:induction false} WordLenOfWord(w: string, t: string)
    requires NoSpace(w)
    requires t == [] || IsSpace(t[0])
    ensures WordLen(w + t) == |w|
    decreases |w|
  {
    if w == [] {
      assert w + t == t;
    } else {
      assert (w + t)[1..] == w[1..] + t;
      WordLenOfWord(w[1..], t);
    }
  }

  lemma SplitOfWord(w: string)
    requires IsWord(w)
    ensures Split(w) == [w]
  {
    WordLenOfWord(w, []);
    assert w + [] == w;
  }

  /** Splitting undoes joining: `(" ".join(ws)).split() == ws` for a list of words. */
  lemma {:induction false} SplitJoin(ws: seq<string>)
    requires forall k :: 0 <= k < |ws| ==> IsWord(ws[k])
    ensures Split(Join(ws)) == ws
    decreases |ws|
  {
    if |ws| == 1 {
      SplitOfWord(ws[0]);
    } else if |ws| > 1 {
      var w, j := ws[0], Join(ws[1..]);
      assert Join(ws) == w + ([' '] + j);
      SplitWordSpace(w, ' ', j);
      SplitJoin(ws[1..]);
    }
  }

  /** A word followed by any whitespace character splits into that word and the split of
      the rest: `split()` cuts at tabs, line feeds and the other separators as well as at
      plain spaces. */
  lemma SplitWordSpace(w: string, c: char, t: string)
    requires IsWord(w) && IsSpace(c)
    ensures Split(w + ([c] + t)) == [w] + Split(t)
  {
    var s := w + ([c] + t);
    WordLenOfWord(w, [c] + t);
    assert s[..|w|] == w;
    assert s[|w|..] == [c] + t;
    SplitSpaceCons(c, t);
  }

  /** Joining a list of words with single spaces gives a collapsed string, empty exactly
      when the list is. */
  lemma {:induction false} JoinCollapsed(ws: seq<string>)
    requires forall k :: 0 <= k < |ws| ==> IsWord(ws[k])
    ensures Collapsed(Join(ws))
    ensures Join(ws) == [] <==> ws == []
    decreases |ws|
  {
    if |ws| == 1 {
      assert Join(ws) == ws[0];
    } else if |ws| > 1 {
      var w, j := ws[0], Join(ws[1..]);
      JoinCollapsed(ws[1..]);
      var s := w + [' '] + j;
      assert Join(ws) == s;
      assert !IsSpace(j[0]);
      assert !IsSpace(j[|j| - 1]);
      assert forall i :: 0 <= i < |w| ==> s[i] == w[i];
      forall i | 0 <= i < |s| && IsSpace(s[i])
        ensures s[i] == ' ' && 0 < i < |s| - 1 && !IsSpace(s[i - 1]) && !IsSpace(s[i + 1])
      {
        if i < |w| {
          assert false;
        } else if i > |w| {
          var k := i - |w| - 1;
          assert s[i] == j[k];
          assert 0 < k < |j| - 1;
          assert s[i - 1] == j[k - 1] && s[i + 1] == j[k + 1];
        } else {
          assert s[i - 1] == w[|w| - 1];
          assert s[i + 1] == j[0];
        }
      }
    }
  }

  /** A suffix of a collapsed string that starts just after one of its spaces is collapsed. */
  lemma CollapsedAfterSpace(s: string, n: nat)
    requires Collapsed(s) && n < |s| && IsSpace(s[n])
    ensures Collapsed(s[n + 1..])
  {
    var t := s[n + 1..];
    forall i | 0 <= i < |t| && IsSpace(t[i])
      ensures t[i] == ' ' && 0 < i < |t| - 1 && !IsSpace(t[i - 1]) && !IsSpace(t[i + 1])
    {
      assert t[i] == s[n + 1 + i];
      assert i != 0;
      assert t[i - 1] == s[n + i] && t[i + 1] == s[n + 2 + i];
    }
  }

  /** Joining a word in front of a non-empty list puts one space after it. */
  lemma JoinCons(w: string, ws: seq<string>)
    requires ws != []
    ensures Join([w] + ws) == w + ([' '] + Join(ws))
  {
    assert ([w] + ws)[1..] == ws;
    assert w + " " + Join(ws) == w + ([' '] + Join(ws));
  }

  /** Joining undoes splitting on a collapsed string: `" ".join(s.split()) == s`. */
  lemma {:induction false} JoinSplit(s: string)
    requires Collapsed(s)
    ensures Join(Split(s)) == s
    decreases |s|
  {
    if s != [] {
      assert !IsSpace(s[0]);
      var n := WordLen(s);
      var w := s[..n];
      if n == |s| {
        assert s[n..] == [];
        assert Split(s) == [w];
        assert w == s;
      } else {
        var t := s[n + 1..];
        assert s[n] == ' ' && n < |s| - 1 && !IsSpace(s[n + 1]);
        assert s == w + ([' '] + t) by {
          assert s == s[..n] + s[n..];
          assert s[n..] == [s[n]] + t;
        }
        assert Split(s) == [w] + Split(t) by {
          assert IsWord(w);
          SplitWordSpace(w, ' ', t);
        }
        assert Split(t) != [] by {
          assert !AllSpace(t) by { assert !IsSpace(t[0]); }
          SplitEmptyIffAllSpace(t);
        }
        CollapsedAfterSpace(s, n);
        JoinSplit(t);
        JoinCons(w, Split(t));
        assert Join(Split(s)) == w + ([' '] + t);
      }
    }
  }

  /** Leading whitespace does not change the split. */
  lemma {:induction false} SplitTrimStart(s: string)
    ensures Split(TrimStart(s)) == Split(s)
    decreases |s|
  {
    if s != [] && IsSpace(s[0]) {
      SplitTrimStart(s[1..]);
    }
  }

  lemma {:induction false} WordLenSpaceSnoc(x: string, c: char)
    requires IsSpace(c)
    ensures WordLen(x + [c]) == WordLen(x)
    decreases |x|
  {
    if x == [] {
      assert x + [c] == [c];
    } else {
      assert (x + [c])[1..] == x[1..] + [c];
      WordLenSpaceSnoc(x[1..], c);
    }
  }

  /** A trailing whitespace character does not change the split. */
  lemma {:induction false} SplitSpaceSnoc(x: string, c: char)
    requires IsSpace(c)
    ensures Split(x + [c]) == Split(x)
    decreases |x|
  {
    var s := x + [c];
    if x == [] {
      assert s[1..] == [];
    } else if IsSpace(x[0]) {
      assert s[1..] == x[1..] + [c];
      SplitSpaceSnoc(x[1..], c);
    } else {
      var n := WordLen(x);
      WordLenSpaceSnoc(x, c);
      assert s[..n] == x[..n];
      assert s[n..] == x[n..] + [c];
      SplitSpaceSnoc(x[n..], c);
    }
  }

  /** Trailing whitespace does not change the split. */
  lemma {:induction false} SplitTrimEnd(s: string)
    ensures Split(TrimEnd(s)) == Split(s)
    decreases |s|
  {
    if s != [] && IsSpace(s[|s| - 1]) {
      assert s == s[..|s| - 1] + [s[|s| - 1]];
      SplitSpaceSnoc(s[..|s| - 1], s[|s| - 1]);
      SplitTrimEnd(s[..|s| - 1]);
    }
  }

  /** `s.strip().split() == s.split()`. */
  lemma SplitStrip(s: string)
    ensures Split(Strip(s)) == Split(s)
  {
    SplitTrimStart(s);
    SplitTrimEnd(TrimStart(s));
  }

  /** The words of a string without upper-case letters have none either. */
  lemma {:induction false} SplitNoUpper(s: string)
    requires NoUpper(s)
    ensures forall k :: 0 <= k < |Split(s)| ==> NoUpper(Split(s)[k])
    decreases |s|
  {
    if s != [] {
      if IsSpace(s[0]) {
        SplitNoUpper(s[1..]);
      } else {
        SplitNoUpper(s[WordLen(s)..]);
      }
    }
  }

  lemma {:induction false} JoinNoUpper(ws: seq<string>)
    requires forall k :: 0 <= k < |ws| ==> NoUpper(ws[k])
    ensures NoUpper(Join(ws))
    decreases |ws|
  {
    if |ws| > 1 {
      JoinNoUpper(ws[1..]);
      var s := ws[0] + " " + Join(ws[1..]);
      forall i | 0 <= i < |s| ensures !IsUpper(s[i]) {
        if i > |ws[0]| {
          assert s[i] == Join(ws[1..])[i - |ws[0]| - 1];
        }
      }
    }
  }

  /** What `" ".join(s.split())` computes: a collapsed string with the same words as `s`,
      empty exactly when `s` is all whitespace, and free of upper-case letters when `s` is. */
  lemma CollapseWhitespace(s: string)
    ensures Collapsed(Join(Split(s)))
    ensures Split(Join(Split(s))) == Split(s)
    ensures Join(Split(s)) == [] <==> AllSpace(s)
    ensures NoUpper(s) ==> NoUpper(Join(Split(s)))
  {
    JoinCollapsed(Split(s));
    SplitJoin(Split(s));
    SplitEmptyIffAllSpace(s);
    if NoUpper(s) {
      SplitNoUpper(s);
      JoinNoUpper(Split(s));
    }
  }

  /** What `" ".join(s.strip().split())` computes, stated for the normalisation functions:
      a collapsed text (no leading, trailing or doubled whitespace) with the words of `s`,
      empty exactly when `s` is all whitespace, without upper-case letters when `s` has
      none. */
  lemma StripCollapse(s: string)
    ensures Collapsed(Join(Split(Strip(s))))
    ensures Join(Split(Strip(s))) == [] ||
              (!IsSpace(Join(Split(Strip(s)))[0]) && !IsSpace(Join(Split(Strip(s)))[|Join(Split(Strip(s)))| - 1]))
    ensures forall i :: 0 < i < |Join(Split(Strip(s)))| ==>
              !IsSpace(Join(Split(Strip(s)))[i - 1]) || !IsSpace(Join(Split(Strip(s)))[i])
    ensures Split(Join(Split(Strip(s)))) == Split(s)
    ensures Join(Split(Strip(s))) == [] <==> AllSpace(s)
    ensures NoUpper(s) ==> NoUpper(Join(Split(Strip(s))))
  {
    var t := Strip(s);
    SplitStrip(s);
    CollapseWhitespace(t);
    StripAllSpace(s);
    CollapsedEdges(Join(Split(t)));
    if NoUpper(s) {
      NoUpperStrip(s);
    }
  }

  /** Stripping removes characters only, so it keeps a text free of upper-case letters. */
  lemma NoUpperStrip(s: string)
    requires NoUpper(s)
    ensures NoUpper(Strip(s))
  {
    var t := TrimStart(s);
    assert NoUpper(t) by {
      forall i | 0 <= i < |t| ensures !IsUpper(t[i]) {
        assert t[i] == s[|s| - |t| + i];
      }
    }
  }
}
