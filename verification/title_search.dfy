/** The title filter of `search_posts`, `RegEx(Post.title, query, "i")`,
    for literal queries: a case-insensitive substring match. Case folding is
    the ASCII one. */
module TitleSearch {

  /** `a` and `b` are one character up to ASCII letter case: equal, or an
      upper-case letter and the lower-case letter 32 code points above it. */
  predicate SameUpToCase(a: char, b: char) {
    || a == b
    || ('A' <= a <= 'Z' && b as int == a as int + 32)
    || ('A' <= b <= 'Z' && a as int == b as int + 32)
  }

  /** Lower-cases an ASCII letter and keeps every other character: the
      result is the same character up to case, and never upper-case. */
  function FoldChar(c: char): (r: char)
    ensures SameUpToCase(c, r) && !('A' <= r <= 'Z')
  {
    if 'A' <= c <= 'Z' then (c as int + ('a' as int - 'A' as int)) as char else c
  }

  /** Two characters fold alike exactly when they are one character up to
      case. */
  lemma FoldCharSame(a: char, b: char)
    ensures FoldChar(a) == FoldChar(b) <==> SameUpToCase(a, b)
  {
  }

  /** Lower-cases every ASCII letter of `s`. */
  function Fold(s: string): (r: string)
    ensures |r| == |s|
    ensures forall i :: 0 <= i < |s| ==> r[i] == FoldChar(s[i])
  {
    seq(|s|, i requires 0 <= i < |s| => FoldChar(s[i]))
  }

  /** Two strings fold alike exactly when they have the same length and
      agree position by position up to letter case. */
  lemma FoldSame(x: string, y: string)
    ensures Fold(x) == Fold(y) <==> |x| == |y| && forall k :: 0 <= k < |x| ==> SameUpToCase(x[k], y[k])
  {
    if |x| == |y| {
      forall k | 0 <= k < |x| ensures Fold(x)[k] == Fold(y)[k] <==> SameUpToCase(x[k], y[k]) {
        FoldCharSame(x[k], y[k]);
      }
    }
  }

  /** `q` occurs in `s` starting at index `i`. */
  predicate OccursAt(s: string, q: string, i: int) {
    0 <= i && i + |q| <= |s| && s[i..i + |q|] == q
  }

  /** Scans `s` left to right for an occurrence of `q`. */
  function Contains(s: string, q: string): (b: bool)
    ensures b <==> exists i :: OccursAt(s, q, i)
    decreases |s|
  {
    if |q| > |s| then
      assert forall i :: !OccursAt(s, q, i);
      false
    else if s[..|q|] == q then
      assert OccursAt(s, q, 0);
      true
    else
      var rest := Contains(s[1..], q);
      ShiftOccurrence(s, q);
      rest
  }

  lemma ShiftOccurrence(s: string, q: string)
    requires |s| >= |q| && s[..|q|] != q
    ensures (exists i :: OccursAt(s, q, i)) <==> (exists i :: OccursAt(s[1..], q, i))
  {
    if exists i :: OccursAt(s, q, i) {
      var i :| OccursAt(s, q, i);
      assert i >= 1;
      assert s[1..][i - 1..i - 1 + |q|] == s[i..i + |q|];
      assert OccursAt(s[1..], q, i - 1);
    }
    if exists i :: OccursAt(s[1..], q, i) {
      var i :| OccursAt(s[1..], q, i);
      assert s[1..][i..i + |q|] == s[i + 1..i + 1 + |q|];
      assert OccursAt(s, q, i + 1);
    }
  }

  /** Folding commutes with slicing. */
  lemma FoldSlice(s: string, i: int, j: int)
    requires 0 <= i <= j <= |s|
    ensures Fold(s)[i..j] == Fold(s[i..j])
  {
    var f, t := Fold(s), s[i..j];
    var a, b := f[i..j], Fold(t);
    assert |a| == |b| == j - i;
    forall k | 0 <= k < j - i ensures a[k] == b[k] {
      assert a[k] == f[i + k] == FoldChar(s[i + k]);
      assert t[k] == s[i + k];
    }
    assert a == b;
  }

  /** The title's characters from index `i` on spell the query up to
      letter case. */
  predicate MatchesAt(title: string, query: string, i: int) {
    0 <= i && i + |query| <= |title| && forall k :: 0 <= k < |query| ==> SameUpToCase(title[i + k], query[k])
  }

  /** Matching at `i` is an occurrence of the folded query in the folded
      title at `i`. */
  lemma MatchesAtFolded(title: string, query: string, i: int)
    ensures MatchesAt(title, query, i) <==> OccursAt(Fold(title), Fold(query), i)
  {
    if 0 <= i && i + |query| <= |title| {
      var t := title[i..i + |query|];
      FoldSlice(title, i, i + |query|);
      FoldSame(t, query);
      assert forall k :: 0 <= k < |query| ==> t[k] == title[i + k];
    }
  }

  /** The title filter: the case-folded query occurs in the case-folded
      title, that is, some stretch of the title spells the query up to
      letter case. */
  function Matches(title: string, query: string): (b: bool)
    ensures b <==> exists i :: MatchesAt(title, query, i)
  {
    var b := Contains(Fold(title), Fold(query));
    assert b <==> exists i :: MatchesAt(title, query, i) by {
      forall i ensures OccursAt(Fold(title), Fold(query), i) <==> MatchesAt(title, query, i) {
        MatchesAtFolded(title, query, i);
      }
    }
    b
  }

  /** A literal occurrence of the query matches, and so does any spelling of
      the query that differs only in letter case. */
  lemma MatchIgnoresCase(title: string, query: string, other: string, i: int)
    requires OccursAt(title, query, i)
    requires |other| == |query| && forall k :: 0 <= k < |query| ==> SameUpToCase(query[k], other[k])
    ensures Matches(title, query) && Matches(title, other)
  {
    forall k | 0 <= k < |query| ensures title[i + k] == query[k] {
      assert title[i..i + |query|][k] == title[i + k];
    }
    assert MatchesAt(title, query, i);
    assert MatchesAt(title, other, i);
  }

  /** The empty query matches every title, as the empty pattern does. */
  lemma EmptyQueryMatches(title: string)
    ensures Matches(title, "")
  {
    assert MatchesAt(title, "", 0);
  }
}
