/** Stable sub-sequences: what a `filter` or `filterIsInstance` keeps of a list. */
module Subsequences {

  /**
   * `s` can be obtained from `t` by deleting elements, without reordering
   * the ones that remain.
   */
  ghost predicate IsSubsequence<X>(s: seq<X>, t: seq<X>)
    decreases |t|
  {
    && |s| <= |t|
    && (|s| == 0
        || (s[0] == t[0] && IsSubsequence(s[1..], t[1..]))
        || IsSubsequence(s, t[1..]))
  }

  /** Every list is a sub-sequence of itself. */
  lemma {:induction false} SubsequenceReflexive<X>(s: seq<X>)
    ensures IsSubsequence(s, s)
    decreases |s|
  {
    if |s| > 0 {
      SubsequenceReflexive(s[1..]);
    }
  }

  /** Filtering a filtered list keeps the catalogue order: sub-sequences compose. */
  lemma {:induction false} SubsequenceTransitive<X>(a: seq<X>, b: seq<X>, c: seq<X>)
    requires IsSubsequence(a, b) && IsSubsequence(b, c)
    ensures IsSubsequence(a, c)
    decreases |c|
  {
    if |a| == 0 {
    } else if b[0] == c[0] && IsSubsequence(b[1..], c[1..]) {
      if a[0] == b[0] && IsSubsequence(a[1..], b[1..]) {
        SubsequenceTransitive(a[1..], b[1..], c[1..]);
      } else {
        SubsequenceTransitive(a, b[1..], c[1..]);
      }
    } else {
      SubsequenceTransitive(a, b, c[1..]);
    }
  }

  /** Members of a sub-sequence are members of the whole. */
  lemma {:induction false} SubsequenceMembers<X>(s: seq<X>, t: seq<X>)
    requires IsSubsequence(s, t)
    ensures forall x :: x in s ==> x in t
    decreases |t|
  {
    if |s| == 0 {
    } else if s[0] == t[0] && IsSubsequence(s[1..], t[1..]) {
      SubsequenceMembers(s[1..], t[1..]);
      assert s == [s[0]] + s[1..];
    } else {
      SubsequenceMembers(s, t[1..]);
    }
  }
}
