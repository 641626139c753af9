/** Substring search with Python's `str.find` / `in` semantics on `seq<char>`. */
module TextSearch {
  import opened Common

  /** `pat` occurs in `s` starting at index `k`. */
  predicate OccursAt(s: string, pat: string, k: nat) {
    k + |pat| <= |s| && s[k..k + |pat|] == pat
  }

  /** Python's `pat in s`. */
  ghost predicate Contains(s: string, pat: string) {
    exists k: nat :: OccursAt(s, pat, k)
  }

  /** `k` is the first index at which `pat` occurs in `s`. */
  ghost predicate FirstOccurrence(s: string, pat: string, k: nat) {
    OccursAt(s, pat, k) && forall j: nat :: j < k ==> !OccursAt(s, pat, j)
  }

  function FindFrom(s: string, pat: string, i: nat): (r: Option<nat>)
    requires i <= |s|
    ensures r.Some? ==> i <= r.value && OccursAt(s, pat, r.value)
    ensures r.Some? ==> forall j: nat :: i <= j < r.value ==> !OccursAt(s, pat, j)
    ensures r.None? ==> forall j: nat :: i <= j ==> !OccursAt(s, pat, j)
    decreases |s| - i
  {
    if i + |pat| > |s| then None
    else if s[i..i + |pat|] == pat then Some(i)
    else FindFrom(s, pat, i + 1)
  }

  /** Python's `s.find(pat)` with -1 rendered as `None`. */
  function Find(s: string, pat: string): (r: Option<nat>)
    ensures r.Some? ==> FirstOccurrence(s, pat, r.value)
    ensures r.None? <==> !Contains(s, pat)
  {
    FindFrom(s, pat, 0)
  }

  /** Python's `s.find(pat)` exactly: the first index, or -1. */
  function IndexOf(s: string, pat: string): (r: int)
    ensures r == -1 <==> !Contains(s, pat)
    ensures r != -1 ==> 0 <= r && FirstOccurrence(s, pat, r)
  {
    match Find(s, pat)
    case None => -1
    case Some(k) => k
  }

  /** Python's `pat in s`, computed. */
  predicate ContainsText(s: string, pat: string)
    ensures ContainsText(s, pat) <==> Contains(s, pat)
  {
    Find(s, pat).Some?
  }

  /** An occurrence inside a middle piece is an occurrence of the whole. */
  lemma OccursInConcat(a: string, m: string, b: string, pat: string, k: nat)
    requires OccursAt(m, pat, k)
    ensures OccursAt(a + m + b, pat, |a| + k)
  {
    var s := a + m + b;
    assert s[|a| + k..|a| + k + |pat|] == m[k..k + |pat|];
  }

  /** Two texts that agree on their first `n` characters agree on every occurrence ending by `n`. */
  lemma OccursAtSharedPrefix(s: string, t: string, pat: string, n: nat, k: nat)
    requires n <= |s| && n <= |t| && s[..n] == t[..n]
    requires k + |pat| <= n
    ensures OccursAt(s, pat, k) <==> OccursAt(t, pat, k)
  {
    assert s[k..k + |pat|] == s[..n][k..k + |pat|];
    assert t[k..k + |pat|] == t[..n][k..k + |pat|];
  }

  /** A first occurrence stays first in any text sharing the prefix up to its end. */
  lemma FirstOccurrenceShared(s: string, t: string, pat: string, k: nat)
    requires FirstOccurrence(s, pat, k)
    requires k + |pat| <= |t| && s[..k + |pat|] == t[..k + |pat|]
    ensures FirstOccurrence(t, pat, k)
  {
    var n := k + |pat|;
    OccursAtSharedPrefix(s, t, pat, n, k);
    forall j: nat | j < k
      ensures !OccursAt(t, pat, j)
    {
      OccursAtSharedPrefix(s, t, pat, n, j);
    }
  }

  lemma FirstOccurrenceUnique(s: string, pat: string, a: nat, b: nat)
    requires FirstOccurrence(s, pat, a) && FirstOccurrence(s, pat, b)
    ensures a == b
  {
  }
}
