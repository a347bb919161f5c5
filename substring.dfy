/** Substring search on strings, as Python's `pat in s` does it. */
module Substring {

  /** `pat` occurs in `s` starting at index `k`. */
  predicate OccursAt(s: string, pat: string, k: int) {
    0 <= k && k + |pat| <= |s| && s[k..k + |pat|] == pat
  }

  /** Python's `pat in s`: `pat` occurs somewhere in `s` (the empty pattern always does). */
  predicate Contains(s: string, pat: string) {
    exists k | 0 <= k <= |s| :: OccursAt(s, pat, k)
  }

  /** An occurrence in a part is an occurrence in the whole. */
  lemma ContainsInConcat(a: string, b: string, pat: string)
    ensures Contains(a, pat) ==> Contains(a + b, pat)
    ensures Contains(b, pat) ==> Contains(a + b, pat)
  {
    if Contains(a, pat) {
      var k :| 0 <= k <= |a| && OccursAt(a, pat, k);
      assert (a + b)[k..k + |pat|] == a[k..k + |pat|];
      assert OccursAt(a + b, pat, k);
    }
    if Contains(b, pat) {
      var k :| 0 <= k <= |b| && OccursAt(b, pat, k);
      assert (a + b)[|a| + k..|a| + k + |pat|] == b[k..k + |pat|];
      assert OccursAt(a + b, pat, |a| + k);
    }
  }
}
