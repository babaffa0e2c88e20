/** Where a piece of text stands in a longer one. */
module Text {

  /** pat occurs in s at position k. */
  predicate At(s: string, k: nat, pat: string) {
    k + |pat| <= |s| && s[k..k + |pat|] == pat
  }

  lemma {:induction false} AtIndex(s: string, k: nat, pat: string, i: nat)
    requires At(s, k, pat) && i < |pat|
    ensures s[k + i] == pat[i]
  {
    assert s[k..k + |pat|][i] == s[k + i];
  }

  lemma {:induction false} AtSplit(s: string, k: nat, a: string, b: string)
    requires At(s, k, a + b)
    ensures At(s, k, a) && At(s, k + |a|, b)
  {
    var whole := s[k..k + |a + b|];
    assert whole[..|a|] == s[k..k + |a|];
    assert whole[|a|..] == s[k + |a|..k + |a| + |b|];
    assert (a + b)[..|a|] == a && (a + b)[|a|..] == b;
  }

  lemma {:induction false} AtShift(s: string, n: nat, k: nat, pat: string)
    requires n <= |s|
    ensures At(s[n..], k, pat) <==> At(s, n + k, pat)
  {
    if n + k + |pat| <= |s| {
      assert s[n..][k..k + |pat|] == s[n + k..n + k + |pat|];
    }
  }

  lemma {:induction false} AtEnd(s: string, k: nat, pat: string)
    requires At(s, k, pat) && k + |pat| == |s|
    ensures s[k..] == pat
  {
  }
}
