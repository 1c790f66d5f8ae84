/** The two string queries the check uses: .NET `String.Contains` (ordinal,
    case-sensitive) and a suffix test used to state properties. */
module Strings {

  /** `w` occurs in `s` starting at position `k`. */
  predicate OccursAt(s: string, w: string, k: int) {
    0 <= k <= |s| - |w| && s[k..k + |w|] == w
  }

  /** `w` occurs in `s` at some position, compared character by character. */
  predicate Contains(s: string, w: string) {
    exists k | 0 <= k <= |s| - |w| :: OccursAt(s, w, k)
  }

  predicate EndsWith(s: string, w: string) {
    |w| <= |s| && s[|s| - |w|..] == w
  }

  /** If `s` has no `c` at all, no word containing `c` occurs in it. */
  lemma AbsentCharNotContained(s: string, w: string, i: nat, c: char)
    requires i < |w| && w[i] == c
    requires forall j :: 0 <= j < |s| ==> s[j] != c
    ensures !Contains(s, w)
  {
    forall k | 0 <= k <= |s| - |w|
      ensures !OccursAt(s, w, k)
    {
      assert s[k..k + |w|][i] == s[k + i];
    }
  }

  /** An occurrence that starts inside `b` is an occurrence in `b`. */
  lemma OccurrenceInSuffix(a: string, b: string, w: string, k: int)
    requires OccursAt(a + b, w, k) && k >= |a|
    ensures OccursAt(b, w, k - |a|)
  {
    assert (a + b)[k..k + |w|] == b[k - |a|..k - |a| + |w|];
  }

  /** An occurrence that straddles the join of `a` and `b` contains `b[0]`. */
  lemma OccurrenceAcrossJoin(a: string, b: string, w: string, k: int)
    requires OccursAt(a + b, w, k) && 0 < |b| && k < |a| < k + |w|
    ensures b[0] in w
  {
    assert w[|a| - k] == (a + b)[k..k + |w|][|a| - k] == (a + b)[|a|] == b[0];
  }

  /** Appending a part `b` that starts with a character absent from `w`
      and that does not itself contain `w` cannot create an occurrence
      of `w`: `w` occurs in `a + b` exactly when it occurs in `a`. */
  lemma {:induction false} ContainsAcrossSeparator(a: string, b: string, w: string)
    requires |b| > 0 && b[0] !in w
    requires !Contains(b, w)
    ensures Contains(a + b, w) <==> Contains(a, w)
  {
    var ab := a + b;
    if Contains(a, w) {
      var k :| 0 <= k <= |a| - |w| && OccursAt(a, w, k);
      assert ab[k..k + |w|] == a[k..k + |w|];
      assert OccursAt(ab, w, k);
    }
    if Contains(ab, w) {
      var k :| 0 <= k <= |ab| - |w| && OccursAt(ab, w, k);
      if k + |w| <= |a| {
        assert a[k..k + |w|] == ab[k..k + |w|];
        assert OccursAt(a, w, k);
      } else if k >= |a| {
        OccurrenceInSuffix(a, b, w, k);
        assert false;
      } else {
        OccurrenceAcrossJoin(a, b, w, k);
        assert false;
      }
    }
  }
}
