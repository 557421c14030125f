/** What many modules need. */
module Basics {
  datatype Option<+T> = None | Some(value: T)

  ghost predicate Distinct<T>(s: seq<T>) {
    forall i, j :: 0 <= i < j < |s| ==> s[i] != s[j]
  }

  /** A subset has no more elements, and as many only if it is the whole set. */
  lemma SubsetSize<T>(s: set<T>, t: set<T>)
    requires s <= t
    ensures |s| <= |t| && (|s| == |t| ==> s == t)
  {
    assert t == s + (t - s);
    if |s| == |t| {
      assert |t - s| == 0;
    }
  }

  lemma Multiple(n: int, k: int)
    requires 0 <= n
    ensures (1 <= k ==> n * k >= n) && (k <= -1 ==> n * k <= -n)
  {
  }
}
