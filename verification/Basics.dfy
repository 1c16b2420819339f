/** Powers of two, lists without repeats, and the sizes of sets and maps: what several components use. */
module Basics {

  function Power2(n: nat): (r: nat)
    ensures r >= 1
  {
    if n == 0 then 1 else 2 * Power2(n - 1)
  }

  lemma {:induction false} Power2Grows(a: nat, b: nat)
    requires a <= b
    ensures Power2(a) <= Power2(b)
    decreases b
  {
    if a < b {
      Power2Grows(a, b - 1);
    }
  }

  predicate NoRepeat(s: seq<string>) { forall i, j :: 0 <= i < j < |s| ==> s[i] != s[j] }

  lemma {:induction false} SubsetSize<T>(a: set<T>, b: set<T>)
    requires a <= b
    ensures |a| <= |b|
  {
    assert a + (b - a) == b;
  }

  /** A map without one of its keys is smaller. */
  lemma {:induction false} Smaller<K, V>(m: map<K, V>, k: K)
    requires k in m
    ensures |m - {k}| < |m|
  {
    assert (m - {k}).Keys == m.Keys - {k};
    assert |m - {k}| == |(m - {k}).Keys| && |m| == |m.Keys|;
  }
}
