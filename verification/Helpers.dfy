/** Facts about pages, sets and sequences that several components share. */
module Helpers {
  const PAGE_SIZE: nat := 4096

  /** A whole number of pages. */
  predicate Whole(x: int) {
    x % PAGE_SIZE == 0
  }

  lemma WholeSum(x: int, y: int)
    requires Whole(x) && Whole(y)
    ensures Whole(x + y) && Whole(x - y)
  {
  }

  lemma SubsetSize<T>(a: set<T>, b: set<T>)
    requires a <= b
    ensures |a| <= |b|
  {
    assert b == a + (b - a);
  }

  lemma FullSubset<T>(a: set<T>, b: set<T>)
    requires a <= b && |a| >= |b|
    ensures a == b
  {
    assert b == a + (b - a);
  }

  ghost predicate Distinct<T(!new)>(s: seq<T>) {
    forall i, j | 0 <= i < j < |s| :: s[i] != s[j]
  }

  lemma DistinctSnoc<T(!new)>(s: seq<T>, x: T)
    ensures Distinct(s + [x]) <==> Distinct(s) && x !in s
  {
    if Distinct(s + [x]) {
      assert forall i | 0 <= i < |s| :: (s + [x])[i] == s[i];
      assert (s + [x])[|s|] == x;
    }
  }

  ghost predicate Increasing(s: seq<nat>) {
    forall i, j | 0 <= i < j < |s| :: s[i] < s[j]
  }

  lemma IncreasingMore(s: seq<nat>, k: nat)
    requires Increasing(s) && forall b | b in s :: b < k
    ensures Increasing(s + [k])
  {
    assert forall i | 0 <= i < |s| :: s[i] in s;
  }
}
