/** Sequences without repetition, chosen elements of sets, and sizes of subsets. */
module Collections {

  ghost predicate Distinct(s: seq<int>) {
    forall i, j | 0 <= i < j < |s| :: s[i] != s[j]
  }

  ghost function Pick<T>(s: set<T>): (t: T)
    requires s != {}
    ensures t in s
  {
    var t :| t in s;
    t
  }

  lemma SubsetSize<T>(a: set<T>, b: set<T>)
    requires a <= b
    ensures |a| <= |b|
  {
    assert b == a + (b - a);
  }

  lemma ProperSubsetSize<T>(a: set<T>, b: set<T>, x: T)
    requires a <= b && x in b && x !in a
    ensures |a| < |b|
  {
    assert b == a + (b - a) && x in b - a;
  }
}
