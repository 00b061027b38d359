/** Small facts about finite sets used throughout the proofs. */
module Sets {

  /** Some element of a non-empty set. */
  ghost function Pick<T>(s: set<T>): (x: T)
    requires s != {}
    ensures x in s
  {
    var x :| x in s; x
  }

  lemma DifferenceCard<T>(a: set<T>, b: set<T>)
    requires b <= a
    ensures |a - b| == |a| - |b|
  {
    assert a == (a - b) + b;
  }

  lemma SubsetCard<T>(a: set<T>, b: set<T>)
    requires a <= b
    ensures |a| <= |b|
  {
    DifferenceCard(b, a);
  }

  /** A strictly larger subset of `n` leaves strictly fewer elements of `n` out. */
  lemma ComplementShrinks<T>(n: set<T>, a: set<T>, b: set<T>)
    requires a <= b <= n && a != b
    ensures |n - b| < |n - a|
  {
    var x := Pick(b - a);
    SubsetCard(n - b, (n - a) - {x});
    DifferenceCard(n - a, {x});
  }
}
