/** Counting elements of finite sets. */
module FiniteSets {

  ghost function Range(n: nat): (r: set<nat>)
    ensures forall i :: i in r <==> 0 <= i < n
    ensures |r| == n
  {
    if n == 0 then {} else Range(n - 1) + {n - 1}
  }

  lemma SubsetNoLarger<T>(a: set<T>, b: set<T>)
    requires a <= b
    ensures |a| <= |b|
  {
    assert b == a + (b - a);
  }

  lemma ProperSubsetSmaller<T>(a: set<T>, b: set<T>)
    requires a < b
    ensures |a| < |b|
  {
    assert b == a + (b - a);
    assert b - a != {};
  }

  // A set of numbers below n has n elements only if it has them all.
  lemma CountBelow(a: set<nat>, n: nat)
    requires forall i :: i in a ==> i < n
    ensures |a| <= n
    ensures |a| == n ==> forall i :: 0 <= i < n ==> i in a
  {
    SubsetNoLarger(a, Range(n));
    if i :| 0 <= i < n && i !in a {
      ProperSubsetSmaller(a, Range(n));
    }
  }
}
