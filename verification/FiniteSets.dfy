/** Sizes of finite sets. */
module FiniteSets {

  lemma {:induction false} CardinalityMonotone<T>(a: set<T>, b: set<T>)
    requires a <= b
    ensures |a| <= |b|
    decreases |a|
  {
    if a != {} {
      var x :| x in a;
      CardinalityMonotone(a - {x}, b - {x});
    }
  }

  lemma SmallerSet<T>(a: set<T>, b: set<T>)
    requires a < b
    ensures |a| < |b|
  {
    var x :| x in b && x !in a;
    CardinalityMonotone(a, b - {x});
  }

  lemma Shrinks<T>(bound: set<T>, a: set<T>, b: set<T>)
    requires a < b <= bound
    ensures |bound - b| < |bound - a|
  {
    assert bound - b < bound - a;
    SmallerSet(bound - b, bound - a);
  }
}
