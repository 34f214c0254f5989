/** Facts about finite sets and division that several modules use. */
module Arithmetic {

  lemma SubsetSize<T>(a: set<T>, b: set<T>)
    requires a <= b
    ensures |a| <= |b|
  {
    assert b == a + (b - a);
  }

  lemma SubsetSplits<T>(a: set<T>, b: set<T>)
    requires a <= b
    ensures |a| + |b - a| == |b|
  {
    assert b == a + (b - a);
  }

  lemma SmallMultiple(k: int, d: int)
    requires k > 0 && -k < k * d < k
    ensures d == 0
  {
  }

  /** Quotient and remainder are unique. */
  lemma QuotientIs(x: int, k: int, q: int, r: int)
    requires 0 <= r < k && x == k * q + r
    ensures x / k == q && x % k == r
  {
    assert k * (x / k - q) == r - x % k;
    SmallMultiple(k, x / k - q);
  }

  /** There is always a number not used yet. */
  lemma {:induction false} FreshNat(used: set<nat>) returns (n: nat)
    ensures forall x :: x in used ==> x < n
    decreases |used|
  {
    if used == {} {
      n := 0;
    } else {
      var x :| x in used;
      n := FreshNat(used - {x});
      assert forall y :: y in used ==> y == x || y in used - {x};
      n := if n <= x then x + 1 else n;
    }
  }
}
