/** Nonlinear facts about naturals, each small enough to be used by name. */
module Arithmetic {

  /** `usize::saturating_sub`. */
  function SaturatingSub(a: nat, b: nat): nat { if a < b then 0 else a - b }

  lemma MulStep(a: nat, b: nat, n: nat)
    requires a < b
    ensures a * n + n <= b * n
  {
    var d: nat := b - a - 1;
    assert b * n == (a + 1 + d) * n == a * n + n + d * n;
    assert 0 <= d * n;
  }

  lemma MulOrder(a: nat, b: nat, n: nat)
    ensures a <= b ==> a * n <= b * n
  {
    if a <= b {
      var d: nat := b - a;
      assert b * n == (a + d) * n == a * n + d * n;
      assert 0 <= d * n;
    }
  }

  /** Quotient and remainder determine the number and each other. */
  lemma DivModUnique(q: nat, r: nat, q': nat, r': nat, n: nat)
    requires r < n && r' < n && q * n + r == q' * n + r'
    ensures q == q' && r == r'
  {
    if q < q' { MulStep(q, q', n); }
    if q' < q { MulStep(q', q, n); }
  }

  /** Column `y` of row `x` when rows have `n` columns. */
  function Pair(x: nat, y: nat, n: nat): nat { x * n + y }

  lemma PairInjective(x: nat, y: nat, x': nat, y': nat, n: nat)
    requires y < n && y' < n && Pair(x, y, n) == Pair(x', y', n)
    ensures x == x' && y == y'
  {
    DivModUnique(x, y, x', y', n);
  }

  lemma PairBelow(x: nat, y: nat, outer: nat, n: nat)
    requires x < outer && y < n
    ensures Pair(x, y, n) < outer * n
  {
    MulStep(x, outer, n);
  }

  lemma DivModOf(q: nat, r: nat, n: nat)
    requires r < n
    ensures (q * n + r) / n == q && (q * n + r) % n == r
  {
    var k := q * n + r;
    assert k == (k / n) * n + k % n;
    DivModUnique(q, r, k / n, k % n, n);
  }

  lemma QuotientBelow(k: nat, a: nat, n: nat)
    requires 0 < n && k < a * n
    ensures k / n < a
  {
    assert k == (k / n) * n + k % n;
    MulOrder(a, k / n, n);
  }

  lemma DivSplit(k: nat, a: nat, n: nat) returns (q: nat, r: nat)
    requires k < a * n
    ensures q < a && r < n && k == q * n + r && q == k / n && r == k % n
  {
    QuotientBelow(k, a, n);
    q, r := k / n, k % n;
  }

  lemma AxisArithmetic(o: nat, n: nat, a: nat, i: nat)
    ensures o * (n * i) + a * i == (o * n + a) * i
  {
    assert o * (n * i) == (o * n) * i;
  }
}
