/** Euclidean division by a positive number. */
module Division {

  lemma StepOver(a: nat, b: nat, d: nat)
    ensures a < b ==> a * d + d <= b * d
  {
    if a < b {
      var k := b - a - 1;
      assert (a + 1 + k) * d == a * d + d + k * d;
    }
  }

  lemma OneMore(n: nat, d: nat)
    ensures (n + 1) * d == n * d + d
  {
  }

  /** Quotient and remainder are unique. */
  lemma QuotientIs(q: nat, r: nat, d: nat)
    requires r < d
    ensures (q * d + r) / d == q && (q * d + r) % d == r
  {
    var n := q * d + r;
    assert n == (n / d) * d + n % d;
    StepOver(n / d, q, d);
    StepOver(q, n / d, d);
  }

  lemma RemainderStep(a: nat, d: nat)
    requires d > 0
    ensures a % d == if a < d then a else (a - d) % d
  {
    if a < d {
      QuotientIs(0, a, d);
    } else {
      var q, r := (a - d) / d, (a - d) % d;
      assert a == (q + 1) * d + r;
      QuotientIs(q + 1, r, d);
    }
  }

  /** Cells come before row `n` exactly when their row does. */
  lemma RowBelow(q: nat, r: nat, d: nat, n: nat)
    requires r < d
    ensures q * d + r < n * d <==> q < n
  {
    StepOver(q, n, d);
    StepOver(n, q, d);
  }
}
