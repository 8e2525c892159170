/** Facts about division by a variable that the solver needs spelled out. */
module Division {

  lemma MulMono(x: int, y: int, d: nat)
    requires x <= y
    ensures d * x <= d * y && x * d <= y * d
  {
  }

  /** Quotient and remainder are unique. */
  lemma DivUnique(n: nat, d: nat, q: nat, r: nat)
    requires d > 0 && r < d && n == q * d + r
    ensures n / d == q && n % d == r
  {
    var k := n / d;
    assert n == k * d + n % d;
    assert (k + 1) * d == k * d + d && (q + 1) * d == q * d + d;
    if k < q { MulMono(k + 1, q, d); }
    if q < k { MulMono(q + 1, k, d); }
  }

  /** Counting up by one crosses at most one multiple. */
  lemma DivStep(n: nat, d: nat)
    requires d > 0
    ensures (n + 1) / d == n / d + if n / d != (n + 1) / d then 1 else 0
  {
    var q, r := n / d, n % d;
    assert n == q * d + r;
    if r + 1 < d {
      DivUnique(n + 1, d, q, r + 1);
    } else {
      assert (q + 1) * d == q * d + d;
      DivUnique(n + 1, d, q + 1, 0);
    }
  }

  /** One multiple in every nTotal/q + 1 makes fewer than q multiples up to nTotal. */
  lemma MultiplesFit(n: nat, nTotal: nat, q: nat)
    requires n <= nTotal && q > 0
    ensures n / (nTotal / q + 1) < q
  {
    var d := nTotal / q + 1;
    assert n < q * d;
    assert n / d * d <= n;
    if n / d >= q { MulMono(q, n / d, d); }
  }

  lemma Parts(x: nat, d: nat)
    requires d > 0
    ensures x == (x / d) * d + x % d && x % d < d
  {
  }

  /** x lies below the n-th multiple of d exactly when its quotient is below n. */
  lemma Below(x: nat, n: nat, d: nat)
    requires d > 0
    ensures x < n * d <==> x / d < n
    ensures x < d * n <==> x / d < n
  {
    Parts(x, d);
    assert (x / d + 1) * d == (x / d) * d + d;
    if x / d < n { MulMono(x / d + 1, n, d); } else { MulMono(n, x / d, d); }
  }

  lemma NextAligned(x: nat, n: nat, d: nat)
    requires n > 0 && x % n == 0 && d % n == 0
    ensures (x + d) % n == 0
  {
    var a, b := x / n, d / n;
    assert x == a * n && d == b * n;
    assert x + d == (a + b) * n;
    DivUnique(x + d, n, a + b, 0);
  }
}
