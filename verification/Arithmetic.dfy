/** Products and rounded-up quotients of natural numbers. */
module Arithmetic {
  /** `(n + d - 1) / d`. */
  function CeilDiv(n: nat, d: nat): nat
    requires d > 0
  {
    (n + d - 1) / d
  }

  lemma MulOrder(x: nat, y: nat, d: nat)
    requires x <= y
    ensures x * d <= y * d
  {
  }

  lemma QuotientUnique(n: nat, d: nat, q: nat)
    requires d > 0 && q * d <= n < q * d + d
    ensures n / d == q
  {
    var r := n / d;
    assert n == r * d + n % d;
    if r < q {
      MulOrder(r + 1, q, d);
    } else if q < r {
      MulOrder(q + 1, r, d);
    }
  }

  lemma QuotientOrder(x: nat, y: nat, d: nat)
    requires x <= y && d > 0
    ensures x / d <= y / d
  {
    var i, j := x / d, y / d;
    assert x == i * d + x % d && y == j * d + y % d;
    assert (j + 1) * d == j * d + d;
    if j < i {
      MulOrder(j + 1, i, d);
    }
  }

  lemma CeilDivBound(n: nat, d: nat, q: nat)
    requires d > 0
    ensures CeilDiv(n, d) <= q <==> n <= q * d
  {
    var c := CeilDiv(n, d);
    assert c * d <= n + d - 1 < c * d + d by {
      assert (n + d - 1) == c * d + (n + d - 1) % d;
    }
    if c <= q {
      MulOrder(c, q, d);
    } else {
      MulOrder(q + 1, c, d);
      assert (q + 1) * d == q * d + d;
    }
  }
}
