/** Division facts that the solver does not find by itself. */
module Arithmetic {
  lemma Scale(c: nat, x: nat, y: nat)
    requires x <= y
    ensures c * x <= c * y
  {
  }

  lemma Regroup(a: nat, b: nat, c: nat)
    ensures a * b * c == a * (b * c)
  {
  }

  lemma Distribute(a: nat, b: nat, c: nat)
    ensures a * (b + c) == a * b + a * c
  {
  }

  /** Quotient and remainder are unique. */
  lemma Division(c: nat, q: nat, r: nat)
    requires r < c
    ensures (c * q + r) / c == q && (c * q + r) % c == r
  {
    var x := c * q + r;
    var d := x / c;
    assert x == c * d + x % c;
    if d > q {
      Scale(c, q + 1, d);
      Distribute(c, q, 1);
    } else if d < q {
      Scale(c, d + 1, q);
      Distribute(c, d, 1);
    }
  }

  /** Dividing by 2 and then by p is dividing by 2p. */
  lemma Halve(w: nat, p: nat)
    requires p > 0
    ensures w / 2 / p == w / (2 * p)
  {
    var q, r := w / 2 / p, w / 2 % p;
    assert w / 2 == p * q + r;
    Regroup(2, p, q);
    assert w == (2 * p) * q + (2 * r + w % 2);
    Division(2 * p, q, 2 * r + w % 2);
  }
}
