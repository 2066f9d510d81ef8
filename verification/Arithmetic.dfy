/** Facts about division that both number formats need. */
module Arithmetic {

  lemma Quotient(n: nat, d: nat, q: nat, r: nat)
    requires d > 0 && r < d && n == d * q + r
    ensures n / d == q
  {
    var m := n / d;
    assert n == d * m + n % d;
    if m < q {
      Times(d, m + 1, q);
      assert false;
    } else if m > q {
      Times(d, q + 1, m);
      assert false;
    }
  }

  lemma Times(d: nat, a: nat, b: nat)
    requires a <= b
    ensures d * a <= d * b && d * (a + 1) == d * a + d
    ensures a > 0 ==> d * a == d * (a - 1) + d
  {
    assert d * b == d * a + d * (b - a);
  }

  // Dividing twice is dividing by the product.
  lemma DivideTwice(n: nat, a: nat, b: nat)
    requires a > 0 && b > 0
    ensures a * b > 0 && n / (a * b) == n / a / b
  {
    var m, q := n / a, n / a / b;
    var r := a * (m % b) + n % a;
    assert m == b * q + m % b && n == a * m + n % a;
    assert a * m == a * (b * q) + a * (m % b);
    assert a * (b * q) == a * b * q;
    Times(a, m % b + 1, b);
    assert r < a * b;
    Quotient(n, a * b, q, r);
  }
}
