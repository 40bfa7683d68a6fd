/** Facts about products and quotients that the time and money arithmetic relies on. */
module Division {
  function Least(a: nat, b: nat): nat {
    if a < b then a else b
  }

  lemma MulMonotone(a: nat, b: nat, w: nat)
    requires a <= b
    ensures a * w <= b * w
  {
    assert b * w == a * w + (b - a) * w;
  }

  lemma NextMultiple(a: nat, w: nat)
    ensures (a + 1) * w == a * w + w
  {
  }

  lemma QuotientAndRest(a: nat, b: nat)
    requires b > 0
    ensures a == a / b * b + a % b && a % b < b
  {
  }

  /** A quotient is characterised by the interval its dividend lies in. */
  lemma DivisionInterval(x: nat, d: nat, q: nat)
    requires d > 0
    ensures x / d == q <==> q * d <= x < q * d + d
  {
    var e := x / d;
    assert x == e * d + x % d;
    if e < q {
      MulMonotone(e + 1, q, d);
      NextMultiple(e, d);
    } else if e > q {
      MulMonotone(q + 1, e, d);
      NextMultiple(q, d);
    }
  }

  lemma QuotientAtLeast(x: nat, d: nat, q: nat)
    requires d > 0
    ensures x / d >= q <==> q * d <= x
  {
    var e := x / d;
    assert x == e * d + x % d;
    if e < q {
      MulMonotone(e + 1, q, d);
      NextMultiple(e, d);
    } else {
      MulMonotone(q, e, d);
    }
  }

  lemma ModOf(q: nat, r: nat, n: nat, x: nat)
    requires n > 0 && r < n && x == q * n + r
    ensures x % n == r && x / n == q
  {
    DivisionInterval(x, n, q);
  }

  lemma QuotientMonotone(x: nat, y: nat, d: nat)
    requires d > 0 && x <= y
    ensures x / d <= y / d
  {
    QuotientAtLeast(x, d, x / d);
    QuotientAtLeast(y, d, x / d);
  }
}
