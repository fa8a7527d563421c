/** Facts about products and quotients of variables, proved once and called where needed. */
module Arith {

  lemma {:induction false} MulStep(d: int, p: int, q: int)
    requires d > 0
    ensures p < q ==> d * p + d <= d * q
    decreases q - p
  {
    if p + 1 < q {
      MulStep(d, p, q - 1);
    }
    assert d * q == d * (q - 1) + d;
  }

  lemma QuotientIs(t: int, d: int, q: int, r: int)
    requires d > 0 && t == d * q + r && 0 <= r < d
    ensures t / d == q && t % d == r
  {
    MulStep(d, t / d, q);
    MulStep(d, q, t / d);
  }

  lemma QuotientIsNat(t: int, d: int)
    requires d > 0 && t >= 0
    ensures t / d >= 0 && 0 <= t % d < d && t == d * (t / d) + t % d
  {
    MulStep(d, t / d, 0);
  }

  lemma QuotientBound(t: int, d: int, q: int)
    requires d > 0 && t < d * q
    ensures t / d < q
  {
    MulStep(d, q - 1, t / d);
    assert d * q == d * (q - 1) + d;
  }

  lemma NestedRemainder(a: int, b: int, q: int, x: int, r1: int, r2: int)
    requires a > 0 && b > 0 && x == b * q + r2 && 0 <= r1 < a && 0 <= r2 < b
    ensures a * x + r1 == (a * b) * q + (a * r2 + r1) && 0 <= a * r2 + r1 < a * b
  {
    assert a * x == a * (b * q) + a * r2;
    assert a * (b * q) == (a * b) * q;
    MulStep(a, r2, b);
    assert a * r2 >= 0;
  }

  lemma DivideTwice(t: int, a: int, b: int)
    requires a > 0 && b > 0
    ensures a * b > 0 && t / a / b == t / (a * b)
  {
    var x := t / a;
    NestedRemainder(a, b, x / b, x, t % a, x % b);
    QuotientIs(t, a * b, x / b, a * (x % b) + t % a);
  }

  lemma DivideMonotone(s: int, t: int, d: int)
    requires d > 0 && s <= t
    ensures s / d <= t / d
  {
    MulStep(d, t / d, s / d);
  }

  lemma MulAssociates(a: int, b: int, c: int)
    ensures a * (b * c) == (a * b) * c
  {
  }
}
