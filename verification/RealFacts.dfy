/** Facts about products and quotients of reals. */
module RealFacts {

  lemma RatioFacts(x: real, y: real)
    requires y != 0.0
    ensures y > 0.0 ==> (x / y < 1.0 <==> x < y) && (x / y == 1.0 <==> x == y) && (x / y >= 0.0 <==> x >= 0.0)
    ensures y < 0.0 ==> (x / y < 1.0 <==> x > y) && (x / y == 1.0 <==> x == y)
  {
    var q := x / y;
    assert q * y == x;
    assert (q - 1.0) * y == x - y;
    if y < 0.0 { ProductSign(1.0 - q, -y); }
  }

  lemma ProductSign(a: real, b: real)
    requires b > 0.0
    ensures a * b > 0.0 <==> a > 0.0
    ensures a * b == 0.0 <==> a == 0.0
  {
    if a > 0.0 { assert a * b > 0.0; }
    if a < 0.0 { assert (-a) * b > 0.0; }
  }

  lemma DivideMonotone(x: real, y: real, z: real)
    requires z > 0.0 && x <= y
    ensures x / z <= y / z
    ensures x < y ==> x / z < y / z
  {
    var p, q := x / z, y / z;
    assert p * z == x && q * z == y;
  }

  lemma QuotientDrops(h: real, a: real, b: real)
    requires h > 0.0 && 0.0 < a < b
    ensures h / a > h / b
  {
    var p, q := h / a, h / b;
    assert p * a == h && q * b == h;
  }

  lemma ReciprocalOrder(p: int, q: int)
    requires 0 < p <= q
    ensures 0.0 < 1.0 / q as real <= 1.0 / p as real <= 1.0
  {
    if p < q { QuotientDrops(1.0, p as real, q as real); }
    if 1 < p { QuotientDrops(1.0, 1.0, p as real); }
    assert (1.0 / q as real) * q as real == 1.0;
  }

  lemma NonNegativeProduct(a: real, b: real)
    requires a >= 0.0 && b >= 0.0
    ensures a * b >= 0.0
  {
  }

  lemma Distribute(a: real, b: real, c: real)
    ensures (a + b) * c == a * c + b * c
    ensures (a - b) * c == a * c - b * c
    ensures a / 2.0 * c == a * c / 2.0
  {
  }
}
