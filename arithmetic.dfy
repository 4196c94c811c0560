/** Facts about multiplication and division by a variable that the
    solver does not find unaided. */
module Arithmetic {
  lemma MulMono(d: nat, a: nat, b: nat)
    requires a <= b
    ensures d * a <= d * b
  {
    assert d * b == d * a + d * (b - a);
  }

  lemma DivLower(x: nat, d: nat, k: nat)
    requires d > 0 && d * k <= x
    ensures k <= x / d
  {
    var q := x / d;
    var r := x % d;
    assert x == d * q + r;
    if k > q {
      MulMono(d, q + 1, k);
    }
  }

  lemma DivUpper(x: nat, d: nat, k: nat)
    requires d > 0 && x <= d * k
    ensures x / d <= k
  {
    var q := x / d;
    var r := x % d;
    assert x == d * q + r;
    if q > k {
      MulMono(d, k + 1, q);
    }
  }
}
