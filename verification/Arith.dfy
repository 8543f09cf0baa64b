// Facts about products and quotients that the solver does not find by itself.
module Arith {

  lemma ProductNatural(a: nat, b: nat)
    ensures a * b >= 0
  {}

  lemma MulLe(a: int, b: int, c: nat)
    requires a <= b
    ensures a * c <= b * c
  {}

  /** Zero is the only multiple of s strictly between -s and s. */
  lemma NoMultipleInside(k: int, s: nat)
    requires 0 < s + k * s && k * s < s
    ensures k == 0
  {
    if k >= 1 {
      MulLe(1, k, s);
    } else if k <= -1 {
      MulLe(k, -1, s);
    }
  }

  lemma DivMod(a: int, s: nat, q: int, r: nat)
    requires r < s && a == q * s + r
    ensures a / s == q && a % s == r
  {
    var k := a / s - q;
    assert a == s * (a / s) + a % s;
    assert k * s == (a / s) * s - q * s;
    NoMultipleInside(k, s);
  }
}
