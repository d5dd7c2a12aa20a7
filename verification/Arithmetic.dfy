/** Facts about products and quotients that the solver is told one at a time. */
module Arithmetic {

  lemma {:induction false} MulLe(a: nat, b: nat, c: nat)
    requires a <= b
    ensures a * c <= b * c
  {}

  lemma {:induction false} MulLess(a: nat, b: nat, c: nat)
    requires a < b
    ensures a * c + c <= b * c
  {
    MulLe(a + 1, b, c);
    MulSucc(a, c);
  }

  lemma {:induction false} MulSucc(a: nat, c: nat)
    ensures (a + 1) * c == a * c + c
  {}

  lemma {:induction false} Products(m: nat, n: nat, k: nat)
    ensures (m + n) * k == m * k + n * k
  {}

  lemma {:induction false} DivUnique(x: nat, d: nat, q: nat, r: nat)
    requires r < d && x == q * d + r
    ensures x / d == q && x % d == r
  {
    var q', r' := x / d, x % d;
    assert x == d * q' + r';
    assert d * (q - q') == r' - r;
    if q > q' { MulLe(1, q - q', d); assert false; }
    if q < q' { MulLe(1, q' - q, d); assert false; }
  }
}
