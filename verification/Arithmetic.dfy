/** The few facts about division and remainder that the other modules share. */
module Arithmetic {

  lemma MulStrict(p: nat, q: nat, m: nat)
    requires p < q && m > 0
    ensures p * m + m <= q * m
  {
    assert (q - p - 1) * m >= 0;
    assert q * m == (q - p - 1) * m + p * m + m;
  }

  /** Quotient and remainder are unique. */
  lemma ModUnique(x: nat, q: nat, r: nat, m: nat)
    requires m > 0 && r < m && x == q * m + r
    ensures x % m == r
  {
    var p: nat := x / m;
    assert x == p * m + x % m;
    if p < q { MulStrict(p, q, m); }
    if q < p { MulStrict(q, p, m); }
  }

  lemma ModAdd(a: nat, b: nat, m: nat)
    requires m > 0
    ensures (a % m + b) % m == (a + b) % m
  {
    var q, t := a / m, (a % m + b) / m;
    assert a == q * m + a % m;
    assert a % m + b == t * m + (a % m + b) % m;
    assert (q + t) * m == q * m + t * m;
    ModUnique(a + b, q + t, (a % m + b) % m, m);
  }

  lemma MultipleMod(q: nat, m: nat)
    requires m > 0
    ensures (q * m) % m == 0
  {
    ModUnique(q * m, q, 0, m);
  }
}
