/** Python's `min` and `max` of two integers. */
module Integers {

  function Min(a: int, b: int): int { if b < a then b else a }

  function Max(a: int, b: int): int { if b > a then b else a }

  lemma {:induction false} TimesGrows(x: nat, y: nat, p: nat)
    requires x < y
    ensures x * p + p <= y * p
    decreases y - x
  {
    assert (y - 1) * p + p == y * p;
    if x < y - 1 { TimesGrows(x, y - 1, p); }
  }

  /** A division with a remainder below the divisor is the division. */
  lemma RemainderIs(a: nat, n: nat, q: nat, r: nat)
    requires 0 < n && a == q * n + r && r < n
    ensures a / n == q && a % n == r
  {
    var p, s := a / n, a % n;
    assert a == p * n + s;
    if p < q {
      TimesGrows(p, q, n);
    } else if q < p {
      TimesGrows(q, p, n);
    }
  }
}
