/**
  Facts about multiples and remainders that the clock and the page masks share.
*/
module Arithmetic {
  lemma FewerMultiples(d: nat, a: nat, b: nat)
    requires a < b
    ensures a * d + d <= b * d
  {
    var c := b - a;
    assert b * d == a * d + c * d;
    assert c * d == (c - 1) * d + d;
  }

  lemma RemainderIs(x: nat, d: nat, q: nat, r: nat)
    requires d > 0 && x == q * d + r && r < d
    ensures x / d == q && x % d == r
  {
    var a := x / d;
    assert x == a * d + x % d;
    if a < q {
      FewerMultiples(d, a, q);
    } else if q < a {
      FewerMultiples(d, q, a);
    }
  }
}
