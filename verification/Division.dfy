/** Quotients and remainders of natural numbers. */
module Division {
  lemma OneMultipleLess(x: nat, d: nat)
    requires 0 < d <= x
    ensures x % d == (x - d) % d
  {
    var q, r := (x - d) / d, (x - d) % d;
    assert x == (q + 1) * d + r;
    ModUnique(x, d, q + 1, r);
  }

  lemma ModUnique(x: nat, d: nat, q: nat, r: nat)
    requires d > 0 && x == q * d + r && r < d
    ensures x % d == r
  {
    var k, r' := x / d - q, x % d;
    assert k * d == r - r';
    if k > 0 { AtLeastOnce(k, d); }
    if k < 0 { AtLeastOnce(-k, d); }
  }

  lemma AtLeastOnce(k: nat, d: nat)
    requires k > 0
    ensures k * d >= d
  {
  }

  lemma QuotientIs(x: nat, d: nat, q: nat, r: nat)
    requires d > 0 && x == q * d + r && r < d
    ensures x / d == q
  {
    ModUnique(x, d, q, r);
    assert (x / d - q) * d == 0;
  }

  lemma SmallModulo(x: nat, d: nat)
    requires x < d
    ensures x % d == x
  {
    ModUnique(x, d, 0, x);
  }

  /** Dividing by 256 first. */
  lemma DivideTwice(x: nat, d: nat)
    requires d > 0
    ensures x / 256 / d == x / (256 * d)
  {
    var q := x / 256;
    var p, t := q / d, q % d;
    WholePart(q, d);
    MovedFactor(p, d);
    QuotientIs(x, 256 * d, p, 256 * t + x % 256);
  }

  lemma WholePart(q: nat, d: nat)
    requires d > 0
    ensures q == (q / d) * d + q % d && q % d < d
  {
  }

  lemma MovedFactor(p: nat, d: nat)
    ensures p * (256 * d) == 256 * (p * d)
  {
  }
}
