/** Facts about remainders. */
module Arithmetic {
  lemma SmallMod(a: nat, p: nat)
    requires a < p
    ensures a % p == a
  {
    hide *;
  }

  lemma ModSelf(p: nat)
    requires p > 0
    ensures p % p == 0
  {
  }

  lemma AddMod(a: nat, p: nat)
    requires p > 0
    ensures (a % p + 1) % p == (a + 1) % p
  {
    hide *;
    var q, r := a / p, a % p;
    assert a == p * q + r && r < p;
    if r + 1 == p {
      ModSelf(p);
      Distribute(p, q);
      ModIs(q + 1, 0, p);
    } else {
      SmallMod(r + 1, p);
      ModIs(q, r + 1, p);
    }
  }

  lemma Distribute(p: nat, q: nat)
    ensures p * (q + 1) == p * q + p
  {
  }

  lemma ModIs(q: nat, r: nat, p: nat)
    requires r < p
    ensures (p * q + r) % p == r
  {
    hide *;
    var y := p * q + r;
    var k, m := y / p, y % p;
    assert y == p * k + m && 0 <= m < p;
    if k > q {
      Factor(p, k, q);
    } else if k < q {
      Factor(p, q, k);
    }
  }

  lemma Factor(p: nat, a: nat, b: nat)
    requires a > b
    ensures p * a >= p * b + p
  {
    assert p * a == p * b + p * (a - b);
    assert p * (a - b) == p * (a - b - 1) + p;
  }
}
