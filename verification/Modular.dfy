/** Facts about remainders that the solver needs spelled out. */
module Modular {

  function Pow2(n: nat): (r: nat)
    ensures r >= 1
  {
    if n == 0 then 1 else 2 * Pow2(n - 1)
  }

  lemma AtLeastOnce(p: nat, k: int)
    requires k >= 1
    ensures p * k >= p
  {
  }

  /** Quotient and remainder are unique. */
  lemma DivModUnique(x: int, p: nat, q: int, r: nat)
    requires p >= 1 && r < p && x == p * q + r
    ensures x / p == q && x % p == r
  {
    var d, m := x / p, x % p;
    assert x == p * d + m;
    assert p * (q - d) == p * q - p * d;
    assert p * (d - q) == p * d - p * q;
    if q > d {
      AtLeastOnce(p, q - d);
    } else if d > q {
      AtLeastOnce(p, d - q);
    }
  }

  lemma MultipleMod(p: nat, q: int)
    requires p >= 1
    ensures p * q % p == 0
  {
    DivModUnique(p * q, p, q, 0);
  }

  /** Adding a multiple of the modulus changes nothing. */
  lemma ModShift(x: int, p: nat, k: int)
    requires p >= 1
    ensures (x + p * k) % p == x % p
  {
    assert x + p * k == p * (x / p + k) + x % p by {
      assert p * (x / p + k) == p * (x / p) + p * k;
    }
    DivModUnique(x + p * k, p, x / p + k, x % p);
  }

  lemma Expand(x: int, y: int, p: nat, q: int, r: int)
    requires x == p * q + r
    ensures x * y == r * y + p * (q * y)
  {
    assert (p * q) * y == p * (q * y);
  }

  lemma ModMulLeft(x: int, y: int, p: nat)
    requires p >= 1
    ensures (x % p) * y % p == x * y % p
  {
    var q, r := x / p, x % p;
    Expand(x, y, p, q, r);
    ModShift(r * y, p, q * y);
  }

  lemma ModMul(x: int, y: int, p: nat)
    requires p >= 1
    ensures (x % p) * y % p == x * y % p
    ensures x * (y % p) % p == x * y % p
  {
    ModMulLeft(x, y, p);
    ModMulLeft(y, x, p);
    var z := y % p;
    assert x * z == z * x && x * y == y * x;
  }

  lemma ModAddLeft(x: int, y: int, p: nat)
    requires p >= 1
    ensures (x % p + y) % p == (x + y) % p
  {
    var q, r := x / p, x % p;
    assert x == p * q + r;
    ModShift(r + y, p, q);
  }

  lemma ModAdd(x: int, y: int, p: nat)
    requires p >= 1
    ensures (x % p + y) % p == (x + y) % p
    ensures (x + y % p) % p == (x + y) % p
  {
    ModAddLeft(x, y, p);
    ModAddLeft(y, x, p);
  }

  lemma ModSmall(x: nat, p: nat)
    requires x < p
    ensures x % p == x
  {
    DivModUnique(x, p, 0, x);
  }
}
