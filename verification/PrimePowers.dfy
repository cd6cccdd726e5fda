/** Congruences, Fermat's little theorem for any prime, and modular exponentiation. */
module PrimePowers {
  import opened Modular
  import opened Algebra
  import opened Binomial
  import opened SepticArith

  ghost predicate Congruent(m: nat, a: int, b: int)
    requires m >= 1
  {
    a % m == b % m
  }

  lemma CongruentMod(m: nat, a: int)
    requires m >= 1
    ensures Congruent(m, a % m, a)
  {
    ModAddLeft(a, 0, m);
  }

  lemma CongruentAdd(m: nat, a: int, b: int, c: int)
    requires m >= 1 && Congruent(m, a, b)
    ensures Congruent(m, a + c, b + c)
  {
    ModAddLeft(a, c, m);
    ModAddLeft(b, c, m);
  }

  lemma CongruentMul(m: nat, a: int, b: int, c: int)
    requires m >= 1 && Congruent(m, a, b)
    ensures Congruent(m, a * c, b * c) && Congruent(m, c * a, c * b)
  {
    ModMulLeft(a, c, m);
    ModMulLeft(b, c, m);
    Commute(a, c);
    Commute(b, c);
  }

  lemma Commute(a: int, c: int)
    ensures a * c == c * a
  {
  }

  // Primes.

  ghost predicate IsPrime(m: nat) {
    m >= 2 && forall d: nat :: 1 < d < m ==> m % d != 0
  }

  lemma RemainderProduct(m: nat, a: nat, b: nat)
    requires 1 <= a && m >= 1 && a * b % m == 0
    ensures m % a * b % m == 0
  {
    var q, r, c := m / a, m % a, a * b / m;
    assert a * b == m * c by {
      assert a * b == m * c + a * b % m;
    }
    assert m == a * q + r;
    Factored(m, a, q, r, b, c);
    MultipleMod(m, b - q * c);
  }

  lemma Factored(m: nat, a: nat, q: nat, r: nat, b: nat, c: int)
    requires m == a * q + r && a * b == m * c
    ensures r * b == m * (b - q * c)
  {
    assert (a * q + r) * b == q * (a * b) + r * b;
    assert q * (m * c) == m * (q * c);
    assert m * (b - q * c) == m * b - m * (q * c);
  }

  /** A prime that divides a product but not the first factor divides the second. */
  lemma {:induction false} Euclid(m: nat, a: nat, b: nat)
    requires IsPrime(m) && 0 < a < m && a * b % m == 0
    ensures b % m == 0
    decreases a
  {
    if a > 1 {
      assert m % a != 0;
      RemainderProduct(m, a, b);
      Euclid(m, m % a, b);
    }
  }

  lemma PrimeHasNoZeroDivisors(m: nat)
    requires IsPrime(m)
    ensures NoZeroDivisors(m)
  {
    forall a: nat, b: nat
      ensures ZeroProduct(m, a, b)
    {
      if a * b % m == 0 && a % m != 0 {
        ModMulLeft(a, b, m);
        Euclid(m, a % m, b);
      }
    }
  }

  // Powers of integers.

  lemma IntsAreRing()
    ensures CommRing(IntRing())
  {
    forall x, y, z
      ensures Laws(IntRing(), x, y, z)
    {
      IntLaws(x, y, z);
    }
  }

  lemma IntLaws(x: int, y: int, z: int)
    ensures x * y == y * x && x * y * z == x * (y * z) && x * (y + z) == x * y + x * z
  {
  }

  lemma {:induction false} TimesIsProduct(c: nat, x: int)
    ensures Times(IntRing(), c, x) == c * x
  {
    TimesStep(IntRing(), x, 0);
    if c > 0 {
      TimesIsProduct(c - 1, x);
      TimesStep(IntRing(), x, c - 1);
      OneMore(c - 1, x);
    }
  }

  lemma OneMore(c: int, x: int)
    ensures (c + 1) * x == x + c * x
  {
  }

  lemma TermDivisible(m: nat, a: int, k: nat)
    requires IsPrime(m) && 0 < k < m
    ensures Term(IntRing(), a, 1, m, k) % m == 0
  {
    PrimeHasNoZeroDivisors(m);
    BinomDivisible(m, k);
    var c, x := Binom(m, k), IntRing().mul(Pow(IntRing(), a, k), Pow(IntRing(), 1, m - k));
    TimesIsProduct(c, x);
    DivisibleProduct(c, x, m);
  }

  lemma DivisibleProduct(c: int, x: int, m: nat)
    requires m >= 1 && c % m == 0
    ensures c * x % m == 0
  {
    ModMulLeft(c, x, m);
    assert 0 * x == 0;
  }

  lemma {:induction false} PartialIsOne(m: nat, a: int, j: nat)
    requires IsPrime(m) && 1 <= j <= m
    ensures Congruent(m, Partial(IntRing(), a, 1, m, j), 1)
    decreases j
  {
    IntsAreRing();
    var R := IntRing();
    if j == 1 {
      PowStep(R, a, 0);
      PowOne(R, m);
      TimesIsProduct(1, R.mul(Pow(R, a, 0), Pow(R, 1, m)));
      assert Partial(R, a, 1, m, 0) == 0;
    } else {
      PartialIsOne(m, a, j - 1);
      TermDivisible(m, a, j - 1);
      var t, s := Term(R, a, 1, m, j - 1), Partial(R, a, 1, m, j - 1);
      ModAdd(s, t, m);
    }
  }

  lemma PowSuccessor(m: nat, a: int)
    requires IsPrime(m)
    ensures Congruent(m, Pow(IntRing(), a + 1, m), Pow(IntRing(), a, m) + 1)
  {
    IntsAreRing();
    var R := IntRing();
    BinomialTheorem(R, a, 1, m);
    BinomEdge(m, m);
    PowStep(R, 1, 0);
    var p := Pow(R, a, m);
    TimesIsProduct(1, R.mul(p, 1));
    PartialIsOne(m, a, m);
    CongruentAdd(m, Partial(R, a, 1, m, m), 1, p);
  }

  lemma {:induction false} PowOfZero(n: nat)
    requires n >= 1
    ensures Pow(IntRing(), 0, n) == 0
  {
    PowStep(IntRing(), 0, n - 1);
  }

  /** The m-th power of a number is the number, modulo a prime m. */
  lemma {:induction false} LittleFermat(m: nat, a: nat)
    requires IsPrime(m)
    ensures Congruent(m, Pow(IntRing(), a, m), a)
    decreases a
  {
    if a == 0 {
      PowOfZero(m);
    } else {
      LittleFermat(m, a - 1);
      PowSuccessor(m, a - 1);
      CongruentAdd(m, Pow(IntRing(), a - 1, m), a - 1, 1);
    }
  }

  // Modular powers.

  function PowMod(b: nat, e: nat, m: nat): (r: nat)
    requires m >= 1
    ensures r < m
  {
    if e == 0 then 1 % m else b * PowMod(b, e - 1, m) % m
  }

  lemma {:induction false} PowModIsPow(b: nat, e: nat, m: nat)
    requires m >= 1
    ensures PowMod(b, e, m) == Pow(IntRing(), b, e) % m
    decreases e
  {
    PowStep(IntRing(), b, 0);
    if e > 0 {
      PowModIsPow(b, e - 1, m);
      PowStep(IntRing(), b, e - 1);
      ModMul(b, Pow(IntRing(), b, e - 1), m);
    }
  }

  /** The power m - 2 inverts modulo a prime m. */
  lemma PowerInverts(m: nat, d: nat)
    requires IsPrime(m) && 0 < d < m
    ensures PowMod(d, m - 2, m) * d % m == 1
  {
    var R := IntRing();
    var p := Pow(R, d, m - 2);
    PowModIsPow(d, m - 2, m);
    PowStep(R, d, m - 2);
    PowStep(R, d, m - 1);
    LittleFermat(m, d);
    Unfold(d, p);
    NonNegativePow(d, m - 2);
    Divide(m, d, d * p);
    ModMul(p, d, m);
    Commute(p, d);
  }

  lemma Unfold(d: int, p: int)
    ensures d * (d * p) - d == d * (d * p - 1)
  {
  }

  lemma {:induction false} NonNegativePow(d: nat, e: nat)
    requires d >= 1
    ensures Pow(IntRing(), d, e) >= 1
    decreases e
  {
    PowStep(IntRing(), d, 0);
    if e > 0 {
      NonNegativePow(d, e - 1);
      PowStep(IntRing(), d, e - 1);
      Grows(d, Pow(IntRing(), d, e - 1));
    }
  }

  lemma Grows(d: int, p: int)
    requires d >= 1 && p >= 1
    ensures d * p >= 1
  {
  }

  /** Cancelling a factor that a prime does not divide. */
  lemma Divide(m: nat, d: nat, x: nat)
    requires IsPrime(m) && 0 < d < m && x >= 1 && Congruent(m, d * x, d)
    ensures x % m == 1
  {
    assert d * (x - 1) % m == 0 by {
      CongruentAdd(m, d * x, d, 0 - d);
      assert d * x - d == d * (x - 1);
      assert 0 % m == 0;
    }
    Euclid(m, d, x - 1);
    CongruentAdd(m, x - 1, 0, 1);
    ModSmall(1, m);
  }

  // The source's exponentiation.

  lemma {:induction false} PowCongruent(m: nat, a: int, b: int, n: nat)
    requires m >= 1 && Congruent(m, a, b)
    ensures Congruent(m, Pow(IntRing(), a, n), Pow(IntRing(), b, n))
    decreases n
  {
    PowStep(IntRing(), a, 0);
    PowStep(IntRing(), b, 0);
    if n > 0 {
      PowCongruent(m, a, b, n - 1);
      PowStep(IntRing(), a, n - 1);
      PowStep(IntRing(), b, n - 1);
      var x, y := Pow(IntRing(), a, n - 1), Pow(IntRing(), b, n - 1);
      CongruentMul(m, x, y, a);
      CongruentMul(m, a, b, y);
    }
  }

  /** Halving the exponent and squaring the base, with a factor for an odd exponent. */
  lemma HalvePower(m: nat, base: int, e: nat)
    requires m >= 1
    ensures Congruent(m, Pow(IntRing(), base, e),
                      Pow(IntRing(), base * base % m, e / 2) * if e % 2 == 1 then base else 1)
  {
    IntsAreRing();
    var R, h := IntRing(), e / 2;
    PowMul(R, base, 2, h);
    PowSmall(R, base);
    CongruentMod(m, base * base);
    PowCongruent(m, base * base % m, base * base, h);
    var x, y := Pow(R, base * base % m, h), Pow(R, base * base, h);
    if e % 2 == 1 {
      PowStep(R, base, 2 * h);
      assert e == 2 * h + 1;
      CongruentMul(m, x, y, base);
      Commute(y, base);
    }
  }

  method ModPow(b: nat, e: nat, m: nat) returns (r: nat)
    requires m >= 1
    ensures r == PowMod(b, e, m)
  {
    PowModIsPow(b, e, m);
    if m == 1 {
      return 0;
    }
    var base: nat, exp: nat := b % m, e;
    r := 1;
    CongruentMod(m, b);
    PowCongruent(m, base, b, e);
    while exp > 0
      invariant r < m && Congruent(m, r * Pow(IntRing(), base, exp), Pow(IntRing(), b, e))
    {
      ModPowStep(m, r, base, exp);
      if exp % 2 == 1 {
        r := r * base % m;
      }
      exp := exp / 2;
      base := base * base % m;
    }
    PowStep(IntRing(), base, 0);
    ModSmall(r, m);
  }

  lemma ModPowStep(m: nat, r: nat, base: nat, exp: nat)
    requires m >= 1 && exp > 0
    ensures var r' := if exp % 2 == 1 then r * base % m else r;
            Congruent(m, r' * Pow(IntRing(), base * base % m, exp / 2), r * Pow(IntRing(), base, exp))
  {
    HalvePower(m, base, exp);
    var y := Pow(IntRing(), base * base % m, exp / 2);
    var f := if exp % 2 == 1 then base else 1;
    CongruentMul(m, Pow(IntRing(), base, exp), y * f, r);
    if exp % 2 == 1 {
      CongruentMod(m, r * base);
      CongruentMul(m, r * base % m, r * base, y);
      Rearrange(r, y, base);
    }
  }

  lemma Rearrange(r: int, y: int, f: int)
    ensures r * (y * f) == r * f * y
  {
  }
}
