/** The binomial theorem, and the additivity of the p-th power in characteristic p. */
module Binomial {
  import opened Algebra
  import opened Modular

  ghost function Binom(n: nat, k: nat): nat {
    if k == 0 then 1 else if n == 0 then 0 else Binom(n - 1, k - 1) + Binom(n - 1, k)
  }

  lemma {:induction false} BinomEdge(n: nat, k: nat)
    requires n <= k
    ensures Binom(n, k) == if n == k then 1 else 0
  {
    if n > 0 {
      BinomEdge(n - 1, k - 1);
      BinomEdge(n - 1, k);
    }
  }

  lemma {:induction false} Absorption(n: nat, k: nat)
    requires 1 <= n && 1 <= k
    ensures k * Binom(n, k) == n * Binom(n - 1, k - 1)
  {
    if n == 1 {
      BinomEdge(n - 1, k - 1);
      BinomEdge(n - 1, k);
      assert k == 1 || k * Binom(n, k) == 0;
    } else if k == 1 {
      Absorption(n - 1, 1);
    } else {
      Absorption(n - 1, k - 1);
      Absorption(n - 1, k);
      AbsorptionStep(n, k, Binom(n - 1, k - 1), Binom(n - 1, k), Binom(n - 2, k - 2), Binom(n - 2, k - 1));
    }
  }

  lemma AbsorptionStep(n: nat, k: nat, a: nat, a': nat, b: nat, c: nat)
    requires (k - 1) * a == (n - 1) * b && k * a' == (n - 1) * c && a == b + c
    ensures k * (a + a') == n * a
  {
    calc {
      k * (a + a');
      (k - 1) * a + a + k * a';
      (n - 1) * b + a + (n - 1) * c;
      { assert (n - 1) * b + (n - 1) * c == (n - 1) * (b + c); }
      (n - 1) * a + a;
      n * a;
    }
  }

  /** `p` divides no product unless it divides a factor. */
  ghost predicate NoZeroDivisors(p: nat) {
    p >= 2 && forall a: nat, b: nat :: ZeroProduct(p, a, b)
  }

  ghost predicate ZeroProduct(p: nat, a: nat, b: nat)
    requires p >= 2
  {
    a * b % p == 0 ==> a % p == 0 || b % p == 0
  }

  lemma BinomDivisible(p: nat, k: nat)
    requires NoZeroDivisors(p) && 0 < k < p
    ensures Binom(p, k) % p == 0
  {
    Absorption(p, k);
    DividesFactor(p, k, Binom(p, k), Binom(p - 1, k - 1));
  }

  lemma DividesFactor(p: nat, k: nat, c: nat, d: nat)
    requires NoZeroDivisors(p) && 0 < k < p && k * c == p * d
    ensures c % p == 0
  {
    MultipleMod(p, d);
    ModSmall(k, p);
    assert ZeroProduct(p, k, c);
  }

  ghost function Term<T>(R: Ring<T>, x: T, y: T, n: nat, k: nat): T
    requires k <= n
  {
    Times(R, Binom(n, k), R.mul(Pow(R, x, k), Pow(R, y, n - k)))
  }

  /** The first `m` terms of the expansion of `(x + y)^n`. */
  ghost function Partial<T>(R: Ring<T>, x: T, y: T, n: nat, m: nat): T
    requires m <= n + 1
  {
    if m == 0 then R.zero else R.add(Partial(R, x, y, n, m - 1), Term(R, x, y, n, m - 1))
  }

  /** `x` or `y` times a monomial. */
  lemma MonomialStep<T(!new)>(R: Ring<T>, x: T, y: T, c: nat, i: nat, j: nat)
    requires CommRing(R)
    ensures R.mul(x, Times(R, c, R.mul(Pow(R, x, i), Pow(R, y, j)))) ==
            Times(R, c, R.mul(Pow(R, x, i + 1), Pow(R, y, j)))
    ensures R.mul(y, Times(R, c, R.mul(Pow(R, x, i), Pow(R, y, j)))) ==
            Times(R, c, R.mul(Pow(R, x, i), Pow(R, y, j + 1)))
  {
    var a, b := Pow(R, x, i), Pow(R, y, j);
    TimesMul(R, c, R.mul(a, b), x);
    TimesMul(R, c, R.mul(a, b), y);
    PowStep(R, x, i);
    PowStep(R, y, j);
    assert Laws(R, x, a, b);
    assert Laws(R, y, a, b);
    assert Laws(R, a, y, b);
  }

  /** `x + y` times the term at `k` raises one power or the other. */
  lemma TermStep<T(!new)>(R: Ring<T>, x: T, y: T, n: nat, k: nat)
    requires CommRing(R) && k <= n
    ensures R.mul(R.add(x, y), Term(R, x, y, n, k)) == R.add(Side(R, x, y, n, k), Up(R, x, y, n, k))
  {
    var t := Term(R, x, y, n, k);
    MulAdd(R, x, y, t);
    MonomialStep(R, x, y, Binom(n, k), k, n - k);
    assert Laws(R, Up(R, x, y, n, k), Side(R, x, y, n, k), t);
  }

  ghost function Up<T>(R: Ring<T>, x: T, y: T, n: nat, k: nat): T
    requires k <= n
  {
    Times(R, Binom(n, k), R.mul(Pow(R, x, k + 1), Pow(R, y, n - k)))
  }

  ghost function Side<T>(R: Ring<T>, x: T, y: T, n: nat, k: nat): T
    requires k <= n
  {
    Times(R, Binom(n, k), R.mul(Pow(R, x, k), Pow(R, y, n - k + 1)))
  }

  /** Pascal's rule for terms. */
  lemma TermPascal<T(!new)>(R: Ring<T>, x: T, y: T, n: nat, k: nat)
    requires CommRing(R) && k <= n
    ensures k == 0 ==> Term(R, x, y, n + 1, k) == Side(R, x, y, n, k)
    ensures k > 0 ==> Term(R, x, y, n + 1, k) == R.add(Up(R, x, y, n, k - 1), Side(R, x, y, n, k))
  {
    if k > 0 {
      TimesAdd(R, Binom(n, k - 1), Binom(n, k), R.mul(Pow(R, x, k), Pow(R, y, n + 1 - k)));
    }
  }

  lemma {:induction false} PartialStep<T(!new)>(R: Ring<T>, x: T, y: T, n: nat, m: nat)
    requires CommRing(R) && m <= n
    ensures R.mul(R.add(x, y), Partial(R, x, y, n, m + 1)) == R.add(Partial(R, x, y, n + 1, m + 1), Up(R, x, y, n, m))
    decreases m
  {
    var s, p, t, q, t' := R.add(x, y), Partial(R, x, y, n, m), Term(R, x, y, n, m), Partial(R, x, y, n + 1, m),
      Term(R, x, y, n + 1, m);
    var side, up := Side(R, x, y, n, m), Up(R, x, y, n, m);
    TermStep(R, x, y, n, m);
    TermPascal(R, x, y, n, m);
    if m == 0 {
      CombineTerms(R, s, p, t, q, R.zero, side, up, t');
    } else {
      PartialStep(R, x, y, n, m - 1);
      CombineTerms(R, s, p, t, q, Up(R, x, y, n, m - 1), side, up, t');
    }
  }

  lemma CombineTerms<T(!new)>(R: Ring<T>, s: T, p: T, t: T, q: T, below: T, side: T, up: T, t': T)
    requires CommRing(R) && R.mul(s, t) == R.add(side, up)
    requires (R.mul(s, p) == R.add(q, below) && t' == R.add(below, side)) || (p == q == below == R.zero && t' == side)
    ensures R.mul(s, R.add(p, t)) == R.add(R.add(q, t'), up)
  {
    assert Laws(R, s, p, t);
    if R.mul(s, p) == R.add(q, below) && t' == R.add(below, side) {
      assert Laws(R, R.add(q, below), side, up);
      assert Laws(R, q, below, side);
    } else {
      MulZero(R, s);
      assert Laws(R, R.zero, side, up);
    }
  }

  lemma {:induction false} BinomialTheorem<T(!new)>(R: Ring<T>, x: T, y: T, n: nat)
    requires CommRing(R)
    ensures Pow(R, R.add(x, y), n) == Partial(R, x, y, n, n + 1)
    decreases n
  {
    var s := R.add(x, y);
    if n == 0 {
      PowStep(R, s, 0); PowStep(R, x, 0); PowStep(R, y, 0);
      assert Laws(R, R.one, R.one, R.one);
      TimesStep(R, R.one, 0);
      assert Partial(R, x, y, 0, 0) == R.zero;
      assert Laws(R, R.zero, R.one, R.one);
      assert Laws(R, R.one, R.zero, R.zero);
    } else {
      BinomialTheorem(R, x, y, n - 1);
      PowStep(R, s, n - 1);
      PartialStep(R, x, y, n - 1, n - 1);
      BinomEdge(n - 1, n - 1);
      BinomEdge(n, n);
    }
  }

  /** Every element added to itself `p` times vanishes. */
  ghost predicate Characteristic<T(!new)>(R: Ring<T>, p: nat) {
    forall x :: Times(R, p, x) == R.zero
  }

  lemma TermVanishes<T(!new)>(R: Ring<T>, p: nat, x: T, y: T, k: nat)
    requires CommRing(R) && Characteristic(R, p) && NoZeroDivisors(p) && 0 < k < p
    ensures Term(R, x, y, p, k) == R.zero
  {
    BinomDivisible(p, k);
    var q := Binom(p, k) / p;
    assert Binom(p, k) == p * q;
    var mono := R.mul(Pow(R, x, k), Pow(R, y, p - k));
    TimesTimes(R, p, q, mono);
    TimesZero(R, q);
  }

  lemma {:induction false} PartialIsFirst<T(!new)>(R: Ring<T>, p: nat, x: T, y: T, m: nat)
    requires CommRing(R) && Characteristic(R, p) && NoZeroDivisors(p) && 1 <= m <= p
    ensures Partial(R, x, y, p, m) == Pow(R, y, p)
    decreases m
  {
    if m == 1 {
      var t := Pow(R, y, p);
      PowStep(R, x, 0);
      assert Laws(R, R.one, t, t);
      assert Laws(R, t, R.one, R.one);
      TimesStep(R, t, 0);
      assert Times(R, 0 + 1, t) == R.add(t, R.zero);
      assert Laws(R, t, R.zero, R.zero);
      assert Partial(R, x, y, p, 0) == R.zero;
    } else {
      PartialIsFirst(R, p, x, y, m - 1);
      TermVanishes(R, p, x, y, m - 1);
      assert Laws(R, Pow(R, y, p), R.zero, R.zero);
    }
  }

  /** The p-th power map is additive in characteristic p. */
  lemma PowPAdditive<T(!new)>(R: Ring<T>, p: nat, x: T, y: T)
    requires CommRing(R) && Characteristic(R, p) && NoZeroDivisors(p)
    ensures Pow(R, R.add(x, y), p) == R.add(Pow(R, x, p), Pow(R, y, p))
  {
    BinomialTheorem(R, x, y, p);
    PartialIsFirst(R, p, x, y, p);
    BinomEdge(p, p);
    var t := Pow(R, x, p);
    PowStep(R, y, 0);
    assert Laws(R, t, R.one, R.one);
    TimesStep(R, t, 0);
    assert Times(R, 0 + 1, t) == R.add(t, R.zero);
    assert Laws(R, t, R.zero, R.zero);
    assert Laws(R, t, Pow(R, y, p), t);
  }
}
