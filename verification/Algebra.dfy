/** Commutative rings as records of operations, with powers and multiples. */
module Algebra {

  datatype Ring<!T> = Ring(zero: T, one: T, add: (T, T) -> T, neg: T -> T, mul: (T, T) -> T)

  ghost predicate Laws<T>(R: Ring<T>, x: T, y: T, z: T) {
    && R.add(x, y) == R.add(y, x)
    && R.add(R.add(x, y), z) == R.add(x, R.add(y, z))
    && R.add(x, R.zero) == x
    && R.add(x, R.neg(x)) == R.zero
    && R.mul(x, y) == R.mul(y, x)
    && R.mul(R.mul(x, y), z) == R.mul(x, R.mul(y, z))
    && R.mul(x, R.one) == x
    && R.mul(x, R.add(y, z)) == R.add(R.mul(x, y), R.mul(x, z))
  }

  ghost predicate CommRing<T(!new)>(R: Ring<T>) {
    forall x, y, z :: Laws(R, x, y, z)
  }

  function Sub<T>(R: Ring<T>, x: T, y: T): T {
    R.add(x, R.neg(y))
  }

  // Rearrangements.

  lemma AddSwap<T(!new)>(R: Ring<T>, a: T, b: T, c: T, d: T)
    requires CommRing(R)
    ensures R.add(R.add(a, b), R.add(c, d)) == R.add(R.add(a, c), R.add(b, d))
  {
    assert Laws(R, a, b, R.add(c, d));
    assert Laws(R, b, c, d);
    assert Laws(R, c, b, d);
    assert Laws(R, a, c, R.add(b, d));
  }

  lemma MulSwap<T(!new)>(R: Ring<T>, a: T, b: T, c: T, d: T)
    requires CommRing(R)
    ensures R.mul(R.mul(a, b), R.mul(c, d)) == R.mul(R.mul(a, c), R.mul(b, d))
  {
    assert Laws(R, a, b, R.mul(c, d));
    assert Laws(R, b, c, d);
    assert Laws(R, c, b, d);
    assert Laws(R, a, c, R.mul(b, d));
  }

  lemma AddCancel<T(!new)>(R: Ring<T>, a: T, b: T, c: T)
    requires CommRing(R) && R.add(a, b) == R.add(a, c)
    ensures b == c
  {
    forall x
      ensures R.add(R.neg(a), R.add(a, x)) == x
    {
      assert Laws(R, R.neg(a), a, x);
      assert Laws(R, a, R.neg(a), x);
      assert Laws(R, R.zero, x, x);
      assert Laws(R, x, R.zero, x);
    }
  }

  /** Multiplication distributes from the right too. */
  lemma MulAdd<T(!new)>(R: Ring<T>, x: T, y: T, z: T)
    requires CommRing(R)
    ensures R.mul(R.add(x, y), z) == R.add(R.mul(x, z), R.mul(y, z))
  {
    assert Laws(R, z, x, y);
    assert Laws(R, R.add(x, y), z, z);
    assert Laws(R, x, z, z);
    assert Laws(R, y, z, z);
  }

  lemma MulZero<T(!new)>(R: Ring<T>, x: T)
    requires CommRing(R)
    ensures R.mul(x, R.zero) == R.zero && R.mul(R.zero, x) == R.zero
  {
    assert Laws(R, x, R.zero, R.zero);
    assert Laws(R, R.zero, R.zero, R.zero);
    assert Laws(R, R.mul(x, R.zero), R.zero, R.zero);
    AddCancel(R, R.mul(x, R.zero), R.mul(x, R.zero), R.zero);
  }

  /** The additive inverse is unique. */
  lemma NegUnique<T(!new)>(R: Ring<T>, x: T, y: T)
    requires CommRing(R) && R.add(x, y) == R.zero
    ensures y == R.neg(x)
  {
    assert Laws(R, x, x, x);
    AddCancel(R, x, y, R.neg(x));
  }

  lemma NegLaws<T(!new)>(R: Ring<T>, x: T, y: T)
    requires CommRing(R)
    ensures R.neg(R.neg(x)) == x && R.neg(R.zero) == R.zero
    ensures R.mul(R.neg(x), y) == R.neg(R.mul(x, y)) && R.mul(x, R.neg(y)) == R.neg(R.mul(x, y))
    ensures R.mul(R.neg(x), R.neg(y)) == R.mul(x, y)
    ensures R.neg(R.add(x, y)) == R.add(R.neg(x), R.neg(y))
  {
    assert Laws(R, R.neg(x), x, x); assert Laws(R, x, R.neg(x), x); assert Laws(R, y, y, y);
    NegUnique(R, R.neg(x), x);
    assert Laws(R, R.zero, R.zero, R.zero);
    NegUnique(R, R.zero, R.zero);
    NegMul(R, x, y);
    NegMul(R, y, x);
    NegMul(R, x, R.neg(y));
    assert Laws(R, x, y, y); assert Laws(R, x, R.neg(y), y);
    assert Laws(R, R.mul(x, y), R.mul(x, y), y); assert Laws(R, R.neg(R.mul(x, y)), R.mul(x, y), y);
    NegUnique(R, R.neg(R.mul(x, y)), R.mul(x, y));
    AddSwap(R, x, y, R.neg(x), R.neg(y));
    NegUnique(R, R.add(x, y), R.add(R.neg(x), R.neg(y)));
  }

  lemma NegMul<T(!new)>(R: Ring<T>, x: T, y: T)
    requires CommRing(R)
    ensures R.mul(R.neg(x), y) == R.neg(R.mul(x, y))
  {
    MulAdd(R, x, R.neg(x), y);
    assert Laws(R, x, x, x);
    MulZero(R, y);
    NegUnique(R, R.mul(x, y), R.mul(R.neg(x), y));
  }

  lemma SubLaws<T(!new)>(R: Ring<T>, x: T, y: T)
    requires CommRing(R)
    ensures Sub(R, x, x) == R.zero
    ensures Sub(R, x, y) == R.zero ==> x == y
    ensures R.add(Sub(R, x, y), y) == x
    ensures Sub(R, R.add(x, y), y) == x
    ensures R.neg(Sub(R, x, y)) == Sub(R, y, x)
  {
    assert Laws(R, x, x, x);
    assert Laws(R, y, R.neg(y), R.neg(y));
    assert Laws(R, R.neg(y), y, y);
    assert Laws(R, x, R.neg(y), y);
    assert Laws(R, x, y, R.neg(y));
    assert Laws(R, R.zero, y, y);
    assert Laws(R, y, R.zero, y);
    NegLaws(R, x, R.neg(y));
    NegLaws(R, y, y);
    assert Laws(R, R.neg(x), y, y);
  }

  lemma MulSub<T(!new)>(R: Ring<T>, x: T, y: T, z: T)
    requires CommRing(R)
    ensures R.mul(x, Sub(R, y, z)) == Sub(R, R.mul(x, y), R.mul(x, z))
    ensures R.mul(Sub(R, y, z), x) == Sub(R, R.mul(y, x), R.mul(z, x))
  {
    assert Laws(R, x, y, R.neg(z));
    NegLaws(R, x, z);
    NegLaws(R, z, x);
    MulAdd(R, y, R.neg(z), x);
  }

  // Powers and multiples, as products and sums of repeated elements.

  ghost predicate Repeats<T>(s: seq<T>, x: T, n: nat) {
    |s| == n && forall i :: 0 <= i < n ==> s[i] == x
  }

  ghost function Fold<T>(op: (T, T) -> T, unit: T, s: seq<T>): T {
    if s == [] then unit else op(s[0], Fold(op, unit, s[1..]))
  }

  /** `x` multiplied `n` times. The sequence of factors is unique; naming it keeps large exponents folded. */
  ghost function Pow<T>(R: Ring<T>, x: T, n: nat): T {
    assert Repeats(seq(n, i => x), x, n);
    var s :| Repeats(s, x, n); Fold(R.mul, R.one, s)
  }

  /** `x` added `n` times. */
  ghost function Times<T>(R: Ring<T>, n: nat, x: T): T {
    assert Repeats(seq(n, i => x), x, n);
    var s :| Repeats(s, x, n); Fold(R.add, R.zero, s)
  }

  lemma PowFold<T(!new)>(R: Ring<T>, x: T, n: nat, s: seq<T>)
    requires Repeats(s, x, n)
    ensures Pow(R, x, n) == Fold(R.mul, R.one, s)
    ensures Times(R, n, x) == Fold(R.add, R.zero, s)
  {
    forall t | Repeats(t, x, n)
      ensures t == s
    {
    }
  }

  lemma PowStep<T(!new)>(R: Ring<T>, x: T, n: nat)
    ensures Pow(R, x, 0) == R.one
    ensures Pow(R, x, n + 1) == R.mul(x, Pow(R, x, n))
  {
    var s := seq(n, i => x);
    PowFold(R, x, 0, []);
    PowFold(R, x, n, s);
    PowFold(R, x, n + 1, [x] + s);
    assert ([x] + s)[1..] == s;
  }

  lemma TimesStep<T(!new)>(R: Ring<T>, x: T, n: nat)
    ensures Times(R, 0, x) == R.zero
    ensures Times(R, n + 1, x) == R.add(x, Times(R, n, x))
  {
    var s := seq(n, i => x);
    PowFold(R, x, 0, []);
    PowFold(R, x, n, s);
    PowFold(R, x, n + 1, [x] + s);
    assert ([x] + s)[1..] == s;
  }

  lemma PowSmall<T(!new)>(R: Ring<T>, x: T)
    requires CommRing(R)
    ensures Pow(R, x, 0) == R.one && Pow(R, x, 1) == x && Pow(R, x, 2) == R.mul(x, x)
  {
    PowStep(R, x, 0);
    PowStep(R, x, 1);
    assert Laws(R, x, x, x);
  }

  lemma {:induction false} PowAdd<T(!new)>(R: Ring<T>, x: T, m: nat, n: nat)
    requires CommRing(R)
    ensures Pow(R, x, m + n) == R.mul(Pow(R, x, m), Pow(R, x, n))
    decreases m
  {
    PowStep(R, x, 0);
    if m == 0 {
      assert Laws(R, R.one, Pow(R, x, n), R.one);
      assert Laws(R, Pow(R, x, n), R.one, R.one);
    } else {
      PowAdd(R, x, m - 1, n);
      PowStep(R, x, m - 1);
      PowStep(R, x, m - 1 + n);
      assert Laws(R, x, Pow(R, x, m - 1), Pow(R, x, n));
    }
  }

  lemma {:induction false} PowMul<T(!new)>(R: Ring<T>, x: T, m: nat, n: nat)
    requires CommRing(R)
    ensures Pow(R, Pow(R, x, m), n) == Pow(R, x, m * n)
    decreases n
  {
    PowStep(R, Pow(R, x, m), 0);
    PowStep(R, x, 0);
    if n == 0 {
      assert m * 0 == 0;
    } else {
      PowMul(R, x, m, n - 1);
      PowStep(R, Pow(R, x, m), n - 1);
      PowAdd(R, x, m, m * (n - 1));
      assert m + m * (n - 1) == m * n;
    }
  }

  lemma {:induction false} PowProduct<T(!new)>(R: Ring<T>, x: T, y: T, n: nat)
    requires CommRing(R)
    ensures Pow(R, R.mul(x, y), n) == R.mul(Pow(R, x, n), Pow(R, y, n))
    decreases n
  {
    PowStep(R, x, 0); PowStep(R, y, 0); PowStep(R, R.mul(x, y), 0);
    if n == 0 {
      assert Laws(R, R.one, R.one, R.one);
    } else {
      PowProduct(R, x, y, n - 1);
      PowStep(R, x, n - 1); PowStep(R, y, n - 1); PowStep(R, R.mul(x, y), n - 1);
      MulSwap(R, x, y, Pow(R, x, n - 1), Pow(R, y, n - 1));
    }
  }

  lemma {:induction false} PowOne<T(!new)>(R: Ring<T>, n: nat)
    requires CommRing(R)
    ensures Pow(R, R.one, n) == R.one
    decreases n
  {
    PowStep(R, R.one, 0);
    if n > 0 {
      PowOne(R, n - 1);
      PowStep(R, R.one, n - 1);
      assert Laws(R, R.one, R.one, R.one);
    }
  }

  lemma {:induction false} TimesAdd<T(!new)>(R: Ring<T>, m: nat, n: nat, x: T)
    requires CommRing(R)
    ensures Times(R, m + n, x) == R.add(Times(R, m, x), Times(R, n, x))
    decreases m
  {
    TimesStep(R, x, 0);
    if m == 0 {
      assert Laws(R, R.zero, Times(R, n, x), R.zero);
      assert Laws(R, Times(R, n, x), R.zero, R.zero);
    } else {
      TimesAdd(R, m - 1, n, x);
      TimesStep(R, x, m - 1);
      TimesStep(R, x, m - 1 + n);
      assert Laws(R, x, Times(R, m - 1, x), Times(R, n, x));
    }
  }

  lemma {:induction false} TimesTimes<T(!new)>(R: Ring<T>, m: nat, n: nat, x: T)
    requires CommRing(R)
    ensures Times(R, n, Times(R, m, x)) == Times(R, m * n, x)
    decreases n
  {
    TimesStep(R, Times(R, m, x), 0);
    TimesStep(R, x, 0);
    if n == 0 {
      assert m * 0 == 0;
    } else {
      TimesTimes(R, m, n - 1, x);
      TimesStep(R, Times(R, m, x), n - 1);
      TimesAdd(R, m, m * (n - 1), x);
      assert m + m * (n - 1) == m * n;
    }
  }

  lemma {:induction false} TimesZero<T(!new)>(R: Ring<T>, n: nat)
    requires CommRing(R)
    ensures Times(R, n, R.zero) == R.zero
    decreases n
  {
    TimesStep(R, R.zero, 0);
    if n > 0 {
      TimesZero(R, n - 1);
      TimesStep(R, R.zero, n - 1);
      assert Laws(R, R.zero, R.zero, R.zero);
    }
  }

  lemma {:induction false} TimesMul<T(!new)>(R: Ring<T>, n: nat, x: T, y: T)
    requires CommRing(R)
    ensures R.mul(y, Times(R, n, x)) == Times(R, n, R.mul(y, x))
    decreases n
  {
    TimesStep(R, x, 0);
    TimesStep(R, R.mul(y, x), 0);
    if n == 0 {
      MulZero(R, y);
    } else {
      TimesMul(R, n - 1, x, y);
      TimesStep(R, x, n - 1);
      TimesStep(R, R.mul(y, x), n - 1);
      assert Laws(R, y, x, Times(R, n - 1, x));
    }
  }
}
