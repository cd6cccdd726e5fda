/** Norm and inversion in the septic field, as the source computes them. */
module SepticInverse {
  import opened Algebra
  import opened KoalaBear
  import opened Septic
  import opened SepticContext
  import opened SepticField

  // Base-field exponentiation and inversion.

  /** Square-and-multiply exponentiation. */
  function Exp(x: Fp, n: nat): (r: Fp)
    ensures r == Pow(FpRing(), x, n)
    decreases n, x
  {
    ExpStep(x, n);
    if n == 0 then 1
    else if n % 2 == 1 then Mul(x, Exp(Mul(x, x), n / 2))
    else Exp(Mul(x, x), n / 2)
  }

  lemma ExpStep(x: Fp, n: nat)
    ensures n == 0 ==> Pow(FpRing(), x, n) == 1
    ensures n % 2 == 1 ==> Pow(FpRing(), x, n) == Mul(x, Pow(FpRing(), Mul(x, x), n / 2))
    ensures n % 2 == 0 ==> Pow(FpRing(), x, n) == Pow(FpRing(), Mul(x, x), n / 2)
  {
    FpIsRing();
    PowSmall(FpRing(), x);
    PowMul(FpRing(), x, 2, n / 2);
    PowStep(FpRing(), x, 2 * (n / 2));
  }

  function Inverse(x: Fp): (y: Fp)
    requires x != 0
    ensures Mul(x, y) == 1 && y != 0
  {
    var y := Inv(x);
    Exp(x, P - 2)
  }

  // No zero divisors.

  lemma ProductNonzero(k: Arith, a: E, b: E)
    requires Koala(k) && a != k.S.zero && b != k.S.zero
    ensures k.S.mul(a, b) != k.S.zero
  {
    var S := k.S;
    if S.mul(a, b) == S.zero {
      var a' := Invertible(k, a);
      assert Laws(S, a', a, b);
      assert Laws(S, a, a', a);
      assert Laws(S, S.one, b, b);
      assert Laws(S, b, S.one, b);
      MulZero(S, a');
    }
  }

  lemma FrobNonzero(k: Arith, a: E)
    requires Koala(k) && a != k.S.zero
    ensures Frob(k, a) != k.S.zero
  {
    var b := Invertible(k, a);
    FrobMul(k, a, b);
    FrobBase(k, 1);
    MulZero(k.S, Frob(k, b));
  }

  // The norm.

  /** The product of the six proper conjugates. */
  function PowR1(k: Arith, a: E): E {
    var base := k.S.mul(k.phi(a), k.phi2(a));
    var baseP2 := k.phi2(base);
    var baseP4 := k.phi2(baseP2);
    k.S.mul(k.S.mul(base, baseP2), baseP4)
  }

  function PowR(k: Arith, a: E): E {
    k.S.mul(PowR1(k, a), a)
  }

  ghost function Nested(S: Ring<E>, x0: E, x1: E, x2: E, x3: E, x4: E, x5: E, x6: E): E {
    S.mul(x0, S.mul(x1, S.mul(x2, S.mul(x3, S.mul(x4, S.mul(x5, x6))))))
  }

  lemma Flatten(S: Ring<E>, x0: E, x1: E, x2: E, x3: E, x4: E, x5: E, x6: E)
    requires CommRing(S)
    ensures S.mul(S.mul(S.mul(S.mul(x1, x2), S.mul(x3, x4)), S.mul(x5, x6)), x0) ==
            Nested(S, x0, x1, x2, x3, x4, x5, x6)
  {
    var t := S.mul(x5, x6);
    assert Laws(S, S.mul(x1, x2), S.mul(x3, x4), t);
    assert Laws(S, x1, x2, S.mul(S.mul(x3, x4), t));
    assert Laws(S, x3, x4, t);
    assert Laws(S, S.mul(S.mul(S.mul(x1, x2), S.mul(x3, x4)), t), x0, x0);
  }

  /** Moving the first factor to the end changes nothing. */
  lemma Rotate(S: Ring<E>, x0: E, x1: E, x2: E, x3: E, x4: E, x5: E, x6: E)
    requires CommRing(S)
    ensures Nested(S, x0, x1, x2, x3, x4, x5, x6) == Nested(S, x1, x2, x3, x4, x5, x6, x0)
  {
    var y5 := S.mul(x5, x6); var y4 := S.mul(x4, y5); var y3 := S.mul(x3, y4); var y2 := S.mul(x2, y3);
    var y1 := S.mul(x1, y2);
    assert Laws(S, x0, y1, x0);
    assert Laws(S, x1, y2, x0);
    assert Laws(S, x2, y3, x0);
    assert Laws(S, x3, y4, x0);
    assert Laws(S, x4, y5, x0);
    assert Laws(S, x5, x6, x0);
  }

  lemma FrobNested(k: Arith, x0: E, x1: E, x2: E, x3: E, x4: E, x5: E, x6: E)
    requires Koala(k)
    ensures Frob(k, Nested(k.S, x0, x1, x2, x3, x4, x5, x6)) ==
            Nested(k.S, Frob(k, x0), Frob(k, x1), Frob(k, x2), Frob(k, x3), Frob(k, x4), Frob(k, x5), Frob(k, x6))
  {
    var S := k.S;
    var y5 := S.mul(x5, x6); var y4 := S.mul(x4, y5); var y3 := S.mul(x3, y4); var y2 := S.mul(x2, y3);
    var y1 := S.mul(x1, y2);
    FrobMul(k, x5, x6);
    FrobMul(k, x4, y5);
    FrobMul(k, x3, y4);
    FrobMul(k, x2, y3);
    FrobMul(k, x1, y2);
    FrobMul(k, x0, y1);
  }

  /** The product of all seven conjugates. */
  ghost function Norm(k: Arith, a: E): E {
    Nested(k.S, a, FrobIter(k, a, 1), FrobIter(k, a, 2), FrobIter(k, a, 3), FrobIter(k, a, 4), FrobIter(k, a, 5),
      FrobIter(k, a, 6))
  }

  lemma {:induction false} FrobIterAdd(k: Arith, a: E, m: nat, n: nat)
    ensures FrobIter(k, FrobIter(k, a, m), n) == FrobIter(k, a, m + n)
    decreases n
  {
    if n > 0 {
      FrobIterAdd(k, a, m, n - 1);
    }
  }

  lemma {:induction false} FrobIterMul(k: Arith, a: E, b: E, n: nat)
    requires Koala(k)
    ensures FrobIter(k, k.S.mul(a, b), n) == k.S.mul(FrobIter(k, a, n), FrobIter(k, b, n))
    decreases n
  {
    if n > 0 {
      FrobIterMul(k, a, b, n - 1);
      FrobMul(k, FrobIter(k, a, n - 1), FrobIter(k, b, n - 1));
    }
  }

  lemma PhiIter(k: Arith, a: E, n: nat)
    requires Koala(k)
    ensures k.phi(FrobIter(k, a, n)) == FrobIter(k, a, n + 1)
    ensures k.phi2(FrobIter(k, a, n)) == FrobIter(k, a, n + 2)
  {
    var x := FrobIter(k, a, n);
    PhiIsFrob(k, x);
    Phi2IsFrobTwice(k, x);
    assert FrobIter(k, a, n + 2) == Frob(k, FrobIter(k, a, n + 1));
  }

  lemma Phi2Product(k: Arith, a: E, m: nat, n: nat)
    requires Koala(k)
    ensures k.phi2(k.S.mul(FrobIter(k, a, m), FrobIter(k, a, n))) ==
            k.S.mul(FrobIter(k, a, m + 2), FrobIter(k, a, n + 2))
  {
    var x, y := FrobIter(k, a, m), FrobIter(k, a, n);
    Phi2IsFrobTwice(k, k.S.mul(x, y));
    FrobMul(k, x, y);
    FrobMul(k, Frob(k, x), Frob(k, y));
    PhiIter(k, a, m);
    PhiIter(k, a, n);
    Phi2IsFrobTwice(k, x);
    Phi2IsFrobTwice(k, y);
  }

  /** `pow_r` is the norm. */
  lemma PowRIsNorm(k: Arith, a: E)
    requires Koala(k)
    ensures PowR(k, a) == Norm(k, a)
  {
    var f1, f2, f3, f4, f5, f6 := FrobIter(k, a, 1), FrobIter(k, a, 2), FrobIter(k, a, 3), FrobIter(k, a, 4),
      FrobIter(k, a, 5), FrobIter(k, a, 6);
    assert FrobIter(k, a, 0) == a;
    PhiIter(k, a, 0);
    Phi2Product(k, a, 1, 2);
    Phi2Product(k, a, 3, 4);
    Flatten(k.S, a, f1, f2, f3, f4, f5, f6);
  }

  /** The norm lies in the base field and vanishes only at zero. */
  lemma NormIsBase(k: Arith, a: E)
    requires Koala(k)
    ensures Norm(k, a) == B(Norm(k, a).c0)
    ensures a != k.S.zero ==> Norm(k, a).c0 != 0
  {
    var f1, f2, f3, f4, f5, f6 := FrobIter(k, a, 1), FrobIter(k, a, 2), FrobIter(k, a, 3), FrobIter(k, a, 4),
      FrobIter(k, a, 5), FrobIter(k, a, 6);
    FrobNested(k, a, f1, f2, f3, f4, f5, f6);
    OrderSeven(k, a);
    assert FrobIter(k, a, 7) == Frob(k, f6) && f1 == Frob(k, a) by { assert FrobIter(k, a, 0) == a; }
    Rotate(k.S, a, f1, f2, f3, f4, f5, f6);
    FixedField(k, Norm(k, a));
    if a != k.S.zero {
      NormNonzero(k, a);
    }
  }

  lemma {:induction false} FrobIterNonzero(k: Arith, a: E, n: nat)
    requires Koala(k) && a != k.S.zero
    ensures FrobIter(k, a, n) != k.S.zero
    decreases n
  {
    if n > 0 {
      FrobIterNonzero(k, a, n - 1);
      FrobNonzero(k, FrobIter(k, a, n - 1));
    }
  }

  lemma NormNonzero(k: Arith, a: E)
    requires Koala(k) && a != k.S.zero
    ensures Norm(k, a) != k.S.zero
  {
    var S := k.S;
    var f1, f2, f3, f4, f5, f6 := FrobIter(k, a, 1), FrobIter(k, a, 2), FrobIter(k, a, 3), FrobIter(k, a, 4),
      FrobIter(k, a, 5), FrobIter(k, a, 6);
    FrobIterNonzero(k, a, 1); FrobIterNonzero(k, a, 2); FrobIterNonzero(k, a, 3);
    FrobIterNonzero(k, a, 4); FrobIterNonzero(k, a, 5); FrobIterNonzero(k, a, 6);
    var y5 := S.mul(f5, f6); var y4 := S.mul(f4, y5); var y3 := S.mul(f3, y4); var y2 := S.mul(f2, y3);
    var y1 := S.mul(f1, y2);
    ProductNonzero(k, f5, f6);
    ProductNonzero(k, f4, y5);
    ProductNonzero(k, f3, y4);
    ProductNonzero(k, f2, y3);
    ProductNonzero(k, f1, y2);
    ProductNonzero(k, a, y1);
  }

  lemma NestedProduct(S: Ring<E>, x0: E, x1: E, x2: E, x3: E, x4: E, x5: E, x6: E,
                      z0: E, z1: E, z2: E, z3: E, z4: E, z5: E, z6: E)
    requires CommRing(S)
    ensures Nested(S, S.mul(x0, z0), S.mul(x1, z1), S.mul(x2, z2), S.mul(x3, z3), S.mul(x4, z4), S.mul(x5, z5),
                   S.mul(x6, z6)) ==
            S.mul(Nested(S, x0, x1, x2, x3, x4, x5, x6), Nested(S, z0, z1, z2, z3, z4, z5, z6))
  {
    var y5 := S.mul(x5, x6); var y4 := S.mul(x4, y5); var y3 := S.mul(x3, y4); var y2 := S.mul(x2, y3);
    var y1 := S.mul(x1, y2);
    var w5 := S.mul(z5, z6); var w4 := S.mul(z4, w5); var w3 := S.mul(z3, w4); var w2 := S.mul(z2, w3);
    var w1 := S.mul(z1, w2);
    MulSwap(S, x5, z5, x6, z6);
    MulSwap(S, x4, z4, y5, w5);
    MulSwap(S, x3, z3, y4, w4);
    MulSwap(S, x2, z2, y3, w3);
    MulSwap(S, x1, z1, y2, w2);
    MulSwap(S, x0, z0, y1, w1);
  }

  lemma NormProduct(k: Arith, a: E, b: E)
    requires Koala(k)
    ensures Norm(k, k.S.mul(a, b)) == k.S.mul(Norm(k, a), Norm(k, b))
  {
    FrobIterMul(k, a, b, 1); FrobIterMul(k, a, b, 2); FrobIterMul(k, a, b, 3);
    FrobIterMul(k, a, b, 4); FrobIterMul(k, a, b, 5); FrobIterMul(k, a, b, 6);
    NestedProduct(k.S,
                  a, FrobIter(k, a, 1), FrobIter(k, a, 2), FrobIter(k, a, 3), FrobIter(k, a, 4), FrobIter(k, a, 5),
                  FrobIter(k, a, 6),
                  b, FrobIter(k, b, 1), FrobIter(k, b, 2), FrobIter(k, b, 3), FrobIter(k, b, 4), FrobIter(k, b, 5),
                  FrobIter(k, b, 6));
  }

  // Inversion.

  /** Inversion by the norm; like the source it is undefined where the norm's coefficient is zero. */
  function InvSeptic(k: Arith, a: E): E
    requires PowR(k, a).c0 != 0
  {
    k.scale(Inverse(PowR(k, a).c0), PowR1(k, a))
  }

  /** Inversion is defined exactly off zero and gives the inverse. */
  lemma InvCorrect(k: Arith, a: E)
    requires Koala(k)
    ensures PowR(k, a).c0 != 0 <==> a != k.S.zero
    ensures a != k.S.zero ==> k.S.mul(a, InvSeptic(k, a)) == k.S.one
  {
    var S := k.S;
    PowRIsNorm(k, a);
    NormIsBase(k, a);
    if a == S.zero {
      MulZero(S, PowR1(k, a));
    } else {
      var n0 := PowR(k, a).c0;
      var c := Inverse(n0);
      assert ScalesAt(k, c, PowR1(k, a));
      assert Laws(S, B(c), PowR1(k, a), a);
      assert Laws(S, a, S.mul(B(c), PowR1(k, a)), a);
      assert BaseAt(S, c, n0);
      FpLaws(c, n0, n0);
    }
  }

  /** For the source's operations: the inverse of every nonzero element, and of no other. */
  lemma SourceInverse(a: E)
    ensures var k := ArithOver(FpRing());
            && (PowR(k, a).c0 != 0 <==> a != SZero(FpRing()))
            && (a != SZero(FpRing()) ==> SMul(FpRing(), a, InvSeptic(k, a)) == FromBase(FpRing(), 1))
  {
    SourceIsKoala();
    InvCorrect(ArithOver(FpRing()), a);
  }

  // Quadratic character.

  function IsSquare(k: Arith, a: E): (Fp, bool) {
    var n0 := PowR(k, a).c0;
    (n0, Exp(n0, (P - 1) / 2) == 1)
  }

  lemma BaseSquaresPass(c: Fp)
    requires c != 0
    ensures Pow(FpRing(), Mul(c, c), (P - 1) / 2) == 1
  {
    FpIsRing();
    PowOfSquare(FpRing(), c, (P - 1) / 2);
    Fermat(c);
  }

  lemma PowOfSquare<T(!new)>(R: Ring<T>, c: T, h: nat)
    requires CommRing(R)
    ensures Pow(R, R.mul(c, c), h) == Pow(R, c, 2 * h)
  {
    PowSmall(R, c);
    PowMul(R, c, 2, h);
  }

  /** A nonzero square passes the test. */
  lemma SquaresPass(k: Arith, s: E)
    requires Koala(k) && s != k.S.zero
    ensures IsSquare(k, k.S.mul(s, s)).1
  {
    var n := k.S.mul(s, s);
    PowRIsNorm(k, n);
    NormProduct(k, s, s);
    NormIsBase(k, s);
    var c := Norm(k, s).c0;
    assert BaseAt(k.S, c, c);
    BaseSquaresPass(c);
  }
}
