/** Square roots in the septic field: an exponent chain, a norm, and Cipolla's algorithm for the norm. */
module SepticSqrt {
  import opened Wrappers
  import opened Modular
  import opened Algebra
  import opened Binomial
  import opened KoalaBear
  import opened Septic
  import opened SepticContext
  import opened SepticField
  import opened SepticInverse
  import opened Cipolla

  const H: nat := 1065353216  // (P - 1) / 2

  // Powers in the quadratic extension.

  lemma {:induction false} RealPow<T(!new)>(R: Ring<T>, r: T, a: T, n: nat)
    requires CommRing(R)
    ensures Pow(QuadRing(R, r), Quad(a, R.zero), n) == Quad(Pow(R, a, n), R.zero)
    decreases n
  {
    var Q := QuadRing(R, r);
    PowStep(Q, Quad(a, R.zero), 0);
    PowStep(R, a, 0);
    if n > 0 {
      RealPow(R, r, a, n - 1);
      PowStep(Q, Quad(a, R.zero), n - 1);
      PowStep(R, a, n - 1);
      RealProduct(R, r, a, Quad(Pow(R, a, n - 1), R.zero));
      MulZero(R, a);
    }
  }

  lemma RealProduct<T(!new)>(R: Ring<T>, r: T, a: T, x: Quad<T>)
    requires CommRing(R)
    ensures MulExt(R, r, Quad(a, R.zero), x) == Quad(R.mul(a, x.re), R.mul(a, x.im))
  {
    MulZero(R, r);
    MulZero(R, x.im);
    MulZero(R, x.re);
    assert Laws(R, R.mul(a, x.re), R.zero, R.zero);
    assert Laws(R, R.mul(a, x.im), R.zero, R.zero);
  }

  lemma OmegaSquared<T(!new)>(R: Ring<T>, r: T)
    requires CommRing(R)
    ensures MulExt(R, r, Quad(R.zero, R.one), Quad(R.zero, R.one)) == Quad(r, R.zero)
  {
    MulZero(R, R.zero);
    MulZero(R, R.one);
    assert Laws(R, r, R.one, R.one);
    assert Laws(R, R.zero, r, r);
    assert Laws(R, r, R.zero, r);
    assert Laws(R, R.zero, R.zero, r);
  }

  /** `w^(2h + 1)` is `r^h * w`. */
  lemma OmegaPow<T(!new)>(R: Ring<T>, r: T, h: nat)
    requires CommRing(R)
    ensures Pow(QuadRing(R, r), Quad(R.zero, R.one), 2 * h + 1) == Quad(R.zero, Pow(R, r, h))
  {
    var Q, o := QuadRing(R, r), Quad(R.zero, R.one);
    var e := Pow(R, r, h);
    QuadIsRing(R, r);
    PowSmall(Q, o);
    OmegaSquared(R, r);
    PowMul(Q, o, 2, h);
    RealPow(R, r, r, h);
    PowStep(Q, o, 2 * h);
    assert Laws(Q, o, Quad(e, R.zero), o);
    RealProduct(R, r, e, o);
    MulZero(R, e);
    assert Laws(R, e, R.one, R.one);
  }

  /** In odd characteristic p = 2h + 1, `(a + w)^p = a + r^h * w` for a base element with `a^p = a`. */
  lemma CipollaPower<T(!new)>(R: Ring<T>, r: T, a: T, h: nat)
    requires CommRing(R) && Characteristic(R, 2 * h + 1) && NoZeroDivisors(2 * h + 1) && Pow(R, a, 2 * h + 1) == a
    ensures Pow(QuadRing(R, r), Quad(a, R.one), 2 * h + 1) == Quad(a, Pow(R, r, h))
  {
    var Q, p := QuadRing(R, r), 2 * h + 1;
    var x, o := Quad(a, R.zero), Quad(R.zero, R.one);
    QuadIsRing(R, r);
    QuadCharacteristic(R, r, p);
    assert Laws(R, a, R.zero, R.zero);
    assert Laws(R, R.zero, R.one, R.one);
    assert Laws(R, R.one, R.zero, R.zero);
    assert Q.add(x, o) == Quad(a, R.one);
    PowPAdditive(Q, p, x, o);
    RealPow(R, r, a, p);
    OmegaPow(R, r, h);
    var e := Pow(R, r, h);
    assert Laws(R, R.zero, e, e);
    assert Laws(R, e, R.zero, e);
  }

  /** The square of the computed power, coefficient by coefficient. */
  lemma CipollaSquare<T(!new)>(R: Ring<T>, r: T, a: T, h: nat, x: Quad<T>)
    requires CommRing(R) && Characteristic(R, 2 * h + 1) && NoZeroDivisors(2 * h + 1) && Pow(R, a, 2 * h + 1) == a
    requires x == Pow(QuadRing(R, r), Quad(a, R.one), h + 1)
    ensures var e := Pow(R, r, h);
            MulExt(R, r, x, x) == Quad(R.add(R.mul(a, a), R.mul(r, e)), R.add(a, R.mul(e, a)))
  {
    var Q, b, e := QuadRing(R, r), Quad(a, R.one), Pow(R, r, h);
    QuadIsRing(R, r);
    SquareOfHalf(Q, b, h);
    CipollaPower(R, r, a, h);
    LastProduct(R, r, a, e);
  }

  lemma SquareOfHalf<T(!new)>(Q: Ring<T>, b: T, h: nat)
    requires CommRing(Q)
    ensures Q.mul(Pow(Q, b, h + 1), Pow(Q, b, h + 1)) == Q.mul(Pow(Q, b, 2 * h + 1), b)
  {
    PowAdd(Q, b, h + 1, h + 1);
    PowStep(Q, b, 2 * h + 1);
    assert h + 1 + (h + 1) == 2 * h + 1 + 1;
    assert Laws(Q, b, Pow(Q, b, 2 * h + 1), b);
  }

  lemma LastProduct<T(!new)>(R: Ring<T>, r: T, a: T, e: T)
    requires CommRing(R)
    ensures MulExt(R, r, Quad(a, e), Quad(a, R.one)) == Quad(R.add(R.mul(a, a), R.mul(r, e)), R.add(a, R.mul(e, a)))
  {
    assert Laws(R, R.mul(r, e), R.one, R.one);
    assert Laws(R, a, R.one, R.one);
  }

  // The root in the base field.

  lemma Halves(y: Fp)
    requires Mul(y, y) == 1
    ensures y == 1 || y == P - 1
  {
    var R := FpRing();
    FpIsRing();
    MulAdd(R, y, 1, Sub(R, y, 1));
    MulSub(R, y, y, 1);
    assert Laws(R, y, 1, 1);
    assert Laws(R, 1, Sub(R, y, 1), 1);
    assert Laws(R, Sub(R, y, 1), 1, 1);
    SubLaws(R, 1, y);
    SubLaws(R, y, 1);
    assert R.add(Sub(R, 1, y), Sub(R, y, 1)) == 0 by {
      assert Laws(R, Sub(R, y, 1), R.neg(Sub(R, y, 1)), 1);
      assert Laws(R, Sub(R, 1, y), Sub(R, y, 1), 1);
    }
    assert Mul(Add(y, 1), Sub(R, y, 1)) == 0;
    if Add(y, 1) != 0 {
      MulNonzero(Add(y, 1), Sub(R, y, 1));
    }
  }

  lemma LegendreCases(w: Fp)
    requires w != 0
    ensures Pow(FpRing(), w, H) == 1 || Pow(FpRing(), w, H) == P - 1
  {
    FpIsRing();
    PowAdd(FpRing(), w, H, H);
    Fermat(w);
    Halves(Pow(FpRing(), w, H));
  }

  lemma PowZero(n: nat)
    requires n >= 1
    ensures Pow(FpRing(), 0, n) == 0
  {
    PowStep(FpRing(), 0, n - 1);
    var t := Pow(FpRing(), 0, n - 1);
    assert Mul(0, t) == 0;
  }

  /** If `r` is not a residue, `r * i^2` is not one either. */
  lemma NotTwisted(r: Fp, i: Fp, base: Fp)
    requires Pow(FpRing(), r, H) != 1 && Pow(FpRing(), base, H) == 1 && i != 0
    ensures Mul(r, Mul(i, i)) != base
  {
    FpIsRing();
    PowProduct(FpRing(), r, Mul(i, i), H);
    BaseSquaresPass(i);
    FpLaws(Pow(FpRing(), r, H), 1, 1);
  }

  lemma DoubleZero(u: Fp)
    requires Add(u, u) == 0
    ensures u == 0
  {
  }

  /** Whatever made the search stop, the real part of the power is a root of `base`. */
  lemma CipollaRoot(a: Fp, r: Fp, base: Fp, x: Quad<Fp>)
    requires Pow(FpRing(), base, H) == 1 && Pow(FpRing(), r, H) != 1 && r == Sub(FpRing(), Mul(a, a), base)
    requires x == Pow(QuadRing(FpRing(), r), Quad(a, 1), H + 1)
    ensures Mul(x.re, x.re) == base
  {
    var R, e := FpRing(), Pow(FpRing(), r, H);
    FpIsRing();
    FpCharacteristic();
    PHasNoZeroDivisors();
    FermatAll(a);
    CipollaSquare(R, r, a, H, x);
    SubLaws(R, Mul(a, a), base);
    RootFromSquare(R, a, r, base, e, x);
  }

  lemma RootFromSquare(R: Ring<Fp>, a: Fp, r: Fp, base: Fp, e: Fp, x: Quad<Fp>)
    requires R == FpRing() && CommRing(R)
    requires Pow(R, base, H) == 1 && e == Pow(R, r, H) && e != 1 && r == Sub(R, Mul(a, a), base)
    requires Add(r, base) == Mul(a, a)
    requires MulExt(R, r, x, x) == Quad(Add(Mul(a, a), Mul(r, e)), Add(a, Mul(e, a)))
    ensures Mul(x.re, x.re) == base
  {
    if r == 0 {
      PowZero(H);
      RootDegenerate(a, base, x);
    } else {
      LegendreCases(r);
      RootProper(a, r, base, x);
    }
  }

  lemma RootDegenerate(a: Fp, base: Fp, x: Quad<Fp>)
    requires Add(0, base) == Mul(a, a)
    requires MulExt(FpRing(), 0, x, x) == Quad(Add(Mul(a, a), Mul(0, 0)), Add(a, Mul(0, a)))
    ensures Mul(x.re, x.re) == base
  {
    var R := FpRing();
    FpIsRing();
    MulZero(R, x.im);
    assert Laws(R, Mul(x.re, x.re), 0, 0);
    assert Laws(R, Mul(a, a), 0, 0);
    assert Laws(R, base, 0, 0);
  }

  lemma MinusOne(c: Fp)
    ensures Mul(P - 1, c) == FpRing().neg(c) && Mul(c, P - 1) == FpRing().neg(c)
  {
    var R := FpRing();
    FpIsRing();
    NegLaws(R, 1, c);
    assert Laws(R, c, 1, 1);
    assert Laws(R, 1, c, 1);
    assert Laws(R, c, P - 1, 1);
    assert R.neg(1) == P - 1;
  }

  lemma RootProper(a: Fp, r: Fp, base: Fp, x: Quad<Fp>)
    requires r != 0 && Pow(FpRing(), r, H) == P - 1 && Pow(FpRing(), base, H) == 1 && Add(r, base) == Mul(a, a)
    requires MulExt(FpRing(), r, x, x) == Quad(Add(Mul(a, a), Mul(r, P - 1)), Add(a, Mul(P - 1, a)))
    ensures Mul(x.re, x.re) == base
  {
    var R := FpRing();
    FpIsRing();
    MinusOne(r);
    MinusOne(a);
    assert Laws(R, a, R.neg(a), a);
    assert Laws(R, r, base, base);
    SubLaws(R, base, r);
    assert Add(Mul(a, a), R.neg(r)) == base by { assert Sub(R, Add(base, r), r) == base; assert Laws(R, base, r, r); }
    assert Laws(R, x.re, x.im, x.im);
    DoubleZero(Mul(x.re, x.im));
    if x.re != 0 {
      MulNonzero(x.re, x.im);
      MulZero(R, x.im);
      MulZero(R, Mul(r, x.im));
      assert Laws(R, Mul(x.re, x.re), 0, 0);
    } else {
      MulZero(R, x.re);
      assert Laws(R, r, x.im, x.im);
      assert Laws(R, 0, Mul(Mul(r, x.im), x.im), 0);
      assert Laws(R, Mul(Mul(r, x.im), x.im), 0, 0);
      if x.im != 0 {
        NotTwisted(r, x.im, base);
      } else {
        MulZero(R, Mul(r, x.im));
      }
    }
  }

  // The search for a non-residue.

  /** Every nonzero element is a power of `g`. */
  ghost predicate Primitive(g: Fp) {
    forall x: Fp :: x != 0 ==> HasLog(g, x)
  }

  ghost predicate HasLog(g: Fp, x: Fp) {
    exists e: nat :: Pow(FpRing(), g, e) == x
  }

  lemma ThreeIsPrimitive()
    ensures Primitive(3)
  {
    forall x: Fp | x != 0
      ensures HasLog(3, x)
    {
      var e := Generates(x);
      assert Pow(FpRing(), 3, e) == x;
    }
  }

  /** An element that passes the test is a square. */
  lemma RootExists(base: Fp) returns (c: Fp)
    requires base != 0 && Pow(FpRing(), base, H) == 1
    ensures c != 0 && Mul(c, c) == base
  {
    var j := Generates(base);
    var i := j / 2;
    assert j % 2 == 1 ==> j * H == (P - 1) * i + H;
    GOrder();
    FpIsRing();
    PowMul(FpRing(), 3, j, H);
    FpLaws(G(H), 1, 1);
    FpLaws(1, G(H), 1);
    GMultiple(P - 1, i);
    GAdd((P - 1) * i, H);
    c := G(i);
    GAdd(i, i);
    GNonzero(i);
  }

  /** What the walk tests for being a nonzero residue. */
  function Residual(a: Fp, base: Fp): Fp {
    Sub(FpRing(), Mul(a, a), base)
  }

  /** Some power of the generator is a root of the base, where the walk stops. */
  lemma WalkStops(base: Fp, g: Fp) returns (m: nat)
    requires Primitive(g) && base != 0 && Pow(FpRing(), base, H) == 1
    ensures Pow(FpRing(), Residual(Pow(FpRing(), g, m), base), H) != 1
  {
    var c := RootExists(base);
    assert HasLog(g, c);
    m :| Pow(FpRing(), g, m) == c;
    ZeroStops(base);
  }

  lemma ZeroStops(base: Fp)
    ensures Pow(FpRing(), Sub(FpRing(), base, base), H) == 0
  {
    FpIsRing();
    SubLaws(FpRing(), base, base);
    PowZero(H);
  }

  lemma FirstPower(g: Fp)
    ensures Pow(FpRing(), g, 0) == 1
  {
    FpIsRing();
    PowSmall(FpRing(), g);
  }

  lemma NextPower(g: Fp, i: nat)
    ensures Pow(FpRing(), g, i + 1) == Mul(Pow(FpRing(), g, i), g)
  {
    PowStep(FpRing(), g, i);
    FpLaws(g, Pow(FpRing(), g, i), g);
  }

  method FirstCandidate(base: Fp, g: Fp) returns (a: Fp, r: Fp)
    ensures a == Pow(FpRing(), g, 0) && r == Residual(a, base)
  {
    FirstPower(g);
    a := 1;
    r := Sub(FpRing(), 1, base);
  }

  method NextCandidate(base: Fp, g: Fp, a: Fp, ghost i: nat) returns (a': Fp, r: Fp)
    requires a == Pow(FpRing(), g, i)
    ensures a' == Pow(FpRing(), g, i + 1) && r == Residual(a', base)
  {
    NextPower(g, i);
    a' := Mul(a, g);
    r := Sub(FpRing(), Mul(a', a'), base);
  }

  /** Walks the powers of the generator until `a^2 - base` is not a nonzero residue. */
  method FindNonresidue(base: Fp, g: Fp) returns (a: Fp, r: Fp)
    requires Primitive(g) && base != 0 && Pow(FpRing(), base, H) == 1
    ensures r == Residual(a, base) && Pow(FpRing(), r, H) != 1
  {
    ghost var m := WalkStops(base, g);
    ghost var i := 0;
    a, r := FirstCandidate(base, g);
    while Exp(r, H) == 1
      invariant i <= m && a == Pow(FpRing(), g, i) && r == Residual(a, base)
      decreases m - i
    {
      a, r := NextCandidate(base, g, a, i);
      i := i + 1;
    }
  }

  // The exponent chain.

  /** The exponent reached before step `i`: one, plus a power of two for each step from 23 on. */
  ghost function Exponent(i: nat): nat {
    if i <= 23 then 1 else Exponent(i - 1) + Pow2(i - 1)
  }

  lemma ChainStep(S: Ring<E>, n: E, i: nat)
    requires CommRing(S) && i >= 1
    ensures Pow(S, n, Pow2(i)) == S.mul(Pow(S, n, Pow2(i - 1)), Pow(S, n, Pow2(i - 1)))
    ensures i >= 23 ==> Pow(S, n, Exponent(i + 1)) == S.mul(Pow(S, n, Exponent(i)), Pow(S, n, Pow2(i)))
  {
    PowAdd(S, n, Pow2(i - 1), Pow2(i - 1));
    PowAdd(S, n, Exponent(i), Pow2(i));
  }

  /** Twenty-nine squarings, multiplying in the last seven. */
  method HalfPower(k: Arith, n: E) returns (p: E)
    requires Koala(k)
    ensures p == Pow(k.S, n, H + 1)
  {
    var iter := n;
    p := n;
    PowSmall(k.S, n);
    for i := 1 to 30
      invariant iter == Pow(k.S, n, Pow2(i - 1)) && p == Pow(k.S, n, Exponent(i))
    {
      ChainStep(k.S, n, i);
      iter := k.S.mul(iter, iter);
      if i >= 23 {
        p := k.S.mul(p, iter);
      }
    }
    HalfExponent();
  }

  lemma HalfExponent()
    ensures Exponent(30) == H + 1
  {
    assert Pow2(8) == 256;
    assert Pow2(16) == 65536;
    assert Pow2(23) == 8388608;
    assert Exponent(25) == 1 + 8388608 + 16777216;
    assert Exponent(28) == Exponent(25) + 33554432 + 67108864 + 134217728;
  }

  /** Odd conjugates of `n^((P + 1) / 2)`, times `n`. */
  function Denominator(k: Arith, n: E, p: E): E {
    var f1 := k.phi(p);
    var f3 := k.phi2(f1);
    var f5 := k.phi2(f3);
    k.S.mul(k.S.mul(k.S.mul(f1, f3), f5), n)
  }

  lemma HalfPowerSquared(k: Arith, n: E, p: E)
    requires Koala(k) && p == Pow(k.S, n, H + 1)
    ensures k.S.mul(p, p) == k.S.mul(FrobIter(k, n, 1), n)
  {
    PowAdd(k.S, n, H + 1, H + 1);
    PowStep(k.S, n, P);
    assert H + 1 + (H + 1) == P + 1;
    assert FrobIter(k, n, 0) == n;
    assert Laws(k.S, n, Frob(k, n), n);
  }

  lemma ConjugateSquared(k: Arith, n: E, p: E, j: nat)
    requires Koala(k) && p == Pow(k.S, n, H + 1)
    ensures k.S.mul(FrobIter(k, p, j), FrobIter(k, p, j)) == k.S.mul(FrobIter(k, n, j + 1), FrobIter(k, n, j))
  {
    HalfPowerSquared(k, n, p);
    FrobIterMul(k, p, p, j);
    FrobIterMul(k, FrobIter(k, n, 1), n, j);
    FrobIterAdd(k, n, 1, j);
  }

  /** The square of the denominator is `n` times its norm. */
  lemma DenominatorSquared(k: Arith, n: E, p: E)
    requires Koala(k) && p == Pow(k.S, n, H + 1)
    ensures var d := Denominator(k, n, p); k.S.mul(d, d) == k.S.mul(Norm(k, n), n)
  {
    var S := k.S;
    assert FrobIter(k, p, 0) == p;
    PhiIter(k, p, 0); PhiIter(k, p, 1); PhiIter(k, p, 3);
    ConjugateSquared(k, n, p, 1); ConjugateSquared(k, n, p, 3); ConjugateSquared(k, n, p, 5);
    var g1, g3, g5 := FrobIter(k, p, 1), FrobIter(k, p, 3), FrobIter(k, p, 5);
    var f1, f2, f3, f4, f5, f6 := FrobIter(k, n, 1), FrobIter(k, n, 2), FrobIter(k, n, 3), FrobIter(k, n, 4),
      FrobIter(k, n, 5), FrobIter(k, n, 6);
    SquareOfProduct(S, g1, g3, g5, n);
    assert Laws(S, f2, f1, f1); assert Laws(S, f4, f3, f3); assert Laws(S, f6, f5, f5);
    var t := S.mul(S.mul(S.mul(f1, f2), S.mul(f3, f4)), S.mul(f5, f6));
    Flatten(S, n, f1, f2, f3, f4, f5, f6);
    assert Laws(S, t, n, n);
  }

  lemma SquareOfProduct(S: Ring<E>, x: E, y: E, z: E, n: E)
    requires CommRing(S)
    ensures var d := S.mul(S.mul(S.mul(x, y), z), n);
            S.mul(d, d) == S.mul(S.mul(S.mul(S.mul(x, x), S.mul(y, y)), S.mul(z, z)), S.mul(n, n))
  {
    var xy := S.mul(x, y);
    var xyz := S.mul(xy, z);
    MulSwap(S, x, y, x, y);
    MulSwap(S, xy, z, xy, z);
    MulSwap(S, xyz, n, xyz, n);
  }

  // The square root.

  /** A root of the inverse norm turns the denominator into a root of `n`. */
  lemma ScaledDenominator(k: Arith, n: E, d: E, n0: Fp, base: Fp, x: Fp)
    requires Koala(k) && k.S.mul(d, d) == k.S.mul(B(n0), n) && Mul(n0, base) == 1 && Mul(x, x) == base
    ensures k.S.mul(k.scale(x, d), k.scale(x, d)) == n
  {
    var S := k.S;
    assert ScalesAt(k, x, d);
    MulSwap(S, B(x), d, B(x), d);
    assert BaseAt(S, x, x);
    assert Laws(S, B(base), B(n0), n);
    assert BaseAt(S, base, n0);
    FpLaws(base, n0, n0);
    assert Laws(S, S.one, n, n);
    assert Laws(S, n, S.one, S.one);
  }

  lemma NoRoot(k: Arith, n: E)
    requires Koala(k) && n != k.S.zero && !IsSquare(k, n).1
    ensures forall s: E :: k.S.mul(s, s) != n
  {
    forall s: E
      ensures k.S.mul(s, s) != n
    {
      if s != k.S.zero {
        SquaresPass(k, s);
      } else {
        MulZero(k.S, s);
      }
    }
  }

  lemma InversePasses(c: Fp)
    requires c != 0 && Pow(FpRing(), c, H) == 1
    ensures Pow(FpRing(), Inverse(c), H) == 1
  {
    FpIsRing();
    PowProduct(FpRing(), c, Inverse(c), H);
    PowOne(FpRing(), H);
    var y := Pow(FpRing(), Inverse(c), H);
    FpLaws(1, y, 1);
    FpLaws(y, 1, 1);
  }

  /** The root of an element that passed the test, from its norm's coefficient. */
  method RootOfSquare(k: Arith, n: E, numerator: Fp, g: Fp) returns (root: E)
    requires Koala(k) && Primitive(g) && n != k.S.zero
    requires numerator == PowR(k, n).c0 && Pow(FpRing(), numerator, H) == 1
    ensures k.S.mul(root, root) == n
  {
    PowRIsNorm(k, n);
    NormIsBase(k, n);
    var power := HalfPower(k, n);
    var denominator := Denominator(k, n, power);
    DenominatorSquared(k, n, power);
    var base := Inverse(numerator);
    InversePasses(numerator);
    var x := CipollaSqrt(base, g);
    ScaledDenominator(k, n, denominator, numerator, base, x);
    return k.scale(x, denominator);
  }

  method CipollaSqrt(base: Fp, g: Fp) returns (x: Fp)
    requires Primitive(g) && base != 0 && Pow(FpRing(), base, H) == 1
    ensures Mul(x, x) == base
  {
    var a, nonresidue := FindNonresidue(base, g);
    FpIsRing();
    var q := QuadPow(FpRing(), Quad(a, 1), H + 1, nonresidue);
    CipollaRoot(a, nonresidue, base, q);
    return q.re;
  }

  /** Square root: a root when there is one, nothing exactly when there is none. */
  method Sqrt(k: Arith, n: E, g: Fp) returns (result: Option<E>)
    requires Koala(k) && Primitive(g)
    ensures result.Some? ==> k.S.mul(result.value, result.value) == n
    ensures result.None? ==> forall s: E :: k.S.mul(s, s) != n
  {
    if n == k.S.zero || n == k.S.one {
      MulZero(k.S, n);
      assert Laws(k.S, n, k.S.one, k.S.one);
      return Some(n);
    }
    var (numerator, isSquare) := IsSquare(k, n);
    if !isSquare {
      NoRoot(k, n);
      return None;
    }
    var root := RootOfSquare(k, n, numerator, g);
    return Some(root);
  }

  /** The square root with the source's operations and the generator 3. */
  method SourceSqrt(n: E) returns (result: Option<E>)
    ensures result.Some? ==> SMul(FpRing(), result.value, result.value) == n
    ensures result.None? ==> forall s: E :: SMul(FpRing(), s, s) != n
  {
    SourceIsKoala();
    ThreeIsPrimitive();
    result := Sqrt(ArithOver(FpRing()), n, 3);
    if result.None? {
      forall s: E
        ensures SMul(FpRing(), s, s) != n
      {
        assert ArithOver(FpRing()).S.mul(s, s) != n;
      }
    }
  }
}
