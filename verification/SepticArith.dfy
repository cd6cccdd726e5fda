/** Products over the prime field, computed over the integers and reduced once. */
module SepticArith {
  import opened Modular
  import opened Algebra
  import opened KoalaBear
  import opened Septic

  function IntRing(): Ring<int> {
    Ring(0, 1, (x, y) => x + y, x => -x, (x, y) => x * y)
  }

  function Reduce(v: Septic<int>): Septic<Fp> {
    Septic(v.c0 % P, v.c1 % P, v.c2 % P, v.c3 % P, v.c4 % P, v.c5 % P, v.c6 % P)
  }

  lemma HomAdd(x: int, y: int)
    ensures Add(x % P, y % P) == (x + y) % P
  {
    ModAdd(x, y, P);
    ModAdd(x % P, y, P);
  }

  lemma HomMul(x: int, y: int)
    ensures Mul(x % P, y % P) == x * y % P
  {
    ModMul(x, y, P);
    ModMul(x % P, y, P);
  }

  lemma ReduceAdd(u: Septic<int>, v: Septic<int>)
    ensures Reduce(SAdd(IntRing(), u, v)) == SAdd(FpRing(), Reduce(u), Reduce(v))
  {
    HomAdd(u.c0, v.c0); HomAdd(u.c1, v.c1); HomAdd(u.c2, v.c2); HomAdd(u.c3, v.c3);
    HomAdd(u.c4, v.c4); HomAdd(u.c5, v.c5); HomAdd(u.c6, v.c6);
  }

  lemma ReduceScale(c: int, v: Septic<int>)
    ensures Reduce(Scale(IntRing(), c, v)) == Scale(FpRing(), c % P, Reduce(v))
  {
    HomMul(c, v.c0); HomMul(c, v.c1); HomMul(c, v.c2); HomMul(c, v.c3);
    HomMul(c, v.c4); HomMul(c, v.c5); HomMul(c, v.c6);
  }

  lemma SmallConstants()
    ensures Three(FpRing()) == 3 && Five(FpRing()) == 5
    ensures Three(IntRing()) == 3 && Five(IntRing()) == 5
  {
  }

  lemma ReduceZMul(v: Septic<int>)
    ensures Reduce(ZMul(IntRing(), v)) == ZMul(FpRing(), Reduce(v))
  {
    SmallConstants();
    HomMul(5, v.c6);
    HomMul(3, v.c6);
    HomAdd(v.c0, 3 * v.c6);
  }

  lemma ReduceHorner(c: int, w: Septic<int>, v: Septic<int>)
    ensures Reduce(Horner(IntRing(), c, w, v)) == Horner(FpRing(), c % P, Reduce(w), Reduce(v))
  {
    ReduceScale(c, v);
    ReduceZMul(w);
    ReduceAdd(Scale(IntRing(), c, v), ZMul(IntRing(), w));
  }

  lemma ReduceMul(a: Septic<int>, v: Septic<int>)
    ensures Reduce(SMul(IntRing(), a, v)) == SMul(FpRing(), Reduce(a), Reduce(v))
  {
    var Z := IntRing();
    ReduceScale(a.c6, v);
    var x6 := Scale(Z, a.c6, v);
    ReduceHorner(a.c5, x6, v);
    var x5 := Horner(Z, a.c5, x6, v);
    ReduceHorner(a.c4, x5, v);
    var x4 := Horner(Z, a.c4, x5, v);
    ReduceHorner(a.c3, x4, v);
    var x3 := Horner(Z, a.c3, x4, v);
    ReduceHorner(a.c2, x3, v);
    var x2 := Horner(Z, a.c2, x3, v);
    ReduceHorner(a.c1, x2, v);
    ReduceHorner(a.c0, Horner(Z, a.c1, x2, v), v);
  }

  lemma HornerInt(c: int, w: Septic<int>, v: Septic<int>) returns (u: Septic<int>)
    ensures u == Horner(IntRing(), c, w, v)
    ensures u.c0 == c * v.c0 + 5 * w.c6 && u.c1 == c * v.c1 + w.c0 + 3 * w.c6
    ensures u.c2 == c * v.c2 + w.c1 && u.c3 == c * v.c3 + w.c2 && u.c4 == c * v.c4 + w.c3
    ensures u.c5 == c * v.c5 + w.c4 && u.c6 == c * v.c6 + w.c5
  {
    SmallConstants();
    u := Horner(IntRing(), c, w, v);
  }

  /** The integer product, written out and not yet reduced. */
  function Flat(a: Septic<int>, b: Septic<int>): Septic<int> {
    Septic(
      a.c0 * b.c0 + 5 * (a.c1 * b.c6 + a.c2 * b.c5 + a.c3 * b.c4 + a.c4 * b.c3 + a.c5 * b.c2 + a.c6 * b.c1),
      a.c0 * b.c1 + a.c1 * b.c0 +
        3 * (a.c1 * b.c6 + a.c2 * b.c5 + a.c3 * b.c4 + a.c4 * b.c3 + a.c5 * b.c2 + a.c6 * b.c1) +
          5 * (a.c2 * b.c6 + a.c3 * b.c5 + a.c4 * b.c4 + a.c5 * b.c3 + a.c6 * b.c2),
      a.c0 * b.c2 + a.c1 * b.c1 + a.c2 * b.c0 +
        3 * (a.c2 * b.c6 + a.c3 * b.c5 + a.c4 * b.c4 + a.c5 * b.c3 + a.c6 * b.c2) +
          5 * (a.c3 * b.c6 + a.c4 * b.c5 + a.c5 * b.c4 + a.c6 * b.c3),
      a.c0 * b.c3 + a.c1 * b.c2 + a.c2 * b.c1 + a.c3 * b.c0 +
        3 * (a.c3 * b.c6 + a.c4 * b.c5 + a.c5 * b.c4 + a.c6 * b.c3) + 5 * (a.c4 * b.c6 + a.c5 * b.c5 + a.c6 * b.c4),
      a.c0 * b.c4 + a.c1 * b.c3 + a.c2 * b.c2 + a.c3 * b.c1 + a.c4 * b.c0 +
        3 * (a.c4 * b.c6 + a.c5 * b.c5 + a.c6 * b.c4) + 5 * (a.c5 * b.c6 + a.c6 * b.c5),
      a.c0 * b.c5 + a.c1 * b.c4 + a.c2 * b.c3 + a.c3 * b.c2 + a.c4 * b.c1 + a.c5 * b.c0 +
        3 * (a.c5 * b.c6 + a.c6 * b.c5) + 5 * (a.c6 * b.c6),
      a.c0 * b.c6 + a.c1 * b.c5 + a.c2 * b.c4 + a.c3 * b.c3 + a.c4 * b.c2 + a.c5 * b.c1 + a.c6 * b.c0 +
        3 * (a.c6 * b.c6)
    )
  }

  lemma FlatProduct(a: Septic<int>, v: Septic<int>)
    ensures SMul(IntRing(), a, v) == Flat(a, v)
  {
    var w := HighHalf(a, v);
    var u := LowHalf(a, v, w);
  }

  lemma HighHalf(a: Septic<int>, v: Septic<int>) returns (w: Septic<int>)
    ensures w == Horner(IntRing(), a.c3,
            Horner(IntRing(), a.c4, Horner(IntRing(), a.c5, Scale(IntRing(), a.c6, v), v), v), v)
    ensures w.c0 == a.c3 * v.c0 + 5 * (a.c4 * v.c6 + a.c5 * v.c5 + a.c6 * v.c4)
    ensures w.c1 ==
            a.c3 * v.c1 + a.c4 * v.c0 + 3 * (a.c4 * v.c6 + a.c5 * v.c5 + a.c6 * v.c4) + 5 * (a.c5 * v.c6 + a.c6 * v.c5)
    ensures w.c2 == a.c3 * v.c2 + a.c4 * v.c1 + a.c5 * v.c0 + 3 * (a.c5 * v.c6 + a.c6 * v.c5) + 5 * (a.c6 * v.c6)
    ensures w.c3 == a.c3 * v.c3 + a.c4 * v.c2 + a.c5 * v.c1 + a.c6 * v.c0 + 3 * (a.c6 * v.c6)
    ensures w.c4 == a.c3 * v.c4 + a.c4 * v.c3 + a.c5 * v.c2 + a.c6 * v.c1
    ensures w.c5 == a.c3 * v.c5 + a.c4 * v.c4 + a.c5 * v.c3 + a.c6 * v.c2
    ensures w.c6 == a.c3 * v.c6 + a.c4 * v.c5 + a.c5 * v.c4 + a.c6 * v.c3
  {
    var x6 := Scale(IntRing(), a.c6, v);
    var x5 := HornerInt(a.c5, x6, v);
    var x4 := HornerInt(a.c4, x5, v);
    w := HornerInt(a.c3, x4, v);
  }

  lemma LowHalf(a: Septic<int>, v: Septic<int>, w: Septic<int>) returns (u: Septic<int>)
    ensures u == Horner(IntRing(), a.c0, Horner(IntRing(), a.c1, Horner(IntRing(), a.c2, w, v), v), v)
    ensures u.c0 == a.c0 * v.c0 + 5 * (a.c1 * v.c6 + a.c2 * v.c5 + w.c4)
    ensures u.c1 == a.c0 * v.c1 + a.c1 * v.c0 + 3 * (a.c1 * v.c6 + a.c2 * v.c5 + w.c4) + 5 * (a.c2 * v.c6 + w.c5)
    ensures u.c2 == a.c0 * v.c2 + a.c1 * v.c1 + a.c2 * v.c0 + 3 * (a.c2 * v.c6 + w.c5) + 5 * (w.c6)
    ensures u.c3 == a.c0 * v.c3 + a.c1 * v.c2 + a.c2 * v.c1 + w.c0 + 3 * (w.c6)
    ensures u.c4 == a.c0 * v.c4 + a.c1 * v.c3 + a.c2 * v.c2 + w.c1
    ensures u.c5 == a.c0 * v.c5 + a.c1 * v.c4 + a.c2 * v.c3 + w.c2
    ensures u.c6 == a.c0 * v.c6 + a.c1 * v.c5 + a.c2 * v.c4 + w.c3
  {
    var x2 := HornerInt(a.c2, w, v);
    var x1 := HornerInt(a.c1, x2, v);
    u := HornerInt(a.c0, x1, v);
  }

  lemma ReduceReduced(a: Septic<Fp>)
    ensures Reduce(a) == a
  {
  }

  lemma ReduceProduct(a: Septic<Fp>, b: Septic<Fp>)
    ensures SMul(FpRing(), a, b) == Reduce(SMul(IntRing(), a, b))
  {
    ReduceReduced(a);
    ReduceReduced(b);
    ReduceMul(a, b);
  }

  /** A ring whose product is the integer product reduced. */
  ghost predicate ReducesProducts(S: Ring<Septic<Fp>>) {
    forall a: Septic<Fp>, b: Septic<Fp> :: S.mul(a, b) == Reduce(SMul(IntRing(), a, b))
  }

  lemma SepticReducesProducts()
    ensures ReducesProducts(SepticRing(FpRing()))
  {
    forall a: Septic<Fp>, b: Septic<Fp>
      ensures SMul(FpRing(), a, b) == Reduce(SMul(IntRing(), a, b))
    {
      ReduceProduct(a, b);
    }
  }

  ghost predicate MultipliesAt(S: Ring<Septic<Fp>>, a: Septic<Fp>, b: Septic<Fp>) {
    S.mul(a, b) == Reduce(Flat(a, b))
  }

  ghost predicate Multiplies(S: Ring<Septic<Fp>>) {
    forall a: Septic<Fp>, b: Septic<Fp> :: MultipliesAt(S, a, b)
  }

  lemma MultipliesFlat(S: Ring<Septic<Fp>>)
    requires ReducesProducts(S)
    ensures Multiplies(S)
  {
    forall a: Septic<Fp>, b: Septic<Fp>
      ensures MultipliesAt(S, a, b)
    {
      FlatProduct(a, b);
    }
  }

  /** Checks a product by integer arithmetic on its coefficients. */
  lemma Product(S: Ring<Septic<Fp>>, a0: Fp, a1: Fp, a2: Fp, a3: Fp, a4: Fp, a5: Fp, a6: Fp,
                b0: Fp, b1: Fp, b2: Fp, b3: Fp, b4: Fp, b5: Fp, b6: Fp,
                r0: Fp, r1: Fp, r2: Fp, r3: Fp, r4: Fp, r5: Fp, r6: Fp)
    requires Multiplies(S)
    requires (a0 * b0 + 5 * (a1 * b6 + a2 * b5 + a3 * b4 + a4 * b3 + a5 * b2 + a6 * b1)) % P == r0
    requires (a0 * b1 + a1 * b0 + 3 * (a1 * b6 + a2 * b5 + a3 * b4 + a4 * b3 + a5 * b2 + a6 * b1) +
             5 * (a2 * b6 + a3 * b5 + a4 * b4 + a5 * b3 + a6 * b2)) % P == r1
    requires (a0 * b2 + a1 * b1 + a2 * b0 + 3 * (a2 * b6 + a3 * b5 + a4 * b4 + a5 * b3 + a6 * b2) +
             5 * (a3 * b6 + a4 * b5 + a5 * b4 + a6 * b3)) % P == r2
    requires (a0 * b3 + a1 * b2 + a2 * b1 + a3 * b0 + 3 * (a3 * b6 + a4 * b5 + a5 * b4 + a6 * b3) +
             5 * (a4 * b6 + a5 * b5 + a6 * b4)) % P == r3
    requires (a0 * b4 + a1 * b3 + a2 * b2 + a3 * b1 + a4 * b0 + 3 * (a4 * b6 + a5 * b5 + a6 * b4) +
             5 * (a5 * b6 + a6 * b5)) % P == r4
    requires (a0 * b5 + a1 * b4 + a2 * b3 + a3 * b2 + a4 * b1 + a5 * b0 + 3 * (a5 * b6 + a6 * b5) +
             5 * (a6 * b6)) % P == r5
    requires (a0 * b6 + a1 * b5 + a2 * b4 + a3 * b3 + a4 * b2 + a5 * b1 + a6 * b0 + 3 * (a6 * b6)) % P == r6
    ensures S.mul(Septic(a0, a1, a2, a3, a4, a5, a6), Septic(b0, b1, b2, b3, b4, b5, b6)) ==
            Septic(r0, r1, r2, r3, r4, r5, r6)
  {
    assert MultipliesAt(S, Septic(a0, a1, a2, a3, a4, a5, a6), Septic(b0, b1, b2, b3, b4, b5, b6));
  }

  // Sums over the prime field.

  function CoefficientSum(u: Septic<int>, v: Septic<int>): Septic<Fp> {
    Septic((u.c0 + v.c0) % P, (u.c1 + v.c1) % P, (u.c2 + v.c2) % P, (u.c3 + v.c3) % P,
           (u.c4 + v.c4) % P, (u.c5 + v.c5) % P, (u.c6 + v.c6) % P)
  }

  ghost predicate SumsCoefficientsAt(S: Ring<Septic<Fp>>, u: Septic<Fp>, v: Septic<Fp>) {
    S.add(u, v) == CoefficientSum(u, v)
  }

  /** A ring whose sum is the integer sum reduced. */
  ghost predicate SumsCoefficients(S: Ring<Septic<Fp>>) {
    forall u: Septic<Fp>, v: Septic<Fp> :: SumsCoefficientsAt(S, u, v)
  }

  lemma SepticSumsCoefficients()
    ensures SumsCoefficients(SepticRing(FpRing()))
  {
    forall u: Septic<Fp>, v: Septic<Fp>
      ensures SumsCoefficientsAt(SepticRing(FpRing()), u, v)
    {
    }
  }

  /** Checks a sum by integer arithmetic on its coefficients. */
  lemma SumIs(S: Ring<Septic<Fp>>, a0: Fp, a1: Fp, a2: Fp, a3: Fp, a4: Fp, a5: Fp, a6: Fp,
              b0: Fp, b1: Fp, b2: Fp, b3: Fp, b4: Fp, b5: Fp, b6: Fp,
              r0: Fp, r1: Fp, r2: Fp, r3: Fp, r4: Fp, r5: Fp, r6: Fp)
    requires SumsCoefficients(S)
    requires (a0 + b0) % P == r0
    requires (a1 + b1) % P == r1
    requires (a2 + b2) % P == r2
    requires (a3 + b3) % P == r3
    requires (a4 + b4) % P == r4
    requires (a5 + b5) % P == r5
    requires (a6 + b6) % P == r6
    ensures S.add(Septic(a0, a1, a2, a3, a4, a5, a6), Septic(b0, b1, b2, b3, b4, b5, b6)) ==
            Septic(r0, r1, r2, r3, r4, r5, r6)
  {
    assert SumsCoefficientsAt(S, Septic(a0, a1, a2, a3, a4, a5, a6), Septic(b0, b1, b2, b3, b4, b5, b6));
  }
}
