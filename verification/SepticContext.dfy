/**
 What the theory of the septic field uses of the arithmetic: a ring on coefficient vectors,
 multiplication by a base element and the two Frobenius maps. The facts are stated for a record of
 operations and proved for the record built from the source's operations.
 */
module SepticContext {
  import opened Algebra
  import opened Binomial
  import opened KoalaBear
  import opened Septic
  import opened SepticArith
  import opened FrobeniusTables
  import opened FrobeniusMatrix

  type E = Septic<Fp>

  datatype Arith = Arith(S: Ring<E>, scale: (Fp, E) -> E, phi: E -> E, phi2: E -> E)

  function B(c: Fp): E {
    Septic(c, 0, 0, 0, 0, 0, 0)
  }

  /** The coefficients moved down by one. */
  function Shift(a: E): E {
    Septic(a.c1, a.c2, a.c3, a.c4, a.c5, a.c6, 0)
  }

  /** `a0 + a1 * t1 + ... + a6 * t6` in the extension ring. */
  function Weighted<T>(S: Ring<Septic<T>>, b: T -> Septic<T>, a: Septic<T>, t1: Septic<T>, t2: Septic<T>, t3: Septic<T>,
                       t4: Septic<T>, t5: Septic<T>, t6: Septic<T>): Septic<T>
  {
    var r1 := S.add(b(a.c0), S.mul(b(a.c1), t1));
    var r2 := S.add(r1, S.mul(b(a.c2), t2));
    var r3 := S.add(r2, S.mul(b(a.c3), t3));
    var r4 := S.add(r3, S.mul(b(a.c4), t4));
    var r5 := S.add(r4, S.mul(b(a.c5), t5));
    S.add(r5, S.mul(b(a.c6), t6))
  }

  ghost predicate PeelAt(S: Ring<E>, a: E) {
    a == S.add(B(a.c0), S.mul(Z, Shift(a)))
  }

  ghost predicate BaseAt(S: Ring<E>, c: Fp, d: Fp) {
    S.add(B(c), B(d)) == B(Add(c, d)) && S.mul(B(c), B(d)) == B(Mul(c, d))
  }

  ghost predicate SumsAt(k: Arith, a: E) {
    && k.phi(a) == Weighted(k.S, B, a, ZPowP(1), ZPowP(2), ZPowP(3), ZPowP(4), ZPowP(5), ZPowP(6))
    && k.phi2(a) == Weighted(k.S, B, a, ZPowP2(1), ZPowP2(2), ZPowP2(3), ZPowP2(4), ZPowP2(5), ZPowP2(6))
  }

  ghost predicate ScalesAt(k: Arith, c: Fp, v: E) {
    k.scale(c, v) == k.S.mul(B(c), v)
  }

  /** The operations are those of the septic extension with the tabulated Frobenius maps. */
  ghost predicate Koala(k: Arith) {
    && CommRing(k.S) && Multiplies(k.S) && SumsCoefficients(k.S) && Characteristic(k.S, P)
    && k.S.zero == B(0) && k.S.one == B(1)
    && (forall a: E :: PeelAt(k.S, a))
    && (forall c: Fp, d: Fp :: BaseAt(k.S, c, d))
    && (forall a: E :: SumsAt(k, a))
    && (forall c: Fp, v: E :: ScalesAt(k, c, v))
    && HasFrobeniusFlat(k.phi)
  }

  // Generic facts about the extension.

  lemma ScaleIsProduct<T(!new)>(R: Ring<T>, c: T, v: Septic<T>)
    requires CommRing(R)
    ensures SMul(R, FromBase(R, c), v) == Scale(R, c, v)
  {
    SMulComm(R, FromBase(R, c), v);
    ScaleOne(R, c);
    SMulScale(R, v, c, FromBase(R, R.one));
    SMulOne(R, v);
  }

  lemma ZMulIsProduct<T(!new)>(R: Ring<T>, z: Septic<T>, v: Septic<T>)
    requires CommRing(R) && z == Septic(R.zero, R.one, R.zero, R.zero, R.zero, R.zero, R.zero)
    ensures SMul(R, z, v) == ZMul(R, v)
  {
    var one := FromBase(R, R.one);
    MulZero(R, Five(R));
    MulZero(R, Three(R));
    assert Laws(R, R.one, R.zero, R.zero);
    assert z == ZMul(R, one);
    SMulComm(R, z, v);
    SMulZ(R, v, one);
    SMulOne(R, v);
  }

  lemma PeelOver<T(!new)>(R: Ring<T>, a: Septic<T>)
    requires CommRing(R)
    ensures a == SAdd(R, FromBase(R, a.c0), ZMul(R, Septic(a.c1, a.c2, a.c3, a.c4, a.c5, a.c6, R.zero)))
  {
    var w := Septic(a.c1, a.c2, a.c3, a.c4, a.c5, a.c6, R.zero);
    HornerOne(R, a.c0, w);
    ScaleOne(R, a.c0);
  }

  lemma BaseAddOver<T(!new)>(R: Ring<T>, c: T, d: T)
    requires CommRing(R)
    ensures SAdd(R, FromBase(R, c), FromBase(R, d)) == FromBase(R, R.add(c, d))
    ensures SMul(R, FromBase(R, c), FromBase(R, d)) == FromBase(R, R.mul(c, d))
  {
    assert Laws(R, R.zero, R.zero, R.zero);
    ScaleIsProduct(R, c, FromBase(R, d));
    MulZero(R, c);
  }

  lemma CombineIsWeighted<T(!new)>(R: Ring<T>, a: Septic<T>, t1: Septic<T>, t2: Septic<T>, t3: Septic<T>, t4: Septic<T>,
                                   t5: Septic<T>, t6: Septic<T>)
    requires CommRing(R)
    ensures Combine(R, a, t1, t2, t3, t4, t5, t6) ==
            Weighted(SepticRing(R), c => FromBase(R, c), a, t1, t2, t3, t4, t5, t6)
  {
    VectorLaws(R, FromBase(R, a.c0), SZero(R), SZero(R));
    VectorLaws(R, SZero(R), FromBase(R, a.c0), SZero(R));
    ScaleIsProduct(R, a.c1, t1); ScaleIsProduct(R, a.c2, t2); ScaleIsProduct(R, a.c3, t3);
    ScaleIsProduct(R, a.c4, t4); ScaleIsProduct(R, a.c5, t5); ScaleIsProduct(R, a.c6, t6);
  }

  ghost function Times7<T>(R: Ring<T>, n: nat, v: Septic<T>): Septic<T> {
    Septic(Times(R, n, v.c0), Times(R, n, v.c1), Times(R, n, v.c2), Times(R, n, v.c3),
           Times(R, n, v.c4), Times(R, n, v.c5), Times(R, n, v.c6))
  }

  lemma {:induction false} TimesSeptic<T(!new)>(R: Ring<T>, n: nat, v: Septic<T>)
    ensures Times(SepticRing(R), n, v) == Times7(R, n, v)
    decreases n
  {
    TimesStep(SepticRing(R), v, 0);
    TimesStep(R, v.c0, 0); TimesStep(R, v.c1, 0); TimesStep(R, v.c2, 0); TimesStep(R, v.c3, 0);
    TimesStep(R, v.c4, 0); TimesStep(R, v.c5, 0); TimesStep(R, v.c6, 0);
    if n > 0 {
      TimesSeptic(R, n - 1, v);
      TimesStep(SepticRing(R), v, n - 1);
      TimesStep(R, v.c0, n - 1); TimesStep(R, v.c1, n - 1); TimesStep(R, v.c2, n - 1); TimesStep(R, v.c3, n - 1);
      TimesStep(R, v.c4, n - 1); TimesStep(R, v.c5, n - 1); TimesStep(R, v.c6, n - 1);
    }
  }

  lemma CharacteristicSeptic<T(!new)>(R: Ring<T>, p: nat)
    requires Characteristic(R, p)
    ensures Characteristic(SepticRing(R), p)
  {
    forall v: Septic<T>
      ensures Times(SepticRing(R), p, v) == SZero(R)
    {
      TimesSeptic(R, p, v);
    }
  }

  // The source's operations.

  function ArithOver(R: Ring<Fp>): Arith {
    Arith(SepticRing(R), (c, v) => Scale(R, c, v), a => FrobeniusOver(R, a), a => DoubleFrobeniusOver(R, a))
  }

  /** The ring-theoretic half of `Koala`, for any way of computing in the base ring. */
  lemma RingFacts(R: Ring<Fp>, a: E, c: Fp, d: Fp)
    requires CommRing(R) && R.zero == 0 && R.one == 1
    ensures a == SAdd(R, B(a.c0), SMul(R, Z, Shift(a)))
    ensures SAdd(R, B(c), B(d)) == B(R.add(c, d)) && SMul(R, B(c), B(d)) == B(R.mul(c, d))
  {
    PeelOver(R, a);
    ZMulIsProduct(R, Z, Shift(a));
    BaseAddOver(R, c, d);
  }

  lemma SumFacts(R: Ring<Fp>, a: E)
    requires CommRing(R) && R.zero == 0
    ensures FrobeniusOver(R, a) ==
            Weighted(SepticRing(R), B, a, ZPowP(1), ZPowP(2), ZPowP(3), ZPowP(4), ZPowP(5), ZPowP(6))
    ensures DoubleFrobeniusOver(R, a) ==
            Weighted(SepticRing(R), B, a, ZPowP2(1), ZPowP2(2), ZPowP2(3), ZPowP2(4), ZPowP2(5), ZPowP2(6))
  {
    CombineIsWeighted(R, a, ZPowP(1), ZPowP(2), ZPowP(3), ZPowP(4), ZPowP(5), ZPowP(6));
    CombineIsWeighted(R, a, ZPowP2(1), ZPowP2(2), ZPowP2(3), ZPowP2(4), ZPowP2(5), ZPowP2(6));
  }

  ghost predicate FieldOps(R: Ring<Fp>, c: Fp, d: Fp) {
    R.add(c, d) == Add(c, d) && R.mul(c, d) == Mul(c, d)
  }

  lemma KoalaOver(R: Ring<Fp>)
    requires CommRing(R) && R.zero == 0 && R.one == 1 && forall c, d :: FieldOps(R, c, d)
    requires Reduces(R, IntRing()) && CommRing(SepticRing(R)) && Multiplies(SepticRing(R))
    requires SumsCoefficients(SepticRing(R)) && Characteristic(SepticRing(R), P)
    ensures Koala(ArithOver(R))
  {
    var k := ArithOver(R);
    forall a: E
      ensures PeelAt(k.S, a) && SumsAt(k, a)
      ensures FrobeniusFlatAt(k.phi, a)
    {
      RingFacts(R, a, 0, 0);
      SumFacts(R, a);
      FrobeniusIsFlat(R, a);
    }
    forall c: Fp, d: Fp
      ensures BaseAt(k.S, c, d)
    {
      RingFacts(R, B(0), c, d);
      assert FieldOps(R, c, d);
    }
    forall c: Fp, v: E
      ensures ScalesAt(k, c, v)
    {
      ScaleIsProduct(R, c, v);
    }
  }

  /** The source's operations have all these properties. */
  lemma SourceIsKoala()
    ensures Koala(ArithOver(FpRing()))
  {
    FpIsRing();
    SepticIsRing(FpRing());
    SepticReducesProducts();
    MultipliesFlat(SepticRing(FpRing()));
    SepticSumsCoefficients();
    FpCharacteristic();
    CharacteristicSeptic(FpRing(), P);
    FpReduces();
    KoalaOver(FpRing());
  }
}
