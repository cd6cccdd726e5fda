/** The septic extension is a field, its Frobenius map is the P-th power, and that map has order 7. */
module SepticField {
  import opened Algebra
  import opened Binomial
  import opened KoalaBear
  import opened FrobeniusTables
  import opened FrobeniusMatrix
  import opened SepticContext
  import opened FrobeniusImages

  // Elements as polynomials in a chosen element.

  /** `a0 + t * (a1 + t * (...))` over the first `n` coefficients. */
  ghost function EvalAt(S: Ring<E>, t: E, a: E, n: nat): E
    decreases n
  {
    if n == 0 then S.zero else S.add(B(a.c0), S.mul(t, EvalAt(S, t, Shift(a), n - 1)))
  }

  ghost function ShiftBy(a: E, n: nat): E
    decreases n
  {
    if n == 0 then a else ShiftBy(Shift(a), n - 1)
  }

  lemma {:induction false} EvalZ(k: Arith, a: E, n: nat)
    requires Koala(k) && ShiftBy(a, n) == B(0)
    ensures EvalAt(k.S, Z, a, n) == a
    decreases n
  {
    if n > 0 {
      EvalZ(k, Shift(a), n - 1);
      assert PeelAt(k.S, a);
    }
  }

  lemma EvalSelf(k: Arith, a: E)
    requires Koala(k)
    ensures EvalAt(k.S, Z, a, 7) == a
  {
    var a3 := Shift(Shift(Shift(a)));
    assert ShiftBy(a, 7) == ShiftBy(a3, 4);
    assert ShiftBy(a3, 4) == Shift(Shift(Shift(Shift(a3))));
    EvalZ(k, a, 7);
  }

  // The P-th power.

  ghost function Frob(k: Arith, a: E): E {
    Pow(k.S, a, P)
  }

  lemma FrobAdd(k: Arith, a: E, b: E)
    requires Koala(k)
    ensures Frob(k, k.S.add(a, b)) == k.S.add(Frob(k, a), Frob(k, b))
  {
    PHasNoZeroDivisors();
    PowPAdditive(k.S, P, a, b);
  }

  lemma FrobMul(k: Arith, a: E, b: E)
    requires Koala(k)
    ensures Frob(k, k.S.mul(a, b)) == k.S.mul(Frob(k, a), Frob(k, b))
  {
    PowProduct(k.S, a, b, P);
  }

  lemma {:induction false} BasePow(k: Arith, c: Fp, n: nat)
    requires Koala(k)
    ensures Pow(k.S, B(c), n) == B(Pow(FpRing(), c, n))
    decreases n
  {
    PowStep(k.S, B(c), 0);
    PowStep(FpRing(), c, 0);
    if n > 0 {
      BasePow(k, c, n - 1);
      PowStep(k.S, B(c), n - 1);
      PowStep(FpRing(), c, n - 1);
      assert BaseAt(k.S, c, Pow(FpRing(), c, n - 1));
    }
  }

  lemma FrobBase(k: Arith, c: Fp)
    requires Koala(k)
    ensures Frob(k, B(c)) == B(c)
  {
    BasePow(k, c, P);
    FermatAll(c);
  }

  /** The P-th power acts on an element by acting on the point it is evaluated at. */
  lemma {:induction false} FrobEval(k: Arith, t: E, a: E, n: nat)
    requires Koala(k)
    ensures Frob(k, EvalAt(k.S, t, a, n)) == EvalAt(k.S, Frob(k, t), a, n)
    decreases n
  {
    if n == 0 {
      FrobBase(k, 0);
    } else {
      var rest := EvalAt(k.S, t, Shift(a), n - 1);
      FrobEval(k, t, Shift(a), n - 1);
      FrobAdd(k, B(a.c0), k.S.mul(t, rest));
      FrobBase(k, a.c0);
      FrobMul(k, t, rest);
    }
  }

  // The tabulated sums are evaluations.

  /** Moves one coefficient from the evaluation into the sum. */
  lemma SumStep(S: Ring<E>, sum: E, u: E, t: E, u': E, a: E, n: nat)
    requires CommRing(S) && S.mul(u, t) == u'
    ensures S.add(sum, S.mul(u, EvalAt(S, t, a, n + 1))) ==
            S.add(S.add(sum, S.mul(B(a.c0), u)), S.mul(u', EvalAt(S, t, Shift(a), n)))
  {
    var b, rest := B(a.c0), EvalAt(S, t, Shift(a), n);
    assert Laws(S, u, b, S.mul(t, rest));
    assert Laws(S, u, t, rest);
    assert Laws(S, sum, S.mul(b, u), S.mul(u', rest));
  }

  lemma SumIsEval(S: Ring<E>, a: E, t1: E, t2: E, t3: E, t4: E, t5: E, t6: E)
    requires CommRing(S) && S.mul(t1, t1) == t2 && S.mul(t2, t1) == t3 && S.mul(t3, t1) == t4
    requires S.mul(t4, t1) == t5 && S.mul(t5, t1) == t6
    ensures Weighted(S, B, a, t1, t2, t3, t4, t5, t6) == EvalAt(S, t1, a, 7)
  {
    var a1 := Shift(a); var a2 := Shift(a1); var a3 := Shift(a2); var a4 := Shift(a3); var a5 := Shift(a4);
    var a6 := Shift(a5);
    var r0 := B(a.c0);
    var r1 := S.add(r0, S.mul(B(a.c1), t1));
    var r2 := S.add(r1, S.mul(B(a.c2), t2));
    var r3 := S.add(r2, S.mul(B(a.c3), t3));
    var r4 := S.add(r3, S.mul(B(a.c4), t4));
    var r5 := S.add(r4, S.mul(B(a.c5), t5));
    var r6 := S.add(r5, S.mul(B(a.c6), t6));
    SumStep(S, r0, t1, t1, t2, a1, 5);
    SumStep(S, r1, t2, t1, t3, a2, 4);
    SumStep(S, r2, t3, t1, t4, a3, 3);
    SumStep(S, r3, t4, t1, t5, a4, 2);
    SumStep(S, r4, t5, t1, t6, a5, 1);
    SumStep(S, r5, t6, t1, S.mul(t6, t1), a6, 0);
    MulZero(S, S.mul(t6, t1));
    assert EvalAt(S, t1, Shift(a6), 0) == S.zero;
    assert Laws(S, r6, S.zero, S.zero);
  }

  /** The table-driven Frobenius map is the P-th power. */
  lemma PhiIsFrob(k: Arith, a: E)
    requires Koala(k)
    ensures k.phi(a) == Frob(k, a)
  {
    assert SumsAt(k, a);
    TablePowers(k.S);
    SumIsEval(k.S, a, ZPowP(1), ZPowP(2), ZPowP(3), ZPowP(4), ZPowP(5), ZPowP(6));
    ZToP(k.S);
    EvalSelf(k, a);
    FrobEval(k, Z, a, 7);
  }

  /** The second map is the first applied twice. */
  lemma Phi2IsFrobTwice(k: Arith, a: E)
    requires Koala(k)
    ensures k.phi2(a) == Frob(k, Frob(k, a))
  {
    assert SumsAt(k, a);
    TablePowers(k.S);
    SumIsEval(k.S, a, ZPowP2(1), ZPowP2(2), ZPowP2(3), ZPowP2(4), ZPowP2(5), ZPowP2(6));
    ZToP(k.S);
    PhiIsFrob(k, ZPowP(1));
    SecondTable(k);
    EvalSelf(k, a);
    FrobEval(k, Z, a, 7);
    FrobEval(k, ZPowP(1), a, 7);
  }

  // Order 7 and the fixed field.

  ghost function FrobIter(k: Arith, a: E, n: nat): E {
    if n == 0 then a else Frob(k, FrobIter(k, a, n - 1))
  }

  lemma {:induction false} FrobIterEval(k: Arith, a: E, n: nat)
    requires Koala(k)
    ensures FrobIter(k, a, n) == EvalAt(k.S, FrobIter(k, Z, n), a, 7)
    decreases n
  {
    if n == 0 {
      EvalSelf(k, a);
    } else {
      FrobIterEval(k, a, n - 1);
      FrobEval(k, FrobIter(k, Z, n - 1), a, 7);
    }
  }

  lemma ZOrderSeven(k: Arith)
    requires Koala(k)
    ensures FrobIter(k, Z, 7) == Z
  {
    ZToP(k.S);
    PhiIsFrob(k, ZPowP(1));
    SecondTable(k);
    assert FrobIter(k, Z, 2) == ZPowP2(1) by { assert FrobIter(k, Z, 1) == ZPowP(1); }
    var u2 := ZPowP2(1);
    var u4 := k.phi2(u2);
    Phi2IsFrobTwice(k, u2);
    assert FrobIter(k, Z, 4) == u4 by { assert FrobIter(k, Z, 3) == Frob(k, u2); }
    var u6 := k.phi2(u4);
    Phi2IsFrobTwice(k, u4);
    assert FrobIter(k, Z, 6) == u6 by { assert FrobIter(k, Z, 5) == Frob(k, u4); }
    PhiIsFrob(k, u6);
    SeventhImage(k);
  }

  /** The P-th power has order 7. */
  lemma OrderSeven(k: Arith, a: E)
    requires Koala(k)
    ensures FrobIter(k, a, 7) == a
  {
    ZOrderSeven(k);
    FrobIterEval(k, a, 7);
    EvalSelf(k, a);
  }

  /** Its fixed points are the base field. */
  lemma FixedField(k: Arith, a: E)
    requires Koala(k) && Frob(k, a) == a
    ensures a == B(a.c0)
  {
    PhiIsFrob(k, a);
    assert FrobeniusFlatAt(k.phi, a);
    FixedIsBase(a);
  }

  // Every nonzero element has an inverse.

  lemma {:induction false} FrobIterPow(k: Arith, a: E, n: nat) returns (q: nat)
    requires Koala(k) && n >= 1
    ensures FrobIter(k, a, n) == Pow(k.S, a, q) && q >= 2
    decreases n
  {
    if n == 1 {
      q := P;
      assert FrobIter(k, a, 0) == a;
    } else {
      var q' := FrobIterPow(k, a, n - 1);
      PowMul(k.S, a, q', P);
      q := q' * P;
      assert q >= q' by { assert q' * P >= q' * 1; }
    }
  }

  lemma {:induction false} IdempotentPow(k: Arith, e: E, n: nat)
    requires Koala(k) && k.S.mul(e, e) == e && n >= 1
    ensures Pow(k.S, e, n) == e
    decreases n
  {
    PowSmall(k.S, e);
    if n > 1 {
      IdempotentPow(k, e, n - 1);
      PowStep(k.S, e, n - 1);
    }
  }

  lemma IdempotentBase(c: Fp)
    requires Mul(c, c) == c
    ensures c == 0 || c == 1
  {
    if c != 0 {
      FpLaws(Inv(c), c, c);
      FpLaws(c, 1, 1);
      FpLaws(1, c, c);
      FpLaws(c, Inv(c), c);
    }
  }

  /** The only idempotents are zero and one. */
  lemma Idempotent(k: Arith, e: E)
    requires Koala(k) && k.S.mul(e, e) == e
    ensures e == k.S.zero || e == k.S.one
  {
    IdempotentPow(k, e, P);
    FixedField(k, e);
    assert BaseAt(k.S, e.c0, e.c0);
    IdempotentBase(e.c0);
  }

  /** The extension is a field. */
  lemma Invertible(k: Arith, a: E) returns (b: E)
    requires Koala(k) && a != k.S.zero
    ensures k.S.mul(a, b) == k.S.one
  {
    var S := k.S;
    OrderSeven(k, a);
    var q := FrobIterPow(k, a, 7);
    b := Pow(S, a, q - 2);
    PowStep(S, a, q - 2);
    PowStep(S, a, q - 1);
    var e := Pow(S, a, q - 1);
    assert S.mul(a, e) == a && e == S.mul(a, b);
    assert Laws(S, a, b, e);
    assert Laws(S, b, e, e);
    assert Laws(S, a, e, b);
    assert Laws(S, b, a, e);
    assert S.mul(e, e) == e;
    Idempotent(k, e);
    MulZero(S, a);
  }
}
