/** The Frobenius maps as the source sums them, the first as an integer matrix, and its fixed points. */
module FrobeniusMatrix {
  import opened Modular
  import opened Algebra
  import opened KoalaBear
  import opened Septic
  import opened SepticArith
  import opened FrobeniusTables

  /** `a0 + t1 * a1 + ... + t6 * a6`, summed as the source does. */
  function Combine<T>(R: Ring<T>, a: Septic<T>, t1: Septic<T>, t2: Septic<T>, t3: Septic<T>, t4: Septic<T>,
                      t5: Septic<T>, t6: Septic<T>): Septic<T>
  {
    var r0 := SAdd(R, SZero(R), FromBase(R, a.c0));
    var r1 := SAdd(R, r0, Scale(R, a.c1, t1));
    var r2 := SAdd(R, r1, Scale(R, a.c2, t2));
    var r3 := SAdd(R, r2, Scale(R, a.c3, t3));
    var r4 := SAdd(R, r3, Scale(R, a.c4, t4));
    var r5 := SAdd(R, r4, Scale(R, a.c5, t5));
    SAdd(R, r5, Scale(R, a.c6, t6))
  }

  function FrobeniusOver(R: Ring<Fp>, a: Septic<Fp>): Septic<Fp> {
    Combine(R, a, ZPowP(1), ZPowP(2), ZPowP(3), ZPowP(4), ZPowP(5), ZPowP(6))
  }

  function DoubleFrobeniusOver(R: Ring<Fp>, a: Septic<Fp>): Septic<Fp> {
    Combine(R, a, ZPowP2(1), ZPowP2(2), ZPowP2(3), ZPowP2(4), ZPowP2(5), ZPowP2(6))
  }

  // Sums of products, reduced once.

  ghost predicate ReducesAt(R: Ring<Fp>, I: Ring<int>, x: int, y: int) {
    R.add(x % P, y % P) == I.add(x, y) % P && R.mul(x % P, y % P) == I.mul(x, y) % P
  }

  /** Reduction modulo P carries the operations of `I` to those of `R`. */
  ghost predicate Reduces(R: Ring<Fp>, I: Ring<int>) {
    R.zero == I.zero % P && forall x: int, y: int :: ReducesAt(R, I, x, y)
  }

  lemma FpReduces()
    ensures Reduces(FpRing(), IntRing())
  {
    forall x: int, y: int
      ensures ReducesAt(FpRing(), IntRing(), x, y)
    {
      HomAdd(x, y);
      HomMul(x, y);
    }
  }

  lemma ReducedSum(R: Ring<Fp>, I: Ring<int>, u: Septic<int>, v: Septic<int>)
    requires Reduces(R, I)
    ensures SAdd(R, Reduce(u), Reduce(v)) == Reduce(SAdd(I, u, v))
  {
    assert ReducesAt(R, I, u.c0, v.c0); assert ReducesAt(R, I, u.c1, v.c1); assert ReducesAt(R, I, u.c2, v.c2);
    assert ReducesAt(R, I, u.c3, v.c3);
    assert ReducesAt(R, I, u.c4, v.c4); assert ReducesAt(R, I, u.c5, v.c5); assert ReducesAt(R, I, u.c6, v.c6);
  }

  lemma ReducedMultiple(R: Ring<Fp>, I: Ring<int>, c: int, v: Septic<int>)
    requires Reduces(R, I)
    ensures Scale(R, c % P, Reduce(v)) == Reduce(Scale(I, c, v))
  {
    assert ReducesAt(R, I, c, v.c0); assert ReducesAt(R, I, c, v.c1); assert ReducesAt(R, I, c, v.c2);
    assert ReducesAt(R, I, c, v.c3);
    assert ReducesAt(R, I, c, v.c4); assert ReducesAt(R, I, c, v.c5); assert ReducesAt(R, I, c, v.c6);
  }

  lemma ReducedStep(R: Ring<Fp>, I: Ring<int>, r: Septic<int>, c: int, t: Septic<int>)
    requires Reduces(R, I)
    ensures SAdd(R, Reduce(r), Scale(R, c % P, Reduce(t))) == Reduce(SAdd(I, r, Scale(I, c, t)))
  {
    ReducedMultiple(R, I, c, t);
    ReducedSum(R, I, r, Scale(I, c, t));
  }

  /** Reducing at every step of a combination is combining over the integers and reducing once. */
  lemma ReducedCombination(R: Ring<Fp>, I: Ring<int>, a: Septic<int>, t1: Septic<int>, t2: Septic<int>, t3: Septic<int>,
                           t4: Septic<int>, t5: Septic<int>, t6: Septic<int>)
    requires Reduces(R, I)
    ensures Combine(R, Reduce(a), Reduce(t1), Reduce(t2), Reduce(t3), Reduce(t4), Reduce(t5), Reduce(t6)) ==
            Reduce(Combine(I, a, t1, t2, t3, t4, t5, t6))
  {
    ReducedSum(R, I, SZero(I), FromBase(I, a.c0));
    var r0 := SAdd(I, SZero(I), FromBase(I, a.c0));
    ReducedStep(R, I, r0, a.c1, t1);
    var r1 := SAdd(I, r0, Scale(I, a.c1, t1));
    ReducedStep(R, I, r1, a.c2, t2);
    var r2 := SAdd(I, r1, Scale(I, a.c2, t2));
    ReducedStep(R, I, r2, a.c3, t3);
    var r3 := SAdd(I, r2, Scale(I, a.c3, t3));
    ReducedStep(R, I, r3, a.c4, t4);
    var r4 := SAdd(I, r3, Scale(I, a.c4, t4));
    ReducedStep(R, I, r4, a.c5, t5);
    var r5 := SAdd(I, r4, Scale(I, a.c5, t5));
    ReducedStep(R, I, r5, a.c6, t6);
  }

  lemma FpCombination(R: Ring<Fp>, I: Ring<int>, a: Septic<Fp>, t1: Septic<Fp>, t2: Septic<Fp>, t3: Septic<Fp>,
                      t4: Septic<Fp>, t5: Septic<Fp>, t6: Septic<Fp>)
    requires Reduces(R, I)
    ensures Combine(R, a, t1, t2, t3, t4, t5, t6) == Reduce(Combine(I, a, t1, t2, t3, t4, t5, t6))
  {
    ReducedCombination(R, I, a, t1, t2, t3, t4, t5, t6);
    ReduceReduced(a);
    ReduceReduced(t1); ReduceReduced(t2); ReduceReduced(t3);
    ReduceReduced(t4); ReduceReduced(t5); ReduceReduced(t6);
  }

  function FrobeniusFlat(a: Septic<int>): Septic<int> {
    Septic(
      a.c0 + 1272123317 * a.c1 + 129050189 * a.c2 + 1911662442 * a.c3 + 1366416596 * a.c4 + 1411781189 * a.c5 +
        37669840 * a.c6,
      1950759909 * a.c1 + 1749509219 * a.c2 + 1095215454 * a.c3 + 1212861 * a.c4 + 1580508159 * a.c5 + 439102875 * a.c6,
      1879852731 * a.c1 + 983995729 * a.c2 + 1794102427 * a.c3 + 2104391040 * a.c4 + 1332301780 * a.c5 +
        410223214 * a.c6,
      746569225 * a.c1 + 711096547 * a.c2 + 1173566779 * a.c3 + 1447859676 * a.c4 + 1528790701 * a.c5 +
        964813232 * a.c6,
      180350946 * a.c1 + 1505254548 * a.c2 + 140526665 * a.c3 + 308944373 * a.c4 + 380217034 * a.c5 + 1250258104 * a.c6,
      1600835585 * a.c1 + 639452798 * a.c2 + 110899104 * a.c3 + 106444152 * a.c4 + 1752756730 * a.c5 + 877333757 * a.c6,
      333893434 * a.c1 + 68186395 * a.c2 + 1387282150 * a.c3 + 1362577042 * a.c4 + 989817517 * a.c5 + 222095778 * a.c6
    )
  }

  lemma FrobeniusRow0(a: Septic<int>)
    ensures Combine(IntRing(), a, ZPowP(1), ZPowP(2), ZPowP(3), ZPowP(4), ZPowP(5), ZPowP(6)).c0 == FrobeniusFlat(a).c0
  {
  }

  lemma FrobeniusRow1(a: Septic<int>)
    ensures Combine(IntRing(), a, ZPowP(1), ZPowP(2), ZPowP(3), ZPowP(4), ZPowP(5), ZPowP(6)).c1 == FrobeniusFlat(a).c1
  {
  }

  lemma FrobeniusRow2(a: Septic<int>)
    ensures Combine(IntRing(), a, ZPowP(1), ZPowP(2), ZPowP(3), ZPowP(4), ZPowP(5), ZPowP(6)).c2 == FrobeniusFlat(a).c2
  {
  }

  lemma FrobeniusRow3(a: Septic<int>)
    ensures Combine(IntRing(), a, ZPowP(1), ZPowP(2), ZPowP(3), ZPowP(4), ZPowP(5), ZPowP(6)).c3 == FrobeniusFlat(a).c3
  {
  }

  lemma FrobeniusRow4(a: Septic<int>)
    ensures Combine(IntRing(), a, ZPowP(1), ZPowP(2), ZPowP(3), ZPowP(4), ZPowP(5), ZPowP(6)).c4 == FrobeniusFlat(a).c4
  {
  }

  lemma FrobeniusRow5(a: Septic<int>)
    ensures Combine(IntRing(), a, ZPowP(1), ZPowP(2), ZPowP(3), ZPowP(4), ZPowP(5), ZPowP(6)).c5 == FrobeniusFlat(a).c5
  {
  }

  lemma FrobeniusRow6(a: Septic<int>)
    ensures Combine(IntRing(), a, ZPowP(1), ZPowP(2), ZPowP(3), ZPowP(4), ZPowP(5), ZPowP(6)).c6 == FrobeniusFlat(a).c6
  {
  }

  lemma FrobeniusRows(a: Septic<int>)
    ensures Combine(IntRing(), a, ZPowP(1), ZPowP(2), ZPowP(3), ZPowP(4), ZPowP(5), ZPowP(6)) == FrobeniusFlat(a)
  {
    FrobeniusRow0(a);
    FrobeniusRow1(a);
    FrobeniusRow2(a);
    FrobeniusRow3(a);
    FrobeniusRow4(a);
    FrobeniusRow5(a);
    FrobeniusRow6(a);
  }

  lemma FrobeniusIsFlat(R: Ring<Fp>, a: Septic<Fp>)
    requires Reduces(R, IntRing())
    ensures FrobeniusOver(R, a) == Reduce(FrobeniusFlat(a))
  {
    FpCombination(R, IntRing(), a, ZPowP(1), ZPowP(2), ZPowP(3), ZPowP(4), ZPowP(5), ZPowP(6));
    FrobeniusRows(a);
  }

  ghost predicate FrobeniusFlatAt(phi: Septic<Fp> -> Septic<Fp>, a: Septic<Fp>) {
    phi(a) == Reduce(FrobeniusFlat(a))
  }

  ghost predicate HasFrobeniusFlat(phi: Septic<Fp> -> Septic<Fp>) {
    forall a: Septic<Fp> :: FrobeniusFlatAt(phi, a)
  }

  // A fixed point has only its constant coefficient: the matrix minus the identity is invertible.

  /** `q` holds the quotients by P of the differences between the image of `a` and `a`. */
  ghost predicate Quotients(a: Septic<int>, q: Septic<int>) {
    var f := FrobeniusFlat(a);
    && f.c1 == a.c1 + P * q.c1 && f.c2 == a.c2 + P * q.c2 && f.c3 == a.c3 + P * q.c3
    && f.c4 == a.c4 + P * q.c4 && f.c5 == a.c5 + P * q.c5 && f.c6 == a.c6 + P * q.c6
  }

  lemma Fixed1(a: Septic<int>, q: Septic<int>)
    requires Quotients(a, q)
    ensures a.c1 % P == 0
  {
    var t := 37676551 * q.c1 + 800250263 * q.c2 + 1011165932 * q.c3 + 2047974270 * q.c4 + 1037242399 * q.c5 +
      1941741415 * q.c6 - (2351754885 * a.c1 + 2558205728 * a.c2 + 2703438159 * a.c3 + 3067997657 * a.c4 +
        3374590639 * a.c5 + 2450909273 * a.c6);
    assert a.c1 == P * t;
    MultipleMod(P, t);
  }

  lemma Fixed2(a: Septic<int>, q: Septic<int>)
    requires Quotients(a, q)
    ensures a.c2 % P == 0
  {
    var t := 1152028301 * q.c1 + 1830625459 * q.c2 + 844168697 * q.c3 + 1040533498 * q.c4 + 1232003525 * q.c5 +
      2088727558 * q.c6 - (4306635499 * a.c1 + 3244743521 * a.c2 + 4091245151 * a.c3 + 3930454945 * a.c4 +
        4774371043 * a.c5 + 2307685536 * a.c6);
    assert a.c2 == P * t;
    MultipleMod(P, t);
  }

  lemma Fixed3(a: Septic<int>, q: Septic<int>)
    requires Quotients(a, q)
    ensures a.c3 % P == 0
  {
    var t := 659860012 * q.c1 + 58712754 * q.c2 + 1848985566 * q.c3 + 2082593533 * q.c4 + 620873745 * q.c5 +
      762726017 * q.c6 - (2066065577 * a.c1 + 2868002747 * a.c2 + 2073286116 * a.c3 + 2135532786 * a.c4 +
        3089532570 * a.c5 + 2541715078 * a.c6);
    assert a.c3 == P * t;
    MultipleMod(P, t);
  }

  lemma Fixed4(a: Septic<int>, q: Septic<int>)
    requires Quotients(a, q)
    ensures a.c4 % P == 0
  {
    var t := 136151733 * q.c1 + 759217579 * q.c2 + 510148977 * q.c3 + 907235295 * q.c4 + 264571065 * q.c5 +
      1618762923 * q.c6 - (1502472555 * a.c1 + 1404796581 * a.c2 + 2117812082 * a.c3 + 2276529670 * a.c4 +
        2073285050 * a.c5 + 1215253097 * a.c6);
    assert a.c4 == P * t;
    MultipleMod(P, t);
  }

  lemma Fixed5(a: Septic<int>, q: Septic<int>)
    requires Quotients(a, q)
    ensures a.c5 % P == 0
  {
    var t := 1542785395 * q.c1 + 157441185 * q.c2 + 1139808719 * q.c3 + 663951005 * q.c4 + 239477189 * q.c5 +
      827290827 * q.c6 - (2316532651 * a.c1 + 2287275385 * a.c2 + 2148271586 * a.c3 + 1568181517 * a.c4 +
        2760460401 * a.c5 + 1438808915 * a.c6);
    assert a.c5 == P * t;
    MultipleMod(P, t);
  }

  lemma Fixed6(a: Septic<int>, q: Septic<int>)
    requires Quotients(a, q)
    ensures a.c6 % P == 0
  {
    var t := 119727411 * q.c1 + 1228335641 * q.c2 + 216728208 * q.c3 + 1510951433 * q.c4 + 897019249 * q.c5 +
      1528119236 * q.c6 - (2310577802 * a.c1 + 2123436983 * a.c2 + 2356482502 * a.c3 + 2601624635 * a.c4 +
        2729790024 * a.c5 + 1774538247 * a.c6);
    assert a.c6 == P * t;
    MultipleMod(P, t);
  }

  lemma Quotient(x: int, r: Fp) returns (q: int)
    requires x % P == r
    ensures x == r + P * q
  {
    q := x / P;
  }

  lemma FixedQuotients(a: Septic<Fp>, f: Septic<int>) returns (q: Septic<int>)
    requires Reduce(f) == a
    ensures f.c1 == a.c1 + P * q.c1 && f.c2 == a.c2 + P * q.c2 && f.c3 == a.c3 + P * q.c3
    ensures f.c4 == a.c4 + P * q.c4 && f.c5 == a.c5 + P * q.c5 && f.c6 == a.c6 + P * q.c6
  {
    var q1 := Quotient(f.c1, a.c1); var q2 := Quotient(f.c2, a.c2); var q3 := Quotient(f.c3, a.c3);
    var q4 := Quotient(f.c4, a.c4); var q5 := Quotient(f.c5, a.c5); var q6 := Quotient(f.c6, a.c6);
    q := Septic(0, q1, q2, q3, q4, q5, q6);
  }

  lemma ZeroResidue(x: Fp)
    requires x % P == 0
    ensures x == 0
  {
  }

  /** An element the Frobenius map fixes lies in the base field. */
  lemma FixedIsBase(a: Septic<Fp>)
    requires Reduce(FrobeniusFlat(a)) == a
    ensures a == Septic(a.c0, 0, 0, 0, 0, 0, 0)
  {
    var q := FixedQuotients(a, FrobeniusFlat(a));
    Fixed1(a, q); Fixed2(a, q); Fixed3(a, q); Fixed4(a, q); Fixed5(a, q); Fixed6(a, q);
    ZeroResidue(a.c1); ZeroResidue(a.c2); ZeroResidue(a.c3);
    ZeroResidue(a.c4); ZeroResidue(a.c5); ZeroResidue(a.c6);
  }
}
