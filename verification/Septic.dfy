/**
 The extension R[z]/(z^7 - 3z - 5) of a commutative ring R.

 A product `a * b` is read as the polynomial `a` acting on the vector `b`, where z acts by
 `ZMul`. Ring laws follow because these actions are linear and commute with each other.
 */
module Septic {
  import opened Algebra

  datatype Septic<+T> = Septic(c0: T, c1: T, c2: T, c3: T, c4: T, c5: T, c6: T)

  function Three<T>(R: Ring<T>): T { R.add(R.one, R.add(R.one, R.one)) }
  function Five<T>(R: Ring<T>): T { R.add(R.one, R.add(R.one, Three(R))) }

  function SZero<T>(R: Ring<T>): Septic<T> {
    Septic(R.zero, R.zero, R.zero, R.zero, R.zero, R.zero, R.zero)
  }

  /** A base element as an extension element. */
  function FromBase<T>(R: Ring<T>, c: T): Septic<T> {
    Septic(c, R.zero, R.zero, R.zero, R.zero, R.zero, R.zero)
  }

  function SAdd<T>(R: Ring<T>, a: Septic<T>, b: Septic<T>): Septic<T> {
    Septic(R.add(a.c0, b.c0), R.add(a.c1, b.c1), R.add(a.c2, b.c2), R.add(a.c3, b.c3),
           R.add(a.c4, b.c4), R.add(a.c5, b.c5), R.add(a.c6, b.c6))
  }

  function SNeg<T>(R: Ring<T>, a: Septic<T>): Septic<T> {
    Septic(R.neg(a.c0), R.neg(a.c1), R.neg(a.c2), R.neg(a.c3), R.neg(a.c4), R.neg(a.c5), R.neg(a.c6))
  }

  /** Multiplication by a base element. */
  function Scale<T>(R: Ring<T>, c: T, a: Septic<T>): Septic<T> {
    Septic(R.mul(c, a.c0), R.mul(c, a.c1), R.mul(c, a.c2), R.mul(c, a.c3),
           R.mul(c, a.c4), R.mul(c, a.c5), R.mul(c, a.c6))
  }

  /** Multiplication by z, using z^7 = 3z + 5. */
  function ZMul<T>(R: Ring<T>, a: Septic<T>): Septic<T> {
    Septic(R.mul(Five(R), a.c6), R.add(a.c0, R.mul(Three(R), a.c6)), a.c1, a.c2, a.c3, a.c4, a.c5)
  }

  /** One Horner step: `c * v + z * w`. */
  function Horner<T>(R: Ring<T>, c: T, w: Septic<T>, v: Septic<T>): Septic<T> {
    SAdd(R, Scale(R, c, v), ZMul(R, w))
  }

  function SMul<T>(R: Ring<T>, a: Septic<T>, v: Septic<T>): Septic<T> {
    Horner(R, a.c0, Horner(R, a.c1, Horner(R, a.c2, Horner(R, a.c3,
      Horner(R, a.c4, Horner(R, a.c5, Scale(R, a.c6, v), v), v), v), v), v), v)
  }

  function SepticRing<T>(R: Ring<T>): Ring<Septic<T>> {
    Ring(SZero(R), FromBase(R, R.one), (a, b) => SAdd(R, a, b), a => SNeg(R, a), (a, b) => SMul(R, a, b))
  }

  // The vector laws, coefficient by coefficient.

  ghost predicate Laws7<T>(R: Ring<T>, a: Septic<T>, b: Septic<T>, c: Septic<T>) {
    && Laws(R, a.c0, b.c0, c.c0) && Laws(R, a.c1, b.c1, c.c1) && Laws(R, a.c2, b.c2, c.c2) && Laws(R, a.c3, b.c3, c.c3)
    && Laws(R, a.c4, b.c4, c.c4) && Laws(R, a.c5, b.c5, c.c5) && Laws(R, a.c6, b.c6, c.c6)
  }

  lemma VectorLaws<T(!new)>(R: Ring<T>, a: Septic<T>, b: Septic<T>, c: Septic<T>)
    requires CommRing(R)
    ensures SAdd(R, a, b) == SAdd(R, b, a)
    ensures SAdd(R, SAdd(R, a, b), c) == SAdd(R, a, SAdd(R, b, c))
    ensures SAdd(R, a, SZero(R)) == a
    ensures SAdd(R, a, SNeg(R, a)) == SZero(R)
  {
    assert Laws7(R, a, b, c);
  }

  lemma VectorSwap<T(!new)>(R: Ring<T>, a: Septic<T>, b: Septic<T>, c: Septic<T>, d: Septic<T>)
    requires CommRing(R)
    ensures SAdd(R, SAdd(R, a, b), SAdd(R, c, d)) == SAdd(R, SAdd(R, a, c), SAdd(R, b, d))
  {
    AddSwap(R, a.c0, b.c0, c.c0, d.c0); AddSwap(R, a.c1, b.c1, c.c1, d.c1);
    AddSwap(R, a.c2, b.c2, c.c2, d.c2); AddSwap(R, a.c3, b.c3, c.c3, d.c3);
    AddSwap(R, a.c4, b.c4, c.c4, d.c4); AddSwap(R, a.c5, b.c5, c.c5, d.c5);
    AddSwap(R, a.c6, b.c6, c.c6, d.c6);
  }

  ghost function Constant<T>(c: T): Septic<T> {
    Septic(c, c, c, c, c, c, c)
  }

  lemma ScaleAdd<T(!new)>(R: Ring<T>, c: T, u: Septic<T>, v: Septic<T>)
    requires CommRing(R)
    ensures Scale(R, c, SAdd(R, u, v)) == SAdd(R, Scale(R, c, u), Scale(R, c, v))
  {
    assert Laws7(R, Constant(c), u, v);
  }

  /** Two scalings commute. */
  lemma ScaleScale<T(!new)>(R: Ring<T>, c: T, d: T, v: Septic<T>)
    requires CommRing(R)
    ensures Scale(R, c, Scale(R, d, v)) == Scale(R, d, Scale(R, c, v))
    ensures Scale(R, c, Scale(R, d, v)) == Scale(R, R.mul(c, d), v)
  {
    assert Laws7(R, Constant(c), Constant(d), v);
    assert Laws7(R, Constant(d), Constant(c), v);
  }

  lemma ZMulAdd<T(!new)>(R: Ring<T>, u: Septic<T>, v: Septic<T>)
    requires CommRing(R)
    ensures ZMul(R, SAdd(R, u, v)) == SAdd(R, ZMul(R, u), ZMul(R, v))
  {
    assert Laws(R, Five(R), u.c6, v.c6);
    assert Laws(R, Three(R), u.c6, v.c6);
    AddSwap(R, u.c0, v.c0, R.mul(Three(R), u.c6), R.mul(Three(R), v.c6));
  }

  lemma ZMulScale<T(!new)>(R: Ring<T>, c: T, v: Septic<T>)
    requires CommRing(R)
    ensures ZMul(R, Scale(R, c, v)) == Scale(R, c, ZMul(R, v))
  {
    MulLeftSwap(R, Five(R), c, v.c6);
    MulLeftSwap(R, Three(R), c, v.c6);
    assert Laws(R, c, v.c0, R.mul(Three(R), v.c6));
  }

  lemma MulLeftSwap<T(!new)>(R: Ring<T>, a: T, b: T, c: T)
    requires CommRing(R)
    ensures R.mul(a, R.mul(b, c)) == R.mul(b, R.mul(a, c))
  {
    assert Laws(R, a, b, c);
    assert Laws(R, b, a, c);
  }

  // Multiplication by a fixed element is linear and commutes with z.

  lemma HornerAdd<T(!new)>(R: Ring<T>, c: T, w: Septic<T>, w': Septic<T>, u: Septic<T>, v: Septic<T>)
    requires CommRing(R)
    ensures Horner(R, c, SAdd(R, w, w'), SAdd(R, u, v)) == SAdd(R, Horner(R, c, w, u), Horner(R, c, w', v))
  {
    ScaleAdd(R, c, u, v);
    ZMulAdd(R, w, w');
    VectorSwap(R, Scale(R, c, u), Scale(R, c, v), ZMul(R, w), ZMul(R, w'));
  }

  lemma SMulAdd<T(!new)>(R: Ring<T>, a: Septic<T>, u: Septic<T>, v: Septic<T>)
    requires CommRing(R)
    ensures SMul(R, a, SAdd(R, u, v)) == SAdd(R, SMul(R, a, u), SMul(R, a, v))
  {
    var s := SAdd(R, u, v);
    ScaleAdd(R, a.c6, u, v);
    var w6, x6, y6 := Scale(R, a.c6, s), Scale(R, a.c6, u), Scale(R, a.c6, v);
    HornerAdd(R, a.c5, x6, y6, u, v);
    var w5, x5, y5 := Horner(R, a.c5, w6, s), Horner(R, a.c5, x6, u), Horner(R, a.c5, y6, v);
    HornerAdd(R, a.c4, x5, y5, u, v);
    var w4, x4, y4 := Horner(R, a.c4, w5, s), Horner(R, a.c4, x5, u), Horner(R, a.c4, y5, v);
    HornerAdd(R, a.c3, x4, y4, u, v);
    var w3, x3, y3 := Horner(R, a.c3, w4, s), Horner(R, a.c3, x4, u), Horner(R, a.c3, y4, v);
    HornerAdd(R, a.c2, x3, y3, u, v);
    var w2, x2, y2 := Horner(R, a.c2, w3, s), Horner(R, a.c2, x3, u), Horner(R, a.c2, y3, v);
    HornerAdd(R, a.c1, x2, y2, u, v);
    HornerAdd(R, a.c0, Horner(R, a.c1, x2, u), Horner(R, a.c1, y2, v), u, v);
  }

  lemma HornerScale<T(!new)>(R: Ring<T>, d: T, c: T, w: Septic<T>, v: Septic<T>)
    requires CommRing(R)
    ensures Horner(R, c, Scale(R, d, w), Scale(R, d, v)) == Scale(R, d, Horner(R, c, w, v))
  {
    ScaleScale(R, c, d, v);
    ZMulScale(R, d, w);
    ScaleAdd(R, d, Scale(R, c, v), ZMul(R, w));
  }

  lemma SMulScale<T(!new)>(R: Ring<T>, a: Septic<T>, d: T, v: Septic<T>)
    requires CommRing(R)
    ensures SMul(R, a, Scale(R, d, v)) == Scale(R, d, SMul(R, a, v))
  {
    ScaleScale(R, a.c6, d, v);
    var x6 := Scale(R, a.c6, v);
    HornerScale(R, d, a.c5, x6, v);
    var x5 := Horner(R, a.c5, x6, v);
    HornerScale(R, d, a.c4, x5, v);
    var x4 := Horner(R, a.c4, x5, v);
    HornerScale(R, d, a.c3, x4, v);
    var x3 := Horner(R, a.c3, x4, v);
    HornerScale(R, d, a.c2, x3, v);
    var x2 := Horner(R, a.c2, x3, v);
    HornerScale(R, d, a.c1, x2, v);
    HornerScale(R, d, a.c0, Horner(R, a.c1, x2, v), v);
  }

  lemma HornerZ<T(!new)>(R: Ring<T>, c: T, w: Septic<T>, v: Septic<T>)
    requires CommRing(R)
    ensures Horner(R, c, ZMul(R, w), ZMul(R, v)) == ZMul(R, Horner(R, c, w, v))
  {
    ZMulScale(R, c, v);
    ZMulAdd(R, Scale(R, c, v), ZMul(R, w));
  }

  lemma SMulZ<T(!new)>(R: Ring<T>, a: Septic<T>, v: Septic<T>)
    requires CommRing(R)
    ensures SMul(R, a, ZMul(R, v)) == ZMul(R, SMul(R, a, v))
  {
    ZMulScale(R, a.c6, v);
    var x6 := Scale(R, a.c6, v);
    HornerZ(R, a.c5, x6, v);
    var x5 := Horner(R, a.c5, x6, v);
    HornerZ(R, a.c4, x5, v);
    var x4 := Horner(R, a.c4, x5, v);
    HornerZ(R, a.c3, x4, v);
    var x3 := Horner(R, a.c3, x4, v);
    HornerZ(R, a.c2, x3, v);
    var x2 := Horner(R, a.c2, x3, v);
    HornerZ(R, a.c1, x2, v);
    HornerZ(R, a.c0, Horner(R, a.c1, x2, v), v);
  }

  lemma SMulHorner<T(!new)>(R: Ring<T>, b: Septic<T>, c: T, w: Septic<T>, v: Septic<T>)
    requires CommRing(R)
    ensures SMul(R, b, Horner(R, c, w, v)) == Horner(R, c, SMul(R, b, w), SMul(R, b, v))
  {
    SMulAdd(R, b, Scale(R, c, v), ZMul(R, w));
    SMulScale(R, b, c, v);
    SMulZ(R, b, w);
  }

  /** The actions of two elements commute. */
  lemma SMulCommute<T(!new)>(R: Ring<T>, a: Septic<T>, b: Septic<T>, v: Septic<T>)
    requires CommRing(R)
    ensures SMul(R, b, SMul(R, a, v)) == SMul(R, a, SMul(R, b, v))
  {
    SMulScale(R, b, a.c6, v);
    var x6 := Scale(R, a.c6, v);
    SMulHorner(R, b, a.c5, x6, v);
    var x5 := Horner(R, a.c5, x6, v);
    SMulHorner(R, b, a.c4, x5, v);
    var x4 := Horner(R, a.c4, x5, v);
    SMulHorner(R, b, a.c3, x4, v);
    var x3 := Horner(R, a.c3, x4, v);
    SMulHorner(R, b, a.c2, x3, v);
    var x2 := Horner(R, a.c2, x3, v);
    SMulHorner(R, b, a.c1, x2, v);
    SMulHorner(R, b, a.c0, Horner(R, a.c1, x2, v), v);
  }

  // The unit.

  lemma ScaleOne<T(!new)>(R: Ring<T>, c: T)
    requires CommRing(R)
    ensures Scale(R, c, FromBase(R, R.one)) == FromBase(R, c)
  {
    assert Laws(R, c, R.one, R.one);
    MulZero(R, c);
  }

  lemma HornerOne<T(!new)>(R: Ring<T>, c: T, w: Septic<T>)
    requires CommRing(R) && w.c6 == R.zero
    ensures Horner(R, c, w, FromBase(R, R.one)) == Septic(c, w.c0, w.c1, w.c2, w.c3, w.c4, w.c5)
  {
    ScaleOne(R, c);
    MulZero(R, Five(R));
    MulZero(R, Three(R));
    assert Laws(R, c, R.zero, R.zero);
    assert Laws(R, w.c0, R.zero, R.zero); assert Laws(R, R.zero, w.c0, R.zero);
    assert Laws7(R, w, SZero(R), SZero(R)); assert Laws7(R, SZero(R), w, SZero(R));
  }

  lemma SMulOne<T(!new)>(R: Ring<T>, a: Septic<T>)
    requires CommRing(R)
    ensures SMul(R, a, FromBase(R, R.one)) == a
  {
    ScaleOne(R, a.c6);
    HornerOne(R, a.c5, FromBase(R, a.c6));
    HornerOne(R, a.c4, Septic(a.c5, a.c6, R.zero, R.zero, R.zero, R.zero, R.zero));
    HornerOne(R, a.c3, Septic(a.c4, a.c5, a.c6, R.zero, R.zero, R.zero, R.zero));
    HornerOne(R, a.c2, Septic(a.c3, a.c4, a.c5, a.c6, R.zero, R.zero, R.zero));
    HornerOne(R, a.c1, Septic(a.c2, a.c3, a.c4, a.c5, a.c6, R.zero, R.zero));
    HornerOne(R, a.c0, Septic(a.c1, a.c2, a.c3, a.c4, a.c5, a.c6, R.zero));
  }

  lemma SMulComm<T(!new)>(R: Ring<T>, a: Septic<T>, b: Septic<T>)
    requires CommRing(R)
    ensures SMul(R, a, b) == SMul(R, b, a)
  {
    SMulOne(R, a);
    SMulOne(R, b);
    SMulCommute(R, a, b, FromBase(R, R.one));
  }

  lemma SMulAssoc<T(!new)>(R: Ring<T>, a: Septic<T>, b: Septic<T>, c: Septic<T>)
    requires CommRing(R)
    ensures SMul(R, SMul(R, a, b), c) == SMul(R, a, SMul(R, b, c))
  {
    SMulComm(R, SMul(R, a, b), c);
    SMulCommute(R, a, c, b);
    SMulComm(R, c, b);
  }

  /** The extension of a commutative ring is a commutative ring. */
  lemma SepticIsRing<T(!new)>(R: Ring<T>)
    requires CommRing(R)
    ensures CommRing(SepticRing(R))
  {
    forall a: Septic<T>, b: Septic<T>, c: Septic<T>
      ensures Laws(SepticRing(R), a, b, c)
    {
      VectorLaws(R, a, b, c);
      SMulComm(R, a, b);
      SMulAssoc(R, a, b, c);
      SMulOne(R, a);
      SMulAdd(R, a, b, c);
    }
  }
}
