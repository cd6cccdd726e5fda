/**
 Cipolla's square root in the prime field: powers in R[w]/(w^2 - r).

 As with the septic extension, a product is the first factor acting on the second.
 */
module Cipolla {
  import opened Algebra
  import opened Binomial

  datatype Quad<+T> = Quad(re: T, im: T)

  function QAdd<T>(R: Ring<T>, x: Quad<T>, y: Quad<T>): Quad<T> {
    Quad(R.add(x.re, y.re), R.add(x.im, y.im))
  }

  function QNeg<T>(R: Ring<T>, x: Quad<T>): Quad<T> {
    Quad(R.neg(x.re), R.neg(x.im))
  }

  function MulExt<T>(R: Ring<T>, r: T, x: Quad<T>, y: Quad<T>): Quad<T> {
    Quad(R.add(R.mul(x.re, y.re), R.mul(R.mul(r, x.im), y.im)),
         R.add(R.mul(x.re, y.im), R.mul(x.im, y.re)))
  }

  function QuadRing<T>(R: Ring<T>, r: T): Ring<Quad<T>> {
    Ring(Quad(R.zero, R.zero), Quad(R.one, R.zero), (x, y) => QAdd(R, x, y), x => QNeg(R, x),
      (x, y) => MulExt(R, r, x, y))
  }

  // Ring laws.

  ghost function QScale<T>(R: Ring<T>, c: T, x: Quad<T>): Quad<T> {
    Quad(R.mul(c, x.re), R.mul(c, x.im))
  }

  /** Multiplication by w. */
  ghost function WMul<T>(R: Ring<T>, r: T, x: Quad<T>): Quad<T> {
    Quad(R.mul(r, x.im), x.re)
  }

  lemma MulIsAction<T(!new)>(R: Ring<T>, r: T, x: Quad<T>, v: Quad<T>)
    requires CommRing(R)
    ensures MulExt(R, r, x, v) == QAdd(R, QScale(R, x.re, v), WMul(R, r, QScale(R, x.im, v)))
  {
    assert Laws(R, r, x.im, v.im);
  }

  lemma QSwap<T(!new)>(R: Ring<T>, a: Quad<T>, b: Quad<T>, c: Quad<T>, d: Quad<T>)
    requires CommRing(R)
    ensures QAdd(R, QAdd(R, a, b), QAdd(R, c, d)) == QAdd(R, QAdd(R, a, c), QAdd(R, b, d))
  {
    AddSwap(R, a.re, b.re, c.re, d.re);
    AddSwap(R, a.im, b.im, c.im, d.im);
  }

  lemma QLinear<T(!new)>(R: Ring<T>, r: T, c: T, d: T, u: Quad<T>, v: Quad<T>)
    requires CommRing(R)
    ensures QScale(R, c, QAdd(R, u, v)) == QAdd(R, QScale(R, c, u), QScale(R, c, v))
    ensures WMul(R, r, QAdd(R, u, v)) == QAdd(R, WMul(R, r, u), WMul(R, r, v))
    ensures QScale(R, c, QScale(R, d, v)) == QScale(R, d, QScale(R, c, v))
    ensures QScale(R, c, WMul(R, r, v)) == WMul(R, r, QScale(R, c, v))
  {
    assert Laws(R, c, u.re, v.re);
    assert Laws(R, c, u.im, v.im);
    assert Laws(R, r, u.im, v.im);
    assert Laws(R, c, d, v.re); assert Laws(R, d, c, v.re);
    assert Laws(R, c, d, v.im); assert Laws(R, d, c, v.im);
    assert Laws(R, c, r, v.im); assert Laws(R, r, c, v.im);
  }

  lemma MulExtAdd<T(!new)>(R: Ring<T>, r: T, x: Quad<T>, u: Quad<T>, v: Quad<T>)
    requires CommRing(R)
    ensures MulExt(R, r, x, QAdd(R, u, v)) == QAdd(R, MulExt(R, r, x, u), MulExt(R, r, x, v))
  {
    MulIsAction(R, r, x, u); MulIsAction(R, r, x, v); MulIsAction(R, r, x, QAdd(R, u, v));
    QLinear(R, r, x.re, x.im, u, v);
    QLinear(R, r, x.im, x.im, u, v);
    QLinear(R, r, x.im, x.im, QScale(R, x.im, u), QScale(R, x.im, v));
    QSwap(R, QScale(R, x.re, u), QScale(R, x.re, v), WMul(R, r, QScale(R, x.im, u)), WMul(R, r, QScale(R, x.im, v)));
  }

  lemma MulExtScale<T(!new)>(R: Ring<T>, r: T, x: Quad<T>, c: T, v: Quad<T>)
    requires CommRing(R)
    ensures MulExt(R, r, x, QScale(R, c, v)) == QScale(R, c, MulExt(R, r, x, v))
    ensures MulExt(R, r, x, WMul(R, r, v)) == WMul(R, r, MulExt(R, r, x, v))
  {
    var a, b := QScale(R, x.re, v), QScale(R, x.im, v);
    MulIsAction(R, r, x, v); MulIsAction(R, r, x, QScale(R, c, v)); MulIsAction(R, r, x, WMul(R, r, v));
    QLinear(R, r, x.re, c, v, v);
    QLinear(R, r, x.im, c, v, v);
    QLinear(R, r, c, c, b, b);
    QLinear(R, r, c, c, a, WMul(R, r, b));
  }

  /** The actions of two elements commute. */
  lemma MulExtCommute<T(!new)>(R: Ring<T>, r: T, x: Quad<T>, y: Quad<T>, v: Quad<T>)
    requires CommRing(R)
    ensures MulExt(R, r, y, MulExt(R, r, x, v)) == MulExt(R, r, x, MulExt(R, r, y, v))
  {
    var a, b := QScale(R, x.re, v), QScale(R, x.im, v);
    MulIsAction(R, r, x, v);
    MulIsAction(R, r, x, MulExt(R, r, y, v));
    MulExtAdd(R, r, y, a, WMul(R, r, b));
    MulExtScale(R, r, y, x.re, v);
    MulExtScale(R, r, y, x.im, v);
    MulExtScale(R, r, y, x.im, b);
  }

  lemma MulExtOne<T(!new)>(R: Ring<T>, r: T, x: Quad<T>)
    requires CommRing(R)
    ensures MulExt(R, r, x, Quad(R.one, R.zero)) == x
  {
    assert Laws(R, x.re, R.one, R.one);
    assert Laws(R, x.im, R.one, R.one);
    MulZero(R, R.mul(r, x.im));
    MulZero(R, x.re);
    assert Laws(R, x.re, R.zero, R.zero);
    assert Laws(R, x.im, R.zero, R.zero);
    assert Laws(R, R.zero, x.im, R.zero);
  }

  lemma QuadLaws<T(!new)>(R: Ring<T>, r: T, x: Quad<T>, y: Quad<T>, z: Quad<T>)
    requires CommRing(R)
    ensures Laws(QuadRing(R, r), x, y, z)
  {
    assert Laws(R, x.re, y.re, z.re);
    assert Laws(R, x.im, y.im, z.im);
    var one := Quad(R.one, R.zero);
    MulExtOne(R, r, x); MulExtOne(R, r, y); MulExtOne(R, r, z); MulExtOne(R, r, MulExt(R, r, x, y));
    MulExtCommute(R, r, x, y, one);
    MulExtCommute(R, r, z, MulExt(R, r, x, y), one);
    MulExtCommute(R, r, z, x, y);
    MulExtCommute(R, r, z, y, one);
    MulExtAdd(R, r, x, y, z);
  }

  lemma QuadIsRing<T(!new)>(R: Ring<T>, r: T)
    requires CommRing(R)
    ensures CommRing(QuadRing(R, r))
  {
    forall x: Quad<T>, y: Quad<T>, z: Quad<T>
      ensures Laws(QuadRing(R, r), x, y, z)
    {
      QuadLaws(R, r, x, y, z);
    }
  }

  lemma {:induction false} TimesQuad<T(!new)>(R: Ring<T>, r: T, n: nat, x: Quad<T>)
    ensures Times(QuadRing(R, r), n, x) == Quad(Times(R, n, x.re), Times(R, n, x.im))
    decreases n
  {
    TimesStep(QuadRing(R, r), x, 0); TimesStep(R, x.re, 0); TimesStep(R, x.im, 0);
    if n > 0 {
      TimesQuad(R, r, n - 1, x);
      TimesStep(QuadRing(R, r), x, n - 1); TimesStep(R, x.re, n - 1); TimesStep(R, x.im, n - 1);
    }
  }

  lemma QuadCharacteristic<T(!new)>(R: Ring<T>, r: T, p: nat)
    requires Characteristic(R, p)
    ensures Characteristic(QuadRing(R, r), p)
  {
    forall x: Quad<T>
      ensures Times(QuadRing(R, r), p, x) == QuadRing(R, r).zero
    {
      TimesQuad(R, r, p, x);
    }
  }

  // Exponentiation by the bits of the exponent.

  /** Multiplies in the powers whose bit is set, squaring the base each round. */
  method QuadPow<T(!new)>(R: Ring<T>, x: Quad<T>, exp: nat, r: T) returns (result: Quad<T>)
    requires CommRing(R)
    ensures result == Pow(QuadRing(R, r), x, exp)
  {
    ghost var Q := QuadRing(R, r);
    QuadIsRing(R, r);
    result := Quad(R.one, R.zero);
    var base := x;
    var rest := exp;
    PowSmall(Q, result);
    PowOfOne(R, r, x, exp);
    while rest > 0
      invariant Pow(Q, x, exp) == Q.mul(result, Pow(Q, base, rest))
      decreases rest
    {
      BitStep(Q, result, base, rest);
      if rest % 2 == 1 {
        result := MulExt(R, r, result, base);
      }
      base := MulExt(R, r, base, base);
      rest := rest / 2;
    }
    PowSmall(Q, base);
    assert Laws(Q, result, Q.one, Q.one);
  }

  lemma PowOfOne<T(!new)>(R: Ring<T>, r: T, x: Quad<T>, n: nat)
    requires CommRing(R)
    ensures Pow(QuadRing(R, r), x, n) == MulExt(R, r, Quad(R.one, R.zero), Pow(QuadRing(R, r), x, n))
  {
    var Q := QuadRing(R, r);
    QuadIsRing(R, r);
    assert Laws(Q, Pow(Q, x, n), Q.one, Q.one);
  }

  lemma BitStep<T(!new)>(Q: Ring<T>, result: T, base: T, n: nat)
    requires CommRing(Q) && n > 0
    ensures n % 2 == 1 ==>
            Q.mul(result, Pow(Q, base, n)) == Q.mul(Q.mul(result, base), Pow(Q, Q.mul(base, base), n / 2))
    ensures n % 2 == 0 ==> Q.mul(result, Pow(Q, base, n)) == Q.mul(result, Pow(Q, Q.mul(base, base), n / 2))
  {
    var h := n / 2;
    PowSmall(Q, base);
    PowMul(Q, base, 2, h);
    PowStep(Q, base, 2 * h);
    assert Laws(Q, result, base, Pow(Q, base, 2 * h));
  }
}
