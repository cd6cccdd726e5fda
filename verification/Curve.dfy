/** Points of a short Weierstrass curve and the source's incomplete and complete additions. */
module Curve {
  import opened Wrappers
  import opened Algebra
  import opened FieldAlgebra

  datatype Point<T> = Point(x: T, y: T)

  /** The curve `y^2 = x^3 + a x + b`. */
  datatype Curve<!T(==)> = Curve(F: Field<T>, a: T, b: T) {
    function Formula(x: T): T {
      F.R.add(F.R.add(Cube(F.R, x), F.R.mul(x, a)), b)
    }

    predicate OnCurve(p: Point<T>) {
      F.R.mul(p.y, p.y) == Formula(p.x)
    }

    function Neg(p: Point<T>): Point<T> {
      Point(p.x, F.R.neg(p.y))
    }

    /** The third intersection of the line through `p` with slope `s`, reflected; `x2` is the second one. */
    function Third(s: T, p: Point<T>, x2: T): Point<T> {
      var x := Sub(F.R, Sub(F.R, F.R.mul(s, s), p.x), x2);
      Point(x, Sub(F.R, F.R.mul(s, Sub(F.R, p.x, x)), p.y))
    }

    /** The source requires distinct abscissas: it divides by their difference. */
    function AddIncomplete(p: Point<T>, q: Point<T>): Point<T>
      requires p.x != q.x
    {
      Third(Div(F, Sub(F.R, q.y, p.y), Sub(F.R, q.x, p.x)), p, q.x)
    }

    function Two(): T {
      F.R.add(F.R.one, F.R.one)
    }

    function Three(): T {
      F.R.add(Two(), F.R.one)
    }

    function Double(p: Point<T>): Point<T>
      requires F.R.mul(p.y, Two()) != F.R.zero
    {
      var s := Div(F, F.R.add(F.R.mul(F.R.mul(p.x, p.x), Three()), a), F.R.mul(p.y, Two()));
      var x := Sub(F.R, F.R.mul(s, s), F.R.mul(p.x, Two()));
      Point(x, Sub(F.R, F.R.mul(s, Sub(F.R, p.x, x)), p.y))
    }

    function SumCheckerX(p: Point<T>, q: Point<T>, r: Point<T>): T {
      var d, e := Sub(F.R, q.x, p.x), Sub(F.R, q.y, p.y);
      Sub(F.R, F.R.mul(F.R.add(F.R.add(p.x, q.x), r.x), F.R.mul(d, d)), F.R.mul(e, e))
    }

    function SumCheckerY(p: Point<T>, q: Point<T>, r: Point<T>): T {
      var d, e := Sub(F.R, q.x, p.x), Sub(F.R, q.y, p.y);
      Sub(F.R, F.R.mul(F.R.add(p.y, r.y), d), F.R.mul(e, Sub(F.R, p.x, r.x)))
    }
  }

  ghost predicate Valid<T(!new)>(C: Curve<T>) {
    IsField(C.F)
  }

  // The line and the divided differences of the curve along it.

  ghost function Line<T>(R: Ring<T>, s: T, p: Point<T>, u: T): T {
    R.add(p.y, R.mul(s, Sub(R, u, p.x)))
  }

  ghost function Quadratic<T>(R: Ring<T>, u: T, v: T): T {
    R.add(R.add(R.mul(u, u), R.mul(u, v)), R.mul(v, v))
  }

  lemma LineStep<T(!new)>(R: Ring<T>, s: T, p: Point<T>, u: T, v: T)
    requires CommRing(R)
    ensures Sub(R, Line(R, s, p, u), Line(R, s, p, v)) == R.mul(s, Sub(R, u, v))
  {
    SubShift(R, p.y, R.mul(s, Sub(R, u, p.x)), R.mul(s, Sub(R, v, p.x)));
    MulSub(R, s, Sub(R, u, p.x), Sub(R, v, p.x));
    SubShift(R, R.neg(p.x), u, v);
  }

  lemma FormulaStep<T(!new)>(C: Curve<T>, u: T, v: T)
    requires Valid(C)
    ensures Sub(C.F.R, C.Formula(u), C.Formula(v)) ==
            C.F.R.mul(Sub(C.F.R, u, v), C.F.R.add(Quadratic(C.F.R, u, v), C.a))
  {
    var R := C.F.R;
    SubShift(R, C.b, R.add(Cube(R, u), R.mul(u, C.a)), R.add(Cube(R, v), R.mul(v, C.a)));
    SubSwap(R, Cube(R, u), R.mul(u, C.a), Cube(R, v), R.mul(v, C.a));
    DifferenceOfCubes(R, u, v);
    MulSub(R, C.a, u, v);
    assert Laws(R, Sub(R, u, v), Quadratic(R, u, v), C.a);
  }

  /** The slope of `line^2 - formula` between `u` and `v`. */
  ghost function Divided<T>(C: Curve<T>, s: T, p: Point<T>, u: T, v: T): T {
    var R := C.F.R;
    Sub(R, R.mul(s, R.add(Line(R, s, p, u), Line(R, s, p, v))), R.add(Quadratic(R, u, v), C.a))
  }

  ghost function Excess<T>(C: Curve<T>, s: T, p: Point<T>, u: T): T {
    var l := Line(C.F.R, s, p, u);
    Sub(C.F.R, C.F.R.mul(l, l), C.Formula(u))
  }

  lemma ExcessStep<T(!new)>(C: Curve<T>, s: T, p: Point<T>, u: T, v: T)
    requires Valid(C)
    ensures Sub(C.F.R, Excess(C, s, p, u), Excess(C, s, p, v)) ==
            C.F.R.mul(Sub(C.F.R, u, v), Divided(C, s, p, u, v))
  {
    var R := C.F.R;
    var l, m, d := Line(R, s, p, u), Line(R, s, p, v), Sub(R, u, v);
    SubOfSubs(R, R.mul(l, l), C.Formula(u), R.mul(m, m), C.Formula(v));
    DifferenceOfSquares(R, l, m);
    LineStep(R, s, p, u, v);
    assert Laws(R, s, d, R.add(l, m)) && Laws(R, d, s, R.add(l, m));
    FormulaStep(C, u, v);
    MulSub(R, d, R.mul(s, R.add(l, m)), R.add(Quadratic(R, u, v), C.a));
  }

  lemma SubOfSubs<T(!new)>(R: Ring<T>, a: T, b: T, c: T, d: T)
    requires CommRing(R)
    ensures Sub(R, Sub(R, a, b), Sub(R, c, d)) == Sub(R, Sub(R, a, c), Sub(R, b, d))
  {
    SubSwap(R, a, R.neg(b), c, R.neg(d));
    NegLaws(R, b, R.neg(d));
  }

  lemma QuadraticStep<T(!new)>(R: Ring<T>, u: T, v: T, w: T)
    requires CommRing(R)
    ensures Sub(R, Quadratic(R, u, w), Quadratic(R, u, v)) == R.mul(Sub(R, w, v), R.add(R.add(u, v), w))
  {
    var d := Sub(R, w, v);
    SubSwap(R, R.add(R.mul(u, u), R.mul(u, w)), R.mul(w, w), R.add(R.mul(u, u), R.mul(u, v)), R.mul(v, v));
    SubShift(R, R.mul(u, u), R.mul(u, w), R.mul(u, v));
    MulSub(R, u, w, v);
    DifferenceOfSquares(R, w, v);
    assert Laws(R, d, u, R.add(w, v)) && Laws(R, u, d, u);
    assert Laws(R, u, v, w) && Laws(R, w, v, v);
  }

  /** Moving one end of a divided difference by `w - v` changes it by a multiple of `w - v`. */
  lemma DividedStep<T(!new)>(C: Curve<T>, s: T, p: Point<T>, u: T, v: T, w: T)
    requires Valid(C)
    ensures var R := C.F.R;
            Sub(R, Divided(C, s, p, u, w), Divided(C, s, p, u, v)) ==
            R.mul(Sub(R, w, v), Sub(R, R.mul(s, s), R.add(R.add(u, v), w)))
  {
    var R := C.F.R;
    var k, l, m, d := Line(R, s, p, u), Line(R, s, p, v), Line(R, s, p, w), Sub(R, w, v);
    SubOfSubs(R, R.mul(s, R.add(k, m)), R.add(Quadratic(R, u, w), C.a), R.mul(s, R.add(k, l)),
      R.add(Quadratic(R, u, v), C.a));
    MulSub(R, s, R.add(k, m), R.add(k, l));
    SubShift(R, k, m, l);
    LineStep(R, s, p, w, v);
    assert Laws(R, s, s, d) && Laws(R, R.mul(s, s), d, d);
    SubShift(R, C.a, Quadratic(R, u, w), Quadratic(R, u, v));
    QuadraticStep(R, u, v, w);
    MulSub(R, d, R.mul(s, s), R.add(R.add(u, v), w));
  }

  /** The line meets the curve again where the source says it does. */
  lemma ThirdOnCurve<T(!new)>(C: Curve<T>, s: T, p: Point<T>, x2: T)
    requires Valid(C) && C.OnCurve(p) && Divided(C, s, p, p.x, x2) == C.F.R.zero
    ensures C.OnCurve(C.Third(s, p, x2))
  {
    var R := C.F.R;
    var t := C.Third(s, p, x2);
    ThirdSum(C, s, p, x2);
    DividedStep(C, s, p, p.x, x2, t.x);
    MulZero(R, Sub(R, t.x, x2));
    SubLaws(R, Divided(C, s, p, p.x, t.x), R.zero);
    StartsOnCurve(C, s, p);
    ExcessStep(C, s, p, p.x, t.x);
    MulZero(R, Sub(R, p.x, t.x));
    SubLaws(R, R.zero, Excess(C, s, p, t.x));
    ThirdIsReflected(C, s, p, x2);
    var l := Line(R, s, p, t.x);
    SubLaws(R, R.mul(l, l), C.Formula(t.x));
  }

  lemma ThirdSum<T(!new)>(C: Curve<T>, s: T, p: Point<T>, x2: T)
    requires Valid(C)
    ensures var R := C.F.R; Sub(R, R.mul(s, s), R.add(R.add(p.x, x2), C.Third(s, p, x2).x)) == R.zero
  {
    var R := C.F.R;
    var x := C.Third(s, p, x2).x;
    SubIff(R, Sub(R, R.mul(s, s), p.x), x2, x);
    SubIff(R, R.mul(s, s), p.x, R.add(x2, x));
    assert Laws(R, p.x, x2, x);
    SubLaws(R, R.mul(s, s), x);
  }

  lemma StartsOnCurve<T(!new)>(C: Curve<T>, s: T, p: Point<T>)
    requires Valid(C) && C.OnCurve(p)
    ensures Line(C.F.R, s, p, p.x) == p.y && Excess(C, s, p, p.x) == C.F.R.zero
  {
    var R := C.F.R;
    SubLaws(R, p.x, p.x);
    MulZero(R, s);
    assert Laws(R, p.y, R.zero, R.zero);
    SubLaws(R, C.Formula(p.x), C.Formula(p.x));
  }

  lemma ThirdIsReflected<T(!new)>(C: Curve<T>, s: T, p: Point<T>, x2: T)
    requires Valid(C)
    ensures var R := C.F.R; var t := C.Third(s, p, x2); var l := Line(R, s, p, t.x);
            t.y == R.neg(l) && R.mul(t.y, t.y) == R.mul(l, l)
  {
    var R := C.F.R;
    var t := C.Third(s, p, x2);
    var l := Line(R, s, p, t.x);
    SubLaws(R, t.x, p.x);
    NegLaws(R, s, Sub(R, t.x, p.x));
    NegLaws(R, p.y, R.mul(s, Sub(R, t.x, p.x)));
    assert Laws(R, R.neg(p.y), R.mul(s, Sub(R, p.x, t.x)), p.y);
    NegLaws(R, l, l);
  }

  // The source's additions stay on the curve.

  lemma ChordTouches<T(!new)>(C: Curve<T>, s: T, p: Point<T>, q: Point<T>)
    requires Valid(C) && C.OnCurve(p) && C.OnCurve(q) && p.x != q.x
    requires C.F.R.mul(s, Sub(C.F.R, q.x, p.x)) == Sub(C.F.R, q.y, p.y)
    ensures Divided(C, s, p, p.x, q.x) == C.F.R.zero
  {
    var R := C.F.R;
    SubIff(R, q.y, p.y, R.mul(s, Sub(R, q.x, p.x)));
    assert Line(R, s, p, q.x) == q.y;
    SubLaws(R, C.Formula(q.x), C.Formula(q.x));
    StartsOnCurve(C, s, p);
    ExcessStep(C, s, p, p.x, q.x);
    SubLaws(R, R.zero, R.zero);
    DifferenceNonzero(C.F, p.x, q.x);
    ZeroProduct(C.F, Divided(C, s, p, p.x, q.x), Sub(R, p.x, q.x));
  }

  /** Adding two points with different abscissas stays on the curve. */
  lemma AddOnCurve<T(!new)>(C: Curve<T>, p: Point<T>, q: Point<T>)
    requires Valid(C) && C.OnCurve(p) && C.OnCurve(q) && p.x != q.x
    ensures C.OnCurve(C.AddIncomplete(p, q))
  {
    var d := Sub(C.F.R, q.x, p.x);
    var s := Div(C.F, Sub(C.F.R, q.y, p.y), d);
    DifferenceNonzero(C.F, q.x, p.x);
    DivMul(C.F, Sub(C.F.R, q.y, p.y), d);
    ChordTouches(C, s, p, q);
    ThirdOnCurve(C, s, p, q.x);
  }

  lemma Doubled<T(!new)>(C: Curve<T>, x: T)
    requires Valid(C)
    ensures C.F.R.mul(x, C.Two()) == C.F.R.add(x, x)
    ensures C.F.R.mul(x, C.Three()) == C.F.R.add(C.F.R.add(x, x), x)
  {
    var R := C.F.R;
    assert Laws(R, x, R.one, R.one);
    assert Laws(R, x, C.Two(), R.one);
  }

  lemma DoubleIsThird<T(!new)>(C: Curve<T>, p: Point<T>)
    requires Valid(C) && C.F.R.mul(p.y, C.Two()) != C.F.R.zero
    ensures var R := C.F.R;
            var s := Div(C.F, R.add(R.mul(R.mul(p.x, p.x), C.Three()), C.a), R.mul(p.y, C.Two()));
            C.Double(p) == C.Third(s, p, p.x)
  {
    var R := C.F.R;
    var s := Div(C.F, R.add(R.mul(R.mul(p.x, p.x), C.Three()), C.a), R.mul(p.y, C.Two()));
    Doubled(C, p.x);
    NegLaws(R, p.x, p.x);
    assert Laws(R, R.mul(s, s), R.neg(p.x), R.neg(p.x));
  }

  /** Doubling a point whose ordinate has a nonzero double stays on the curve. */
  lemma DoubleOnCurve<T(!new)>(C: Curve<T>, p: Point<T>)
    requires Valid(C) && C.OnCurve(p) && C.F.R.mul(p.y, C.Two()) != C.F.R.zero
    ensures C.OnCurve(C.Double(p))
  {
    var R := C.F.R;
    var n := R.add(R.mul(R.mul(p.x, p.x), C.Three()), C.a);
    var s := Div(C.F, n, R.mul(p.y, C.Two()));
    DivMul(C.F, n, R.mul(p.y, C.Two()));
    Doubled(C, p.y);
    Doubled(C, R.mul(p.x, p.x));
    StartsOnCurve(C, s, p);
    SubLaws(R, n, n);
    DoubleIsThird(C, p);
    ThirdOnCurve(C, s, p, p.x);
  }

  /** The third point of a line of slope `e / d`, without the division. */
  lemma LineEquations<T(!new)>(C: Curve<T>, s: T, p: Point<T>, x2: T, d: T, e: T)
    requires Valid(C) && C.F.R.mul(s, d) == e
    ensures var R, r := C.F.R, C.Third(s, p, x2);
            && R.mul(R.add(R.add(r.x, p.x), x2), R.mul(d, d)) == R.mul(e, e)
            && R.mul(R.add(r.y, p.y), d) == R.mul(e, Sub(R, p.x, r.x))
  {
    var R, r := C.F.R, C.Third(s, p, x2);
    var t := Sub(R, p.x, r.x);
    SubLaws(R, Sub(R, R.mul(s, s), p.x), x2);
    SubLaws(R, R.mul(s, s), p.x);
    assert Laws(R, r.x, p.x, x2) && Laws(R, p.x, x2, x2) && Laws(R, r.x, x2, p.x);
    MulSwap(R, s, s, d, d);
    SubLaws(R, R.mul(s, t), p.y);
    assert Laws(R, s, t, d) && Laws(R, t, d, d) && Laws(R, s, d, t);
  }

  /** What the sum of two points satisfies: it is the reflected third point of their chord. */
  lemma AddEquations<T(!new)>(C: Curve<T>, p: Point<T>, q: Point<T>)
    requires Valid(C) && p.x != q.x
    ensures var R, r := C.F.R, C.AddIncomplete(p, q);
            var d, e := Sub(R, q.x, p.x), Sub(R, q.y, p.y);
            && R.mul(R.add(R.add(r.x, p.x), q.x), R.mul(d, d)) == R.mul(e, e)
            && R.mul(R.add(r.y, p.y), d) == R.mul(e, Sub(R, p.x, r.x))
  {
    var d, e := Sub(C.F.R, q.x, p.x), Sub(C.F.R, q.y, p.y);
    DifferenceNonzero(C.F, q.x, p.x);
    DivMul(C.F, e, d);
    LineEquations(C, Div(C.F, e, d), p, q.x, d, e);
  }

  /** What the double of a point satisfies: it is the reflected third point of its tangent. */
  lemma DoubleEquations<T(!new)>(C: Curve<T>, p: Point<T>)
    requires Valid(C) && C.F.R.mul(p.y, C.Two()) != C.F.R.zero
    ensures var R, r, xx := C.F.R, C.Double(p), C.F.R.mul(p.x, p.x);
            var d, e := R.add(p.y, p.y), R.add(R.add(R.add(xx, xx), xx), C.a);
            && R.mul(R.add(R.add(r.x, p.x), p.x), R.mul(d, d)) == R.mul(e, e)
            && R.mul(R.add(r.y, p.y), d) == R.mul(e, Sub(R, p.x, r.x))
  {
    var R := C.F.R;
    var d, e := R.mul(p.y, C.Two()), R.add(R.mul(R.mul(p.x, p.x), C.Three()), C.a);
    DivMul(C.F, e, d);
    DoubleIsThird(C, p);
    Doubled(C, p.y);
    Doubled(C, R.mul(p.x, p.x));
    LineEquations(C, Div(C.F, e, d), p, p.x, d, e);
  }

  // The sum checkers.

  /** With `e == s * d`, the first checker vanishes exactly when the abscissas add up to the slope's square. */
  lemma CheckerX<T(!new)>(C: Curve<T>, s: T, p: Point<T>, q: Point<T>, r: Point<T>)
    requires Valid(C) && p.x != q.x
    requires C.F.R.mul(s, Sub(C.F.R, q.x, p.x)) == Sub(C.F.R, q.y, p.y)
    ensures C.SumCheckerX(p, q, r) == C.F.R.zero <==> r.x == C.Third(s, p, q.x).x
  {
    var R := C.F.R;
    var d, e, t := Sub(R, q.x, p.x), Sub(R, q.y, p.y), R.add(R.add(p.x, q.x), r.x);
    SubIff(R, R.mul(t, R.mul(d, d)), R.mul(e, e), R.zero);
    assert Laws(R, R.mul(e, e), R.zero, R.zero);
    MulSwap(R, s, d, s, d);
    DifferenceNonzero(C.F, q.x, p.x);
    SquareNonzero(C.F, d);
    CancelMul(C.F, t, R.mul(s, s), R.mul(d, d));
    assert Laws(R, p.x, q.x, r.x);
    SubIff(R, R.mul(s, s), p.x, R.add(q.x, r.x));
    SubIff(R, Sub(R, R.mul(s, s), p.x), q.x, r.x);
  }

  lemma SquareNonzero<T(!new)>(F: Field<T>, d: T)
    requires IsField(F) && d != F.R.zero
    ensures F.R.mul(d, d) != F.R.zero
  {
    if F.R.mul(d, d) == F.R.zero {
      ZeroProduct(F, d, d);
    }
  }

  lemma CheckerY<T(!new)>(C: Curve<T>, s: T, p: Point<T>, q: Point<T>, r: Point<T>)
    requires Valid(C) && p.x != q.x
    requires C.F.R.mul(s, Sub(C.F.R, q.x, p.x)) == Sub(C.F.R, q.y, p.y)
    ensures C.SumCheckerY(p, q, r) == C.F.R.zero <==>
            r.y == Sub(C.F.R, C.F.R.mul(s, Sub(C.F.R, p.x, r.x)), p.y)
  {
    var R := C.F.R;
    var d, e, w := Sub(R, q.x, p.x), Sub(R, q.y, p.y), Sub(R, p.x, r.x);
    SubIff(R, R.mul(R.add(p.y, r.y), d), R.mul(e, w), R.zero);
    assert Laws(R, R.mul(e, w), R.zero, R.zero);
    assert Laws(R, s, d, w) && Laws(R, s, w, d) && Laws(R, d, w, w);
    DifferenceNonzero(C.F, q.x, p.x);
    CancelMul(C.F, R.add(p.y, r.y), R.mul(s, w), d);
    SubIff(R, R.mul(s, w), p.y, r.y);
  }

  lemma CheckersDegenerate<T(!new)>(C: Curve<T>, p: Point<T>, q: Point<T>, r: Point<T>)
    requires Valid(C) && p.x == q.x
    ensures C.SumCheckerX(p, q, r) == C.F.R.zero && C.SumCheckerY(p, q, r) == C.F.R.zero <==> p.y == q.y
  {
    var R := C.F.R;
    var d, e := Sub(R, q.x, p.x), Sub(R, q.y, p.y);
    var t := R.add(R.add(p.x, q.x), r.x);
    SubLaws(R, p.x, p.x);
    MulZero(R, R.zero); MulZero(R, t); MulZero(R, R.add(p.y, r.y)); MulZero(R, Sub(R, p.x, r.x));
    SubLaws(R, R.zero, R.mul(e, e));
    SubLaws(R, R.zero, R.zero);
    SubLaws(R, q.y, p.y);
    if e != R.zero {
      SquareNonzero(C.F, e);
    }
  }

  /** Both checkers vanish exactly for the sum, or for any third point when the two summands coincide. */
  lemma CheckersIff<T(!new)>(C: Curve<T>, p: Point<T>, q: Point<T>, r: Point<T>)
    requires Valid(C)
    ensures C.SumCheckerX(p, q, r) == C.F.R.zero && C.SumCheckerY(p, q, r) == C.F.R.zero <==>
            p == q || (p.x != q.x && r == C.AddIncomplete(p, q))
  {
    if p.x == q.x {
      CheckersDegenerate(C, p, q, r);
    } else {
      var d := Sub(C.F.R, q.x, p.x);
      var s := Div(C.F, Sub(C.F.R, q.y, p.y), d);
      DifferenceNonzero(C.F, q.x, p.x);
      DivMul(C.F, Sub(C.F.R, q.y, p.y), d);
      CheckerX(C, s, p, q, r);
      CheckerY(C, s, p, q, r);
    }
  }

  // Complete addition.

  datatype Complete<T> = Infinity | Affine(point: Point<T>)

  /** The source's complete addition; `None` is the panic on doubling a point whose ordinate's double is zero. */
  function CompleteAdd<T(==)>(C: Curve<T>, g: Complete<T>, h: Complete<T>): Option<Complete<T>> {
    if g.Infinity? then Some(h)
    else if h.Infinity? then Some(g)
    else if g.point.x != h.point.x then Some(Affine(C.AddIncomplete(g.point, h.point)))
    else if g.point.y != h.point.y then Some(Infinity)
    else if C.F.R.mul(g.point.y, C.Two()) == C.F.R.zero then None
    else Some(Affine(C.Double(g.point)))
  }

  /** The group operation of the curve: a point and its reflection add up to infinity. */
  ghost function Plus<T>(C: Curve<T>, g: Complete<T>, h: Complete<T>): Complete<T> {
    if g.Infinity? then h
    else if h.Infinity? then g
    else if g.point.x != h.point.x then Affine(C.AddIncomplete(g.point, h.point))
    else if g.point.y == h.point.y && C.F.R.mul(g.point.y, C.Two()) != C.F.R.zero then Affine(C.Double(g.point))
    else Infinity
  }

  ghost function Minus<T>(C: Curve<T>, g: Complete<T>): Complete<T> {
    if g.Infinity? then Infinity else Affine(C.Neg(g.point))
  }

  ghost predicate Member<T>(C: Curve<T>, g: Complete<T>) {
    g.Affine? ==> C.OnCurve(g.point)
  }

  /** The source's complete addition is the group operation, except that it fails to double a point of order two. */
  lemma CompleteAddIff<T(!new)>(C: Curve<T>, g: Complete<T>, h: Complete<T>)
    requires Valid(C)
    ensures CompleteAdd(C, g, h) == Some(Plus(C, g, h)) <==>
            !(g == h && g.Affine? && C.F.R.mul(g.point.y, C.Two()) == C.F.R.zero)
    ensures Member(C, g) && Member(C, h) ==> Member(C, Plus(C, g, h))
  {
    if Member(C, g) && Member(C, h) && g.Affine? && h.Affine? {
      if g.point.x != h.point.x {
        AddOnCurve(C, g.point, h.point);
      } else if g.point.y == h.point.y && C.F.R.mul(g.point.y, C.Two()) != C.F.R.zero {
        DoubleOnCurve(C, g.point);
      }
    }
  }

  lemma NegOnCurve<T(!new)>(C: Curve<T>, p: Point<T>)
    requires Valid(C)
    ensures C.OnCurve(C.Neg(p)) <==> C.OnCurve(p)
  {
    NegLaws(C.F.R, p.y, p.y);
  }

  /** Adding the reflection of a point gives infinity. */
  lemma PlusMinus<T(!new)>(C: Curve<T>, g: Complete<T>)
    requires Valid(C)
    ensures Plus(C, g, Minus(C, g)) == Infinity && (Member(C, Minus(C, g)) <==> Member(C, g))
  {
    if g.Affine? {
      var y := g.point.y;
      NegOnCurve(C, g.point);
      Doubled(C, y);
      assert Laws(C.F.R, y, y, y);
    }
  }

  lemma AddCommutes<T(!new)>(C: Curve<T>, p: Point<T>, q: Point<T>)
    requires Valid(C) && p.x != q.x
    ensures C.AddIncomplete(p, q) == C.AddIncomplete(q, p)
  {
    var R := C.F.R;
    var d, e := Sub(R, q.x, p.x), Sub(R, q.y, p.y);
    var s := Div(C.F, e, d);
    DifferenceNonzero(C.F, q.x, p.x);
    DifferenceNonzero(C.F, p.x, q.x);
    DivMul(C.F, e, d);
    SubLaws(R, q.x, p.x);
    SubLaws(R, q.y, p.y);
    NegLaws(R, s, d);
    DivUnique(C.F, Sub(R, p.y, q.y), Sub(R, p.x, q.x), s);
    ThirdCommutes(C, s, p, q);
  }

  lemma ThirdCommutes<T(!new)>(C: Curve<T>, s: T, p: Point<T>, q: Point<T>)
    requires Valid(C) && C.F.R.mul(s, Sub(C.F.R, q.x, p.x)) == Sub(C.F.R, q.y, p.y)
    ensures C.Third(s, p, q.x) == C.Third(s, q, p.x)
  {
    var R := C.F.R;
    var x := C.Third(s, p, q.x).x;
    assert Laws(R, R.mul(s, s), R.neg(p.x), R.neg(q.x)) && Laws(R, R.mul(s, s), R.neg(q.x), R.neg(p.x));
    assert Laws(R, R.neg(p.x), R.neg(q.x), x);
    var u, v := R.mul(s, Sub(R, p.x, x)), R.mul(s, Sub(R, q.x, x));
    MulSub(R, s, Sub(R, q.x, x), Sub(R, p.x, x));
    SubShift(R, R.neg(x), q.x, p.x);
    assert Sub(R, v, u) == Sub(R, q.y, p.y);
    SubOfSubs(R, v, u, q.y, p.y);
    SubLaws(R, Sub(R, q.y, p.y), Sub(R, q.y, p.y));
    SubLaws(R, Sub(R, v, q.y), Sub(R, u, p.y));
  }

  lemma PlusCommutes<T(!new)>(C: Curve<T>, g: Complete<T>, h: Complete<T>)
    requires Valid(C)
    ensures Plus(C, g, h) == Plus(C, h, g)
  {
    if g.Affine? && h.Affine? && g.point.x != h.point.x {
      AddCommutes(C, g.point, h.point);
    }
  }

  /** The two square roots of an element are negatives of each other. */
  lemma RootsAreOpposite<T(!new)>(F: Field<T>, y: T, w: T)
    requires IsField(F) && F.R.mul(y, y) == F.R.mul(w, w)
    ensures w == y || w == F.R.neg(y)
  {
    DifferenceOfSquares(F.R, w, y);
    SubLaws(F.R, F.R.mul(y, y), F.R.mul(y, y));
    SubLaws(F.R, w, y);
    if w != y {
      DifferenceNonzero(F, w, y);
      ZeroProduct(F, F.R.add(w, y), Sub(F.R, w, y));
      assert Laws(F.R, w, y, y);
      NegUnique(F.R, y, w);
    }
  }

  /** Two points of the curve have the same abscissa exactly when they are equal or reflections of each other. */
  lemma SameAbscissaIff<T(!new)>(C: Curve<T>, p: Point<T>, q: Point<T>)
    requires Valid(C) && C.OnCurve(p) && C.OnCurve(q)
    ensures p.x == q.x <==> p == q || p == C.Neg(q)
  {
    if p.x == q.x {
      RootsAreOpposite(C.F, q.y, p.y);
    }
  }
}
