/** Addition and doubling of affine points of a short Weierstrass curve on unsigned integers, with their panics. */
module Weierstrass {
  import opened Modular
  import opened Wrappers
  import opened PrimePowers
  import opened ScalarMul

  datatype Affine = Affine(x: nat, y: nat)

  /** `a - b` after adding the modulus, reduced. */
  function SubMod(m: nat, a: nat, b: nat): nat
    requires m >= 1 && a + m >= b
  {
    (a + m - b) % m
  }

  /** The third point of the line with a slope through `p`, reflected; unsigned subtractions panic below zero. */
  function Third(m: nat, slope: nat, p: Affine, x2: nat): Option<Affine>
    requires m >= 1
  {
    if slope * slope + m + m < p.x + x2 then None
    else
      var x := SubMod(m, slope * slope + m, p.x + x2);
      if m + p.x < x || slope * (m + p.x - x) + m < p.y then None
      else Some(Affine(x, SubMod(m, slope * (m + p.x - x), p.y)))
  }

  function Slope(m: nat, p: Affine, q: Affine): nat
    requires m >= 2 && m + q.x >= p.x && m + q.y >= p.y
  {
    (m + q.y - p.y) % m * PowMod((m + q.x - p.x) % m, m - 2, m) % m
  }

  /** The source's addition, which refuses equal points. */
  function SwAdd(m: nat, p: Affine, q: Affine): Option<Affine> {
    if p == q then None
    else if m < 2 || m + q.x < p.x || m + q.y < p.y then None
    else Third(m, Slope(m, p, q), p, q.x)
  }

  function TangentSlope(m: nat, a: nat, p: Affine): nat
    requires m >= 2
  {
    (a + p.x * p.x * 3) % m * PowMod(p.y * 2 % m, m - 2, m) % m
  }

  /** The source's doubling. */
  function SwDouble(m: nat, a: nat, p: Affine): Option<Affine> {
    if m < 2 then None else Third(m, TangentSlope(m, a, p), p, p.x)
  }

  function Addition(m: nat): (Affine, Affine) -> Option<Affine> {
    (p, q) => SwAdd(m, p, q)
  }

  predicate Reduced(m: nat, p: Affine) {
    p.x < m && p.y < m
  }

  // Panics.

  lemma NonNegative(x: nat, y: nat)
    ensures x * y >= 0
  {
  }

  lemma ThirdIsReduced(m: nat, slope: nat, p: Affine, x2: nat)
    requires m >= 1 && Reduced(m, p) && x2 < m
    ensures Third(m, slope, p, x2).Some? && Reduced(m, Third(m, slope, p, x2).value)
  {
    NonNegative(slope, slope);
    var x := SubMod(m, slope * slope + m, p.x + x2);
    NonNegative(slope, m + p.x - x);
  }

  /** On reduced coordinates only equal points panic, and the sum is reduced. */
  lemma SwAddPanicsIff(m: nat, p: Affine, q: Affine)
    requires m >= 2 && Reduced(m, p) && Reduced(m, q)
    ensures SwAdd(m, p, q).None? <==> p == q
    ensures p != q ==> Reduced(m, SwAdd(m, p, q).value)
  {
    if p != q {
      ThirdIsReduced(m, Slope(m, p, q), p, q.x);
    }
  }

  /** The trait's product doubles by adding a point to itself, so it panics on every such curve, point and scalar. */
  lemma SwProductPanics(m: nat, n: nat, p: Affine, scalar: nat)
    requires 1 <= n
    ensures Product(Addition(m), SelfSum(Addition(m)), None, n, p, scalar).Panicked?
  {
    assert Addition(m)(p, p) == None;
    SelfAdditionPanics(Addition(m), None, n, p, scalar);
  }

  // The line's equations.

  /** `r` is the reflected third point of the line of slope `e / d` through `p` and the abscissa `x2`. */
  ghost predicate OnLine(m: nat, p: Affine, x2: nat, d: int, e: int, r: Affine)
    requires m >= 1
  {
    && Congruent(m, (r.x + p.x + x2) * (d * d), e * e)
    && Congruent(m, (r.y + p.y) * d, e * (p.x - r.x))
  }

  lemma SubModBack(m: nat, a: nat, b: nat)
    requires m >= 1 && a + m >= b
    ensures Congruent(m, SubMod(m, a, b) + b, a)
  {
    var z := a + m - b;
    CongruentMod(m, z);
    CongruentAdd(m, z % m, z, b);
    ModShift(a, m, 1);
  }

  /** The sum of the abscissas is the square of the slope. */
  lemma ThirdAbscissa(m: nat, slope: nat, p: Affine, x2: nat)
    requires m >= 1 && Third(m, slope, p, x2).Some?
    ensures Congruent(m, Third(m, slope, p, x2).value.x + p.x + x2, slope * slope)
  {
    var s := slope * slope;
    SubModBack(m, s + m, p.x + x2);
    ModShift(s, m, 1);
  }

  lemma LineValue(m: nat, s: int, u: int, t: int)
    requires m >= 1 && u == m + t
    ensures Congruent(m, s * u, s * t)
  {
    Spread(s, m, t);
    ModShift(s * t, m, s);
  }

  lemma ThirdOrdinate(m: nat, slope: nat, p: Affine, x2: nat)
    requires m >= 1 && Third(m, slope, p, x2).Some?
    ensures var r := Third(m, slope, p, x2).value; Congruent(m, r.y + p.y, slope * (p.x - r.x))
  {
    var x := Third(m, slope, p, x2).value.x;
    var u := m + p.x - x;
    SubModBack(m, slope * u, p.y);
    LineValue(m, slope, u, p.x - x);
  }

  lemma Spread(s: int, m: int, t: int)
    ensures s * (m + t) == s * t + m * s
  {
  }

  lemma Squares(s: int, d: int)
    ensures s * s * (d * d) == s * d * (s * d)
  {
  }

  lemma Assoc(s: int, t: int, d: int)
    ensures s * t * d == s * d * t
  {
  }

  lemma ThirdOnLine(m: nat, slope: nat, p: Affine, x2: nat, d: int, e: int)
    requires m >= 1 && Third(m, slope, p, x2).Some? && Congruent(m, slope * d, e)
    ensures OnLine(m, p, x2, d, e, Third(m, slope, p, x2).value)
  {
    var r := Third(m, slope, p, x2).value;
    ThirdAbscissa(m, slope, p, x2);
    CongruentMul(m, r.x + p.x + x2, slope * slope, d * d);
    Squares(slope, d);
    CongruentMul(m, slope * d, e, slope * d);
    CongruentMul(m, slope * d, e, e);
    ThirdOrdinate(m, slope, p, x2);
    CongruentMul(m, r.y + p.y, slope * (p.x - r.x), d);
    Assoc(slope, p.x - r.x, d);
    CongruentMul(m, slope * d, e, p.x - r.x);
  }

  /** A quotient computed with the inverting power. */
  lemma QuotientTimes(m: nat, e: int, d: int)
    requires IsPrime(m) && d % m != 0
    ensures Congruent(m, e % m * PowMod(d % m, m - 2, m) % m * d, e)
  {
    var u, v, inv := e % m, d % m, PowMod(d % m, m - 2, m);
    PowerInverts(m, v);
    CongruentMod(m, u * inv);
    CongruentMul(m, u * inv % m, u * inv, d);
    CongruentMod(m, d);
    CongruentMul(m, v, d, u * inv);
    ModSmall(1, m);
    CongruentMul(m, inv * v, 1, u);
    Regroup(u, inv, v);
    CongruentMod(m, e);
  }

  lemma Regroup(u: int, inv: int, v: int)
    ensures u * inv * v == u * (inv * v) && u * 1 == u
  {
  }

  lemma DifferenceNonzero(m: nat, a: nat, b: nat)
    requires a < m && b < m && a != b
    ensures (b - a) % m != 0
  {
    if b > a {
      ModSmall(b - a, m);
    } else {
      ModShift(b - a, m, 1);
      ModSmall(b - a + m, m);
    }
  }

  /** Two solutions of a linear congruence with an invertible coefficient agree. */
  lemma LinearUnique(m: nat, a: nat, b: nat, c: int, d: int)
    requires IsPrime(m) && d % m != 0 && a < m && b < m && Congruent(m, (a + c) * d, (b + c) * d)
    ensures a == b
  {
    var x := a - b;
    CongruentAdd(m, (a + c) * d, (b + c) * d, -((b + c) * d));
    assert (a + c) * d - (b + c) * d == x * d;
    assert 0 % m == 0;
    ModMul(x, d, m);
    ModMulLeft(x, d % m, m);
    assert x % m * (d % m) % m == 0;
    if x % m != 0 {
      Euclid(m, x % m, d % m);
      ModSmall(d % m, m);
    }
    if a != b {
      DifferenceNonzero(m, b, a);
    }
  }

  lemma SquareNonzero(m: nat, d: int)
    requires IsPrime(m) && d % m != 0
    ensures d * d % m != 0
  {
    ModMul(d, d, m);
    ModMulLeft(d, d % m, m);
    if d * d % m == 0 {
      Euclid(m, d % m, d % m);
      ModSmall(d % m, m);
    }
  }

  /** The equations of a line with an invertible denominator have one reduced solution. */
  lemma OnLineUnique(m: nat, p: Affine, x2: nat, d: int, e: int, r: Affine, t: Affine)
    requires IsPrime(m) && d % m != 0 && Reduced(m, r) && Reduced(m, t)
    requires OnLine(m, p, x2, d, e, r) && OnLine(m, p, x2, d, e, t)
    ensures r == t
  {
    SquareNonzero(m, d);
    assert r.x + p.x + x2 == r.x + (p.x + x2) && t.x + p.x + x2 == t.x + (p.x + x2);
    LinearUnique(m, r.x, t.x, p.x + x2, d * d);
    LinearUnique(m, r.y, t.y, p.y, d);
  }

  lemma SwAddSlope(m: nat, p: Affine, q: Affine)
    requires IsPrime(m) && Reduced(m, p) && Reduced(m, q) && p.x != q.x
    ensures Congruent(m, Slope(m, p, q) * (q.x - p.x), q.y - p.y)
  {
    DifferenceNonzero(m, p.x, q.x);
    ModShift(q.x - p.x, m, 1);
    ModShift(q.y - p.y, m, 1);
    QuotientTimes(m, q.y - p.y, q.x - p.x);
  }

  /** Modulo a prime, the sum of points with different abscissas is the one reduced point on their chord. */
  lemma SwAddIsChord(m: nat, p: Affine, q: Affine, r: Affine)
    requires IsPrime(m) && Reduced(m, p) && Reduced(m, q) && p.x != q.x && Reduced(m, r)
    ensures SwAdd(m, p, q) == Some(r) <==> OnLine(m, p, q.x, q.x - p.x, q.y - p.y, r)
  {
    SwAddPanicsIff(m, p, q);
    SwAddSlope(m, p, q);
    ThirdOnLine(m, Slope(m, p, q), p, q.x, q.x - p.x, q.y - p.y);
    DifferenceNonzero(m, p.x, q.x);
    if OnLine(m, p, q.x, q.x - p.x, q.y - p.y, r) {
      OnLineUnique(m, p, q.x, q.x - p.x, q.y - p.y, r, SwAdd(m, p, q).value);
    }
  }

  /**
   Modulo a prime, the double of a point whose doubled ordinate is nonzero is the one reduced point on its tangent.
   */
  lemma SwDoubleIsTangent(m: nat, a: nat, p: Affine, r: Affine)
    requires IsPrime(m) && Reduced(m, p) && 2 * p.y % m != 0 && Reduced(m, r)
    ensures SwDouble(m, a, p) == Some(r) <==> OnLine(m, p, p.x, 2 * p.y, 3 * (p.x * p.x) + a, r)
  {
    var d, e := 2 * p.y, 3 * (p.x * p.x) + a;
    var slope := TangentSlope(m, a, p);
    QuotientTimes(m, e, d);
    ThirdIsReduced(m, slope, p, p.x);
    ThirdOnLine(m, slope, p, p.x, d, e);
    if OnLine(m, p, p.x, d, e, r) {
      OnLineUnique(m, p, p.x, d, e, r, SwDouble(m, a, p).value);
    }
  }

  // Equal abscissas.

  lemma {:induction false} ZeroPower(e: nat, m: nat)
    requires m >= 1 && e >= 1
    ensures PowMod(0, e, m) == 0
  {
    assert 0 * PowMod(0, e - 1, m) == 0;
    ModSmall(0, m);
  }

  /**
   Different points with one abscissa do not panic: the inverse of a zero denominator is zero, and (-2x, -y) comes back.
   */
  lemma SwAddOpposite(m: nat, p: Affine, q: Affine)
    requires m >= 3 && Reduced(m, p) && Reduced(m, q) && p.x == q.x && p.y != q.y
    ensures SwAdd(m, p, q) == Some(Affine((2 * m - 2 * p.x) % m, (m - p.y) % m))
  {
    assert Slope(m, p, q) == 0 by {
      MultipleMod(m, 1);
      assert (m + q.x - p.x) % m == 0;
      ZeroPower(m - 2, m);
      ModSmall(0, m);
    }
    var x := (2 * m - 2 * p.x) % m;
    assert 0 * (m + p.x - x) == 0;
    assert SubMod(m, 0 * 0 + m, p.x + q.x) == x;
  }
}
