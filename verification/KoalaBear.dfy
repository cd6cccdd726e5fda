/**
 The prime field of order 2^31 - 2^24 + 1.

 Nothing is taken on trust: 3 is shown to generate every nonzero residue, from which inverses,
 Fermat's little theorem and the absence of zero divisors follow.
 */
module KoalaBear {
  import opened Modular
  import opened Algebra
  import opened Binomial

  const P: nat := 2130706433

  type Fp = x: int | 0 <= x < P

  function Add(x: Fp, y: Fp): Fp { (x + y) % P }
  function Neg(x: Fp): Fp { if x == 0 then 0 else P - x }
  function Mul(x: Fp, y: Fp): Fp { x * y % P }

  function FpRing(): Ring<Fp> {
    Ring(0, 1, Add, Neg, Mul)
  }

  lemma AddAssoc(x: Fp, y: Fp, z: Fp)
    ensures Add(Add(x, y), z) == Add(x, Add(y, z))
  {
    ModAddLeft(x + y, z, P);
    ModAddLeft(y + z, x, P);
  }

  lemma AddLaws(x: Fp, y: Fp)
    ensures Add(x, y) == Add(y, x) && Add(x, 0) == x && Add(x, Neg(x)) == 0
  {
  }

  lemma MulAssoc(x: Fp, y: Fp, z: Fp)
    ensures Mul(Mul(x, y), z) == Mul(x, Mul(y, z))
  {
    var xy, yz := x * y, y * z;
    ModMul(xy, z, P);
    ModMul(x, yz, P);
    assert xy * z == x * yz;
  }

  lemma MulLaws(x: Fp, y: Fp)
    ensures Mul(x, y) == Mul(y, x) && Mul(x, 1) == x
  {
    assert x * y == y * x;
  }

  lemma MulDistributes(x: Fp, y: Fp, z: Fp)
    ensures Mul(x, Add(y, z)) == Add(Mul(x, y), Mul(x, z))
  {
    var xy, xz := x * y, x * z;
    ModMul(x, y + z, P);
    assert x * (y + z) == xy + xz;
    ModAdd(xy, xz, P);
    ModAdd(xy % P, xz, P);
  }

  lemma FpLaws(x: Fp, y: Fp, z: Fp)
    ensures Laws(FpRing(), x, y, z)
  {
    AddAssoc(x, y, z);
    AddLaws(x, y);
    MulAssoc(x, y, z);
    MulLaws(x, y);
    MulDistributes(x, y, z);
  }

  lemma FpIsRing()
    ensures CommRing(FpRing())
  {
    forall x: Fp, y: Fp, z: Fp
      ensures Laws(FpRing(), x, y, z)
    {
      FpLaws(x, y, z);
    }
  }

  // Powers of 3.

  ghost function G(n: nat): Fp {
    Pow(FpRing(), 3, n)
  }

  lemma GAdd(m: nat, n: nat)
    ensures G(m + n) == Mul(G(m), G(n))
  {
    FpIsRing();
    PowAdd(FpRing(), 3, m, n);
  }

  /** `f(n)` is 3^n; the chains below know nothing else about it. */
  ghost predicate PowersAt(f: nat -> Fp, m: nat, n: nat) {
    f(m + n) == f(m) * f(n) % P
  }

  ghost predicate PowersOf3(f: nat -> Fp) {
    f(1) == 3 && forall m: nat, n: nat :: PowersAt(f, m, n)
  }

  lemma Double(f: nat -> Fp, n: nat, v: Fp, w: Fp)
    requires PowersOf3(f) && f(n) == v && v * v % P == w
    ensures f(2 * n) == w
  {
    assert PowersAt(f, n, n);
  }

  lemma DoubleAndAdd(f: nat -> Fp, n: nat, v: Fp, u: Fp, w: Fp)
    requires PowersOf3(f) && f(n) == v && v * v % P == u && u * 3 % P == w
    ensures f(2 * n + 1) == w
  {
    assert PowersAt(f, n, n);
    assert PowersAt(f, 2 * n, 1);
  }

  lemma ChainTo127(f: nat -> Fp)
    requires PowersOf3(f)
    ensures f(127) == 1791270792
  {
    DoubleAndAdd(f, 1, 3, 9, 27);
    DoubleAndAdd(f, 3, 27, 729, 2187);
    DoubleAndAdd(f, 7, 2187, 4782969, 14348907);
    DoubleAndAdd(f, 15, 14348907, 969473859, 777715144);
    DoubleAndAdd(f, 31, 777715144, 1296657966, 1759267465);
    DoubleAndAdd(f, 63, 1759267465, 597090264, 1791270792);
  }

  lemma ChainTwo8(f: nat -> Fp)
    requires PowersOf3(f)
    ensures f(256) == 925288330
  {
    Double(f, 1, 3, 9);
    Double(f, 2, 9, 81);
    Double(f, 4, 81, 6561);
    Double(f, 8, 6561, 43046721);
    Double(f, 16, 43046721, 202438999);
    Double(f, 32, 202438999, 1016389529);
    Double(f, 64, 1016389529, 1112399510);
    Double(f, 128, 1112399510, 925288330);
  }

  lemma ChainTwo16(f: nat -> Fp)
    requires PowersOf3(f)
    ensures f(65536) == 2072804047
  {
    ChainTwo8(f);
    Double(f, 256, 925288330, 1368166559);
    Double(f, 512, 1368166559, 1178470116);
    Double(f, 1024, 1178470116, 1220923943);
    Double(f, 2048, 1220923943, 1356258691);
    Double(f, 4096, 1356258691, 591038889);
    Double(f, 8192, 591038889, 919906353);
    Double(f, 16384, 919906353, 435958235);
    Double(f, 32768, 435958235, 2072804047);
  }

  lemma ChainTwo24(f: nat -> Fp)
    requires PowersOf3(f)
    ensures f(16777216) == 1828256994 && f(8388608) == 69130339
  {
    ChainTwo16(f);
    Double(f, 65536, 2072804047, 555809599);
    Double(f, 131072, 555809599, 749749968);
    Double(f, 262144, 749749968, 14471777);
    Double(f, 524288, 14471777, 932825293);
    Double(f, 1048576, 932825293, 338912181);
    Double(f, 2097152, 338912181, 297594125);
    Double(f, 4194304, 297594125, 69130339);
    Double(f, 8388608, 69130339, 1828256994);
  }

  lemma ChainHalf8(f: nat -> Fp)
    requires PowersOf3(f)
    ensures f(32512) == 1848593786
  {
    ChainTo127(f);
    Double(f, 127, 1791270792, 1760025929);
    Double(f, 254, 1760025929, 542991299);
    Double(f, 508, 542991299, 1213133211);
    Double(f, 1016, 1213133211, 1364057261);
    Double(f, 2032, 1364057261, 339671193);
    Double(f, 4064, 339671193, 1816824389);
    Double(f, 8128, 1816824389, 373019801);
    Double(f, 16256, 373019801, 1848593786);
  }

  lemma ChainHalf16(f: nat -> Fp)
    requires PowersOf3(f)
    ensures f(8323072) == 392596362
  {
    ChainHalf8(f);
    Double(f, 32512, 1848593786, 1168510561);
    Double(f, 65024, 1168510561, 1047035213);
    Double(f, 130048, 1047035213, 809067698);
    Double(f, 260096, 809067698, 1989134074);
    Double(f, 520192, 1989134074, 2000983452);
    Double(f, 1040384, 2000983452, 860702919);
    Double(f, 2080768, 860702919, 665670555);
    Double(f, 4161536, 665670555, 392596362);
  }

  lemma ChainHalf24(f: nat -> Fp)
    requires PowersOf3(f)
    ensures f(2130706432) == 1 && f(1065353216) == 2130706432
  {
    ChainHalf16(f);
    Double(f, 8323072, 392596362, 699882112);
    Double(f, 16646144, 699882112, 1548376985);
    Double(f, 33292288, 1548376985, 170455089);
    Double(f, 66584576, 170455089, 148625052);
    Double(f, 133169152, 148625052, 1748172362);
    Double(f, 266338304, 1748172362, 2113994754);
    Double(f, 532676608, 2113994754, 2130706432);
    Double(f, 1065353216, 2130706432, 1);
  }

  lemma GPowers() returns (f: nat -> Fp)
    ensures PowersOf3(f) && forall n: nat :: f(n) == G(n)
  {
    f := (n: nat) => G(n);
    FpIsRing();
    PowSmall(FpRing(), 3);
    forall m: nat, n: nat
      ensures PowersAt(f, m, n)
    {
      GAdd(m, n);
    }
  }

  /** 3^(P-1) is 1, but 3^((P-1)/2) is -1 and 3^((P-1)/127) is not 1. */
  lemma GOrder()
    ensures G(P - 1) == 1 && G((P - 1) / 2) == P - 1 && G((P - 1) / 127) != 1
  {
    var f := GPowers();
    ChainHalf24(f);
    ChainTwo24(f);
    assert f(2130706432) == 1 && f(1065353216) == 2130706432 && f(16777216) == 1828256994;
  }

  // The order of 3 is P - 1.

  lemma GMultiple(d: nat, j: nat)
    requires G(d) == 1
    ensures G(d * j) == 1
  {
    FpIsRing();
    PowMul(FpRing(), 3, d, j);
    PowOne(FpRing(), j);
  }

  /** Two periods of the powers of 3 have a common divisor that is a period. */
  lemma {:induction false} CommonPeriod(k: nat, n: nat) returns (d: nat)
    requires 0 < k && G(k) == 1 && G(n) == 1
    ensures 0 < d <= k && G(d) == 1 && k % d == 0 && n % d == 0
    decreases k
  {
    var q, r := n / k, n % k;
    assert n == k * q + r;
    if r == 0 {
      d := k;
      MultipleMod(k, 1);
    } else {
      assert q >= 0;
      GMultiple(k, q);
      GAdd(k * q, r);
      assert G(r) == 1;
      d := CommonPeriod(r, k);
      DividesSum(d, k, q, r);
    }
  }

  lemma DividesSum(d: nat, k: nat, q: nat, r: nat)
    requires 0 < d && k % d == 0 && r % d == 0
    ensures (k * q + r) % d == 0
  {
    var a, b := k / d, r / d;
    assert k == d * a && r == d * b;
    assert k * q + r == d * (a * q + b) by {
      assert (d * a) * q == d * (a * q);
      assert d * (a * q + b) == d * (a * q) + d * b;
    }
    MultipleMod(d, a * q + b);
  }

  /** An odd factor of `2^e * q` divides `q`. */
  lemma {:induction false} OddFactor(m: nat, d: nat, e: nat, q: nat) returns (d': nat)
    requires m % 2 == 1 && m * d == Pow2(e) * q
    ensures d == Pow2(e) * d' && m * d' == q
    decreases e
  {
    if e == 0 {
      d' := d;
    } else {
      var h := Pow2(e - 1) * q;
      assert m * d == 2 * h by { assert Pow2(e) * q == 2 * h; }
      EvenFactor(m, d, h);
      assert m * (d / 2) == h by { assert 2 * (m * (d / 2)) == m * d; }
      d' := OddFactor(m, d / 2, e - 1, q);
      assert Pow2(e) * d' == 2 * (Pow2(e - 1) * d');
    }
  }

  lemma OddTimesOdd(a: nat, b: nat)
    ensures (2 * a + 1) * (2 * b + 1) == 2 * (2 * (a * b) + a + b) + 1
  {
  }

  lemma EvenFactor(m: nat, d: nat, h: nat)
    requires m % 2 == 1 && m * d == 2 * h
    ensures d % 2 == 0
  {
    if d % 2 == 1 {
      OddTimesOdd(m / 2, d / 2);
    }
  }

  lemma SmallFactor(m: nat, d: nat)
    requires m * d == 127 && m <= 11
    ensures m == 1
  {
    assert m == 0 || m == 1 || m == 2 || m == 3 || m == 4 || m == 5 ||
           m == 6 || m == 7 || m == 8 || m == 9 || m == 10 || m == 11;
  }

  lemma ProductAtLeast(k: nat, m: nat, d: nat)
    requires m >= k && d >= k
    ensures m * d >= k * k
  {
    assert (m - k) * d >= 0 && k * (d - k) >= 0;
  }

  lemma Factors127(m: nat, d: nat)
    requires m * d == 127 && m > 1
    ensures d == 1
  {
    if m <= 11 {
      SmallFactor(m, d);
    } else if d <= 11 {
      assert d * m == 127;
      SmallFactor(d, m);
    } else {
      ProductAtLeast(12, m, d);
    }
  }

  /** A proper divisor of P - 1 divides half of it or is its 127th part's divisor. */
  lemma ProperDivisor(d: nat, m: nat)
    requires d * m == P - 1 && m > 1
    ensures m % 2 == 0 ==> d * (m / 2) == (P - 1) / 2
    ensures m % 2 == 1 ==> d == (P - 1) / 127
  {
    if m % 2 == 0 {
      assert d * m == 2 * (d * (m / 2));
    } else {
      PMinusOne();
      assert m * d == d * m;
      var d' := OddFactor(m, d, 24, 127);
      Factors127(m, d');
    }
  }

  lemma PMinusOne()
    ensures P - 1 == Pow2(24) * 127
  {
    assert Pow2(8) == 256;
    assert Pow2(16) == 65536;
    assert Pow2(24) == 16777216;
  }

  lemma NoSmallPeriod(k: nat)
    requires 0 < k < P - 1
    ensures G(k) != 1
  {
    GOrder();
    if G(k) == 1 {
      var d := CommonPeriod(k, P - 1);
      var m := (P - 1) / d;
      assert d * m == P - 1;
      ProperDivisor(d, m);
      GMultiple(d, m / 2);
    }
  }

  // Every nonzero residue is a power of 3.

  lemma GInjective(i: nat, j: nat)
    requires i < j < P - 1
    ensures G(i) != G(j)
  {
    if G(i) == G(j) {
      var k := P - 1 - j;
      GOrder();
      GAdd(k, j);
      GAdd(k, i);
      assert G(k + i) == G(k + j) == 1;
      NoSmallPeriod(k + i);
      assert false;
    }
  }

  ghost function Image(n: nat): set<int> {
    set k: nat | k < n :: G(k)
  }

  lemma GFresh(n: nat)
    requires n < P - 1
    ensures G(n) !in Image(n)
  {
    if G(n) in Image(n) {
      var k: nat :| k < n && G(k) == G(n);
      GInjective(k, n);
    }
  }

  lemma {:induction false} ImageSize(n: nat)
    requires n <= P - 1
    ensures |Image(n)| == n
    decreases n
  {
    if n > 0 {
      ImageSize(n - 1);
      GFresh(n - 1);
      assert Image(n) == Image(n - 1) + {G(n - 1)};
    }
  }

  ghost predicate Within(x: int, n: nat) {
    1 <= x <= n
  }

  ghost function UpTo(n: nat): set<int> {
    set x: int | 1 <= x <= n && Within(x, n)
  }

  lemma {:induction false} UpToSize(n: nat)
    ensures |UpTo(n)| == n
    decreases n
  {
    if n > 0 {
      UpToSize(n - 1);
      assert forall x :: Within(x, n) <==> Within(x, n - 1) || x == n;
      assert UpTo(n) == UpTo(n - 1) + {n};
    }
  }

  lemma {:induction false} SubsetSize<T>(a: set<T>, b: set<T>)
    requires a <= b
    ensures |a| <= |b|
    ensures |a| == |b| ==> a == b
  {
    if a != {} {
      var x :| x in a;
      SubsetSize(a - {x}, b - {x});
      assert a == (a - {x}) + {x} && b == (b - {x}) + {x};
    }
  }

  lemma GNonzero(k: nat)
    requires k < P - 1
    ensures G(k) != 0
  {
    GOrder();
    GAdd(k, P - 1 - k);
  }

  /** 3 generates the multiplicative group. */
  lemma Generates(x: Fp) returns (k: nat)
    requires x != 0
    ensures k < P - 1 && G(k) == x
  {
    ImageSize(P - 1);
    UpToSize(P - 1);
    var powers, units := Image(P - 1), UpTo(P - 1);
    forall y | y in powers
      ensures y in units
    {
      var j: nat :| j < P - 1 && G(j) == y;
      GNonzero(j);
      assert Within(y, P - 1);
    }
    SubsetSize(powers, units);
    assert Within(x, P - 1) && x in powers;
    k :| k < P - 1 && G(k) == x;
  }

  // The field.

  /** Fermat's little theorem. */
  lemma Fermat(x: Fp)
    requires x != 0
    ensures Pow(FpRing(), x, P - 1) == 1
  {
    var k := Generates(x);
    FpIsRing();
    GOrder();
    PowMul(FpRing(), 3, k, P - 1);
    GMultiple(P - 1, k);
    assert k * (P - 1) == (P - 1) * k;
  }

  lemma FermatAll(x: Fp)
    ensures Pow(FpRing(), x, P) == x
  {
    FpIsRing();
    PowStep(FpRing(), x, P - 1);
    if x == 0 {
      assert Mul(0, Pow(FpRing(), x, P - 1)) == 0;
    } else {
      Fermat(x);
    }
  }

  /** The inverse of a nonzero element, as its power by P - 2. */
  ghost function Inv(x: Fp): (y: Fp)
    requires x != 0
    ensures Mul(x, y) == 1 && y != 0
  {
    Fermat(x);
    PowStep(FpRing(), x, P - 2);
    Pow(FpRing(), x, P - 2)
  }

  lemma MulNonzero(x: Fp, y: Fp)
    requires x != 0 && Mul(x, y) == 0
    ensures y == 0
  {
    FpIsRing();
    CancelZero(FpRing(), x, Inv(x), y);
  }

  lemma CancelZero(R: Ring<Fp>, x: Fp, x': Fp, y: Fp)
    requires CommRing(R) && R.mul(x, x') == R.one && R.mul(x, y) == R.zero
    ensures y == R.zero
  {
    assert Laws(R, x', x, y) && Laws(R, R.one, y, y) && Laws(R, y, R.one, y);
    MulZero(R, x');
  }

  lemma PHasNoZeroDivisors()
    ensures NoZeroDivisors(P)
  {
    forall a: nat, b: nat
      ensures ZeroProduct(P, a, b)
    {
      var x: Fp, y: Fp := a % P, b % P;
      ModMul(a, b, P);
      ModMul(a % P, b, P);
      if a * b % P == 0 && x != 0 {
        MulNonzero(x, y);
      }
    }
  }

  lemma AddMultiple(x: Fp, y: int, z: int)
    requires z == x + y
    ensures Add(x, y % P) == z % P
  {
    ModAdd(x, y, P);
  }

  lemma NextMultiple(n: nat, x: int)
    requires n > 0
    ensures n * x == x + (n - 1) * x
  {
  }

  lemma {:induction false} TimesFp(n: nat, x: Fp)
    ensures Times(FpRing(), n, x) == n * x % P
    decreases n
  {
    TimesStep(FpRing(), x, 0);
    if n > 0 {
      TimesFp(n - 1, x);
      TimesStep(FpRing(), x, n - 1);
      NextMultiple(n, x);
      AddMultiple(x, (n - 1) * x, n * x);
    }
  }

  lemma FpCharacteristic()
    ensures Characteristic(FpRing(), P)
  {
    forall x: Fp
      ensures Times(FpRing(), P, x) == 0
    {
      TimesFp(P, x);
      MultipleMod(P, x);
    }
  }
}
