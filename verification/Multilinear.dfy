/** The Lagrange weights of a point, and how rarely a nonzero list is orthogonal to them. */
module Multilinear {
  import opened Modular
  import opened Algebra
  import opened FieldAlgebra
  import opened Polynomial

  // The weights.

  /** Each value split in two by a coordinate. */
  function Expand<T>(R: Ring<T>, evals: seq<T>, y: T): (r: seq<T>)
    ensures |r| == 2 * |evals|
  {
    if evals == [] then []
    else [Sub(R, evals[0], R.mul(evals[0], y)), R.mul(evals[0], y)] + Expand(R, evals[1..], y)
  }

  /** The weights of a point: index bits from the highest select `x` or `1 - x`. */
  function Lagrange<T>(R: Ring<T>, point: seq<T>): (r: seq<T>)
    ensures |r| == Pow2(|point|)
  {
    if point == [] then [R.one]
    else Expand(R, Lagrange(R, point[..|point| - 1]), point[|point| - 1])
  }

  lemma {:induction false} ExpandAt<T>(R: Ring<T>, evals: seq<T>, y: T, i: nat)
    requires i < 2 * |evals|
    ensures Expand(R, evals, y)[i] ==
            var v := evals[i / 2]; if i % 2 == 1 then R.mul(v, y) else Sub(R, v, R.mul(v, y))
  {
    if i >= 2 {
      ExpandAt(R, evals[1..], y, i - 2);
      assert Expand(R, evals, y)[i] == Expand(R, evals[1..], y)[i - 2];
      assert (i - 2) / 2 == i / 2 - 1;
    }
  }

  /**
   The product over the coordinates of `x` where the index has a one and `1 - x` where it has a zero, highest bit first.
   */
  ghost function Selected<T>(R: Ring<T>, point: seq<T>, i: nat): T {
    if point == [] then R.one
    else
      var y := point[|point| - 1];
      R.mul(Selected(R, point[..|point| - 1], i / 2), if i % 2 == 1 then y else Sub(R, R.one, y))
  }

  /** Each weight is the product its index selects. */
  lemma {:induction false} LagrangeAt<T(!new)>(R: Ring<T>, point: seq<T>, i: nat)
    requires CommRing(R) && i < Pow2(|point|)
    ensures Lagrange(R, point)[i] == Selected(R, point, i)
    decreases point
  {
    if point != [] {
      var front, y := point[..|point| - 1], point[|point| - 1];
      ExpandAt(R, Lagrange(R, front), y, i);
      LagrangeAt(R, front, i / 2);
      var v := Selected(R, front, i / 2);
      MulSub(R, v, R.one, y);
      assert Laws(R, v, y, y);
    }
  }

  lemma {:induction false} ExpandSnoc<T>(R: Ring<T>, evals: seq<T>, v: T, y: T)
    ensures Expand(R, evals + [v], y) == Expand(R, evals, y) + [Sub(R, v, R.mul(v, y)), R.mul(v, y)]
  {
    if evals == [] {
      assert evals + [v] == [v] && [v][1..] == [];
    } else {
      assert (evals + [v])[1..] == evals[1..] + [v];
      ExpandSnoc(R, evals[1..], v, y);
    }
  }

  /** The source's rounds, one per coordinate. */
  method PartialLagrange<T>(R: Ring<T>, point: seq<T>) returns (evals: seq<T>)
    ensures evals == Lagrange(R, point)
  {
    evals := [R.one];
    for i := 0 to |point|
      invariant evals == Lagrange(R, point[..i])
    {
      var next: seq<T> := [];
      for j := 0 to |evals|
        invariant next == Expand(R, evals[..j], point[i])
      {
        var prod := R.mul(evals[j], point[i]);
        ExpandSnoc(R, evals[..j], evals[j], point[i]);
        assert evals[..j + 1] == evals[..j] + [evals[j]];
        next := next + [Sub(R, evals[j], prod), prod];
      }
      assert evals[..|evals|] == evals;
      assert point[..i + 1][..i] == point[..i];
      evals := next;
    }
    assert point[..|point|] == point;
  }

  // Weighted sums.

  /** The sum of the products, as far as the first list goes. */
  function Dot<T>(R: Ring<T>, c: seq<T>, w: seq<T>): T
    requires |c| <= |w|
  {
    if c == [] then R.zero else R.add(R.mul(c[0], w[0]), Dot(R, c[1..], w[1..]))
  }

  function Minus<T>(R: Ring<T>, c: seq<T>, e: seq<T>): (r: seq<T>)
    requires |c| == |e|
    ensures |r| == |c|
  {
    seq(|c|, i requires 0 <= i < |c| => Sub(R, c[i], e[i]))
  }

  lemma {:induction false} DotMinus<T(!new)>(R: Ring<T>, c: seq<T>, e: seq<T>, w: seq<T>)
    requires CommRing(R) && |c| == |e| <= |w|
    ensures Dot(R, Minus(R, c, e), w) == Sub(R, Dot(R, c, w), Dot(R, e, w))
  {
    if c == [] {
      SubLaws(R, R.zero, R.zero);
    } else {
      assert Minus(R, c, e)[1..] == Minus(R, c[1..], e[1..]);
      DotMinus(R, c[1..], e[1..], w[1..]);
      MulSub(R, w[0], c[0], e[0]);
      SubSwap(R, R.mul(c[0], w[0]), Dot(R, c[1..], w[1..]), R.mul(e[0], w[0]), Dot(R, e[1..], w[1..]));
    }
  }

  lemma MinusZeros<T(!new)>(R: Ring<T>, c: seq<T>, e: seq<T>)
    requires CommRing(R) && |c| == |e| && Zeros(R, Minus(R, c, e))
    ensures c == e
  {
    forall i | 0 <= i < |c|
      ensures c[i] == e[i]
    {
      assert Minus(R, c, e)[i] == R.zero;
      SubLaws(R, c[i], e[i]);
    }
  }

  function Even<T>(c: seq<T>): (r: seq<T>)
    requires |c| % 2 == 0
    ensures 2 * |r| == |c|
  {
    seq(|c| / 2, i requires 0 <= i < |c| / 2 => c[2 * i])
  }

  function Odd<T>(c: seq<T>): (r: seq<T>)
    requires |c| % 2 == 0
    ensures 2 * |r| == |c|
  {
    seq(|c| / 2, i requires 0 <= i < |c| / 2 => c[2 * i + 1])
  }

  lemma HalvesTail<T>(R: Ring<T>, c: seq<T>)
    requires |c| % 2 == 0 && |c| >= 2
    ensures Even(c)[1..] == Even(c[2..])
    ensures Minus(R, Odd(c), Even(c))[1..] == Minus(R, Odd(c[2..]), Even(c[2..]))
  {
    assert Odd(c)[1..] == Odd(c[2..]);
  }

  lemma PairStep<T(!new)>(R: Ring<T>, a: T, b: T, v: T, y: T)
    requires CommRing(R)
    ensures R.add(R.mul(a, Sub(R, v, R.mul(v, y))), R.mul(b, R.mul(v, y))) ==
            R.add(R.mul(a, v), R.mul(y, R.mul(Sub(R, b, a), v)))
  {
    var vy, av, bv := R.mul(v, y), R.mul(a, v), R.mul(b, v);
    MulSub(R, a, v, vy);
    assert Laws(R, a, v, y) && Laws(R, b, v, y);
    MulSub(R, v, b, a);
    MulSub(R, y, bv, av);
    assert Laws(R, y, bv, bv) && Laws(R, y, av, av);
    var p, q := R.mul(av, y), R.mul(bv, y);
    assert Laws(R, av, R.neg(p), q) && Laws(R, R.neg(p), q, q);
  }

  /** Splitting the last coordinate off a weighted sum. */
  lemma {:induction false} DotExpand<T(!new)>(R: Ring<T>, c: seq<T>, w: seq<T>, y: T)
    requires CommRing(R) && |c| == 2 * |w|
    ensures Dot(R, c, Expand(R, w, y)) ==
            R.add(Dot(R, Even(c), w), R.mul(y, Dot(R, Minus(R, Odd(c), Even(c)), w)))
    decreases w
  {
    if w == [] {
      MulZero(R, y);
      assert Laws(R, R.zero, R.zero, R.zero);
    } else {
      var e := Expand(R, w, y);
      var rest := c[2..];
      assert e[1..][1..] == Expand(R, w[1..], y) && c[1..][1..] == rest;
      DotExpand(R, rest, w[1..], y);
      HalvesTail(R, c);
      var a, b := Dot(R, Even(rest), w[1..]), Dot(R, Minus(R, Odd(rest), Even(rest)), w[1..]);
      DotTwo(R, c, e);
      PairStep(R, c[0], c[1], w[0], y);
      var u, v := R.mul(c[0], w[0]), R.mul(Sub(R, c[1], c[0]), w[0]);
      AddSwap(R, u, R.mul(y, v), a, R.mul(y, b));
      assert Laws(R, y, v, b);
    }
  }

  lemma DotTwo<T(!new)>(R: Ring<T>, c: seq<T>, w: seq<T>)
    requires CommRing(R) && 2 <= |c| <= |w|
    ensures Dot(R, c, w) == R.add(R.add(R.mul(c[0], w[0]), R.mul(c[1], w[1])), Dot(R, c[1..][1..], w[1..][1..]))
  {
    assert Laws(R, R.mul(c[0], w[0]), R.mul(c[1], w[1]), Dot(R, c[1..][1..], w[1..][1..]));
  }

  lemma EvenOddZeros<T>(R: Ring<T>, c: seq<T>)
    requires |c| % 2 == 0 && Zeros(R, Even(c)) && Odd(c) == Even(c)
    ensures Zeros(R, c)
  {
    forall i | 0 <= i < |c|
      ensures c[i] == R.zero
    {
      assert c[i] == if i % 2 == 0 then Even(c)[i / 2] else Odd(c)[i / 2];
      assert Even(c)[i / 2] == R.zero;
    }
  }

  // Counting.

  function Exp(n: nat, e: nat): nat {
    if e == 0 then 1 else n * Exp(n, e - 1)
  }

  /** `k n^(k - 1)`. */
  function Bound(k: nat, n: nat): nat {
    if k == 0 then 0 else k * Exp(n, k - 1)
  }

  lemma Reorder(a: nat, x: nat, n: nat)
    ensures a * x * n == a * (n * x)
  {
  }

  lemma BoundStep(k: nat, n: nat)
    requires k >= 1
    ensures Bound(k, n) == Bound(k - 1, n) * n + Exp(n, k - 1)
  {
    if k > 1 {
      Reorder(k - 1, Exp(n, k - 2), n);
      OneMore(k - 1, Exp(n, k - 1));
    }
  }

  ghost predicate Over<T>(s: set<T>, e: nat, points: set<seq<T>>) {
    forall p <- points :: |p| == e && forall i :: 0 <= i < |p| ==> p[i] in s
  }

  ghost function Front<T>(p: seq<T>): seq<T> {
    if p == [] then [] else p[..|p| - 1]
  }

  ghost function Fronts<T>(points: set<seq<T>>): set<seq<T>> {
    set p | p in points :: Front(p)
  }

  lemma FrontsOver<T>(s: set<T>, e: nat, points: set<seq<T>>)
    requires e >= 1 && Over(s, e, points)
    ensures Over(s, e - 1, Fronts(points))
  {
    forall f | f in Fronts(points)
      ensures |f| == e - 1 && forall i :: 0 <= i < |f| ==> f[i] in s
    {
      var p :| p in points && Front(p) == f;
    }
  }

  ghost predicate Extends<T>(points: set<seq<T>>, f: seq<T>, ys: set<T>) {
    forall y <- ys :: f + [y] in points
  }

  ghost predicate AtMost<T(!new)>(points: set<seq<T>>, f: seq<T>, m: nat) {
    forall ys: set<T> :: Extends(points, f, ys) ==> |ys| <= m
  }

  /** Points with the same front are told apart by their last coordinates. */
  lemma {:induction false} SameFront<T>(points: set<seq<T>>, f: seq<T>) returns (ys: set<T>)
    requires forall p <- points :: p != [] && Front(p) == f
    ensures |ys| == |points| && forall y :: y in ys <==> f + [y] in points
    decreases |points|
  {
    ys := {};
    if points != {} {
      var p :| p in points;
      var y := p[|p| - 1];
      assert p == f + [y];
      var rest := SameFront(points - {p}, f);
      assert y !in rest;
      ys := rest + {y};
      forall z
        ensures z in ys <==> f + [z] in points
      {
        if z != y {
          assert (f + [z])[|f|] != p[|f|];
        }
      }
    }
  }

  ghost function WithFront<T>(points: set<seq<T>>, f: seq<T>): set<seq<T>> {
    set p | p in points && Front(p) == f
  }

  lemma HereAtMost<T(!new)>(points: set<seq<T>>, f: seq<T>, m: nat)
    requires AtMost(points, f, m) && forall p <- points :: p != []
    ensures |WithFront(points, f)| <= m
  {
    var ys := SameFront(WithFront(points, f), f);
    assert Extends(points, f, ys);
  }

  /** Every point has its front among `fronts`, and each of these at most `m` extensions. */
  ghost predicate Grouped<T(!new)>(points: set<seq<T>>, fronts: set<seq<T>>, m: nat) {
    && (forall p <- points :: p != [] && Front(p) in fronts)
    && (forall f <- fronts :: AtMost(points, f, m))
  }

  lemma RestGrouped<T(!new)>(points: set<seq<T>>, fronts: set<seq<T>>, f: seq<T>, m: nat)
    requires Grouped(points, fronts, m)
    ensures Grouped(points - WithFront(points, f), fronts - {f}, m)
  {
    forall g | g in fronts - {f}
      ensures AtMost(points - WithFront(points, f), g, m)
    {
      AtMostFewer(points, points - WithFront(points, f), g, m);
    }
  }

  lemma OneFront<T(!new)>(points: set<seq<T>>, fronts: set<seq<T>>, f: seq<T>, m: nat)
    requires Grouped(points, fronts, m) && f in fronts
    ensures |points| <= m + |points - WithFront(points, f)|
  {
    HereAtMost(points, f, m);
    SplitSize(points, WithFront(points, f));
  }

  /** `m` added `n` times. */
  function Copies(n: nat, m: nat): nat {
    if n == 0 then 0 else m + Copies(n - 1, m)
  }

  lemma {:induction false} CopiesProduct(n: nat, m: nat)
    ensures Copies(n, m) == n * m
  {
    if n > 0 {
      CopiesProduct(n - 1, m);
      OneMore(n - 1, m);
    }
  }

  lemma {:induction false} CountCopies<T(!new)>(points: set<seq<T>>, fronts: set<seq<T>>, m: nat)
    requires Grouped(points, fronts, m)
    ensures |points| <= Copies(|fronts|, m)
    decreases |fronts|
  {
    if fronts == {} {
      assert points == {};
    } else {
      var f :| f in fronts;
      OneFront(points, fronts, f, m);
      RestGrouped(points, fronts, f, m);
      SplitSize(fronts, {f});
      CountCopies(points - WithFront(points, f), fronts - {f}, m);
    }
  }

  /** If every front has at most `m` extensions, there are at most `m` points per front. */
  lemma CountByFront<T(!new)>(points: set<seq<T>>, fronts: set<seq<T>>, m: nat)
    requires Grouped(points, fronts, m)
    ensures |points| <= |fronts| * m
  {
    CountCopies(points, fronts, m);
    CopiesProduct(|fronts|, m);
  }

  lemma OneMore(n: nat, m: nat)
    ensures (n + 1) * m == n * m + m
  {
  }

  lemma AtMostFewer<T(!new)>(points: set<seq<T>>, fewer: set<seq<T>>, f: seq<T>, m: nat)
    requires fewer <= points && AtMost(points, f, m)
    ensures AtMost(fewer, f, m)
  {
    forall ys: set<T> | Extends(fewer, f, ys)
      ensures |ys| <= m
    {
      assert Extends(points, f, ys);
    }
  }

  lemma SplitSize<T>(whole: set<T>, part: set<T>)
    requires part <= whole
    ensures |whole| == |part| + |whole - part|
  {
    assert whole == part + (whole - part);
  }

  lemma SubsetSize<T>(a: set<T>, b: set<T>)
    requires a <= b
    ensures |a| <= |b|
  {
    assert b == a + (b - a);
  }

  ghost predicate HitAll<A>(hit: (nat, A) -> bool, i: nat, some: set<A>) {
    forall a <- some :: hit(i, a)
  }

  ghost predicate HitFew<A(!new)>(hit: (nat, A) -> bool, n: nat, all: set<A>, m: nat) {
    forall i: nat, some: set<A> {:trigger HitAll(hit, i, some)} ::
      i < n && some <= all && HitAll(hit, i, some) ==> |some| <= m
  }

  /** Elements that are each hit by one of `n`, none of which hits more than `m`. */
  lemma {:induction false} UnionBound<A(!new)>(hit: (nat, A) -> bool, n: nat, all: set<A>, m: nat)
    requires forall a <- all :: exists i: nat :: i < n && hit(i, a)
    requires HitFew(hit, n, all, m)
    ensures |all| <= Copies(n, m)
    decreases n
  {
    if n == 0 {
      assert all == {};
    } else {
      var last := set a | a in all && hit(n - 1, a);
      assert HitAll(hit, n - 1, last);
      UnionBound(hit, n - 1, all - last, m);
      SplitSize(all, last);
    }
  }

  lemma AtMostAll<T(!new)>(s: set<T>, e: nat, points: set<seq<T>>, f: seq<T>)
    requires e >= 1 && Over(s, e, points) && |f| == e - 1
    ensures AtMost(points, f, |s|)
  {
    forall ys: set<T> | Extends(points, f, ys)
      ensures |ys| <= |s|
    {
      forall y | y in ys
        ensures y in s
      {
        assert (f + [y])[e - 1] == y;
      }
      SubsetSize(ys, s);
    }
  }

  lemma {:induction false} AllPoints<T(!new)>(s: set<T>, e: nat, points: set<seq<T>>)
    requires Over(s, e, points)
    ensures |points| <= Exp(|s|, e)
    decreases e
  {
    if e == 0 {
      SubsetSize(points, {[]});
    } else {
      FrontsOver(s, e, points);
      AllPoints(s, e - 1, Fronts(points));
      forall f | f in Fronts(points)
        ensures AtMost(points, f, |s|)
      {
        AtMostAll(s, e, points, f);
      }
      CountByFront(points, Fronts(points), |s|);
      Scale(|Fronts(points)|, Exp(|s|, e - 1), |s|);
    }
  }

  lemma Scale(a: nat, b: nat, n: nat)
    requires a <= b
    ensures a * n <= n * b && a * n <= b * n
  {
  }

  // Vanishing.

  ghost function Value<T>(R: Ring<T>, c: seq<T>, point: seq<T>): T
    requires |c| == Pow2(|point|)
  {
    Dot(R, c, Lagrange(R, point))
  }

  ghost predicate Vanishes<T>(R: Ring<T>, c: seq<T>, k: nat, points: set<seq<T>>)
    requires |c| == Pow2(k)
  {
    forall p <- points :: |p| == k && Value(R, c, p) == R.zero
  }

  lemma ValueStep<T(!new)>(R: Ring<T>, c: seq<T>, p: seq<T>)
    requires CommRing(R) && p != [] && |c| == Pow2(|p|)
    ensures Value(R, c, p) ==
            R.add(Value(R, Even(c), Front(p)), R.mul(p[|p| - 1], Value(R, Minus(R, Odd(c), Even(c)), Front(p))))
  {
    DotExpand(R, c, Lagrange(R, Front(p)), p[|p| - 1]);
  }

  /** A line that is not flat has one zero. */
  lemma OneZero<T(!new)>(F: Field<T>, a: T, d: T, y: T, z: T)
    requires IsField(F) && d != F.R.zero
    requires F.R.add(a, F.R.mul(y, d)) == F.R.zero && F.R.add(a, F.R.mul(z, d)) == F.R.zero
    ensures y == z
  {
    AddCancel(F.R, a, F.R.mul(y, d), F.R.mul(z, d));
    CancelMul(F, y, z, d);
  }

  lemma SameExtension<T(!new)>(F: Field<T>, c: seq<T>, f: seq<T>, y: T, z: T)
    requires IsField(F) && |c| == Pow2(|f| + 1) && Value(F.R, Minus(F.R, Odd(c), Even(c)), f) != F.R.zero
    requires Value(F.R, c, f + [y]) == F.R.zero && Value(F.R, c, f + [z]) == F.R.zero
    ensures y == z
  {
    ValueStep(F.R, c, f + [y]);
    ValueStep(F.R, c, f + [z]);
    assert Front(f + [y]) == f && Front(f + [z]) == f;
    OneZero(F, Value(F.R, Even(c), f), Value(F.R, Minus(F.R, Odd(c), Even(c)), f), y, z);
  }

  lemma SingleExtension<T(!new)>(F: Field<T>, c: seq<T>, k: nat, points: set<seq<T>>, f: seq<T>)
    requires IsField(F) && k >= 1 && |c| == Pow2(k) && Vanishes(F.R, c, k, points) && |f| == k - 1
    requires Value(F.R, Minus(F.R, Odd(c), Even(c)), f) != F.R.zero
    ensures AtMost(points, f, 1)
  {
    forall ys: set<T> | Extends(points, f, ys)
      ensures |ys| <= 1
    {
      if ys != {} {
        var y :| y in ys;
        forall z | z in ys
          ensures z == y
        {
          SameExtension(F, c, f, y, z);
        }
        SubsetSize(ys, {y});
      }
    }
  }

  /** Points whose fronts are zeros of a list of half the length. */
  lemma FlatPoints<T(!new)>(s: set<T>, k: nat, points: set<seq<T>>, m: nat)
    requires k >= 1 && Over(s, k, points) && |Fronts(points)| <= m
    ensures |points| <= m * |s|
  {
    forall f | f in Fronts(points)
      ensures AtMost(points, f, |s|)
    {
      AtMostAll(s, k, points, f);
    }
    CountByFront(points, Fronts(points), |s|);
    Scale(|Fronts(points)|, m, |s|);
  }

  lemma SteepPoints<T(!new)>(s: set<T>, k: nat, points: set<seq<T>>)
    requires k >= 1 && Over(s, k, points) && forall f <- Fronts(points) :: AtMost(points, f, 1)
    ensures |points| <= Exp(|s|, k - 1)
  {
    FrontsOver(s, k, points);
    AllPoints(s, k - 1, Fronts(points));
    CountByFront(points, Fronts(points), 1);
  }

  /** The points where the line in the last coordinate is flat. */
  ghost function Flat<T>(R: Ring<T>, d: seq<T>, k: nat, points: set<seq<T>>): set<seq<T>>
    requires |d| == Pow2(k)
  {
    set p | p in points && |Front(p)| == k && Value(R, d, Front(p)) == R.zero
  }

  lemma SteepAtMostOne<T(!new)>(F: Field<T>, c: seq<T>, k: nat, points: set<seq<T>>, f: seq<T>)
    requires IsField(F) && k >= 1 && |c| == Pow2(k) && Vanishes(F.R, c, k, points)
    requires f in Fronts(points - Flat(F.R, Minus(F.R, Odd(c), Even(c)), k - 1, points))
    ensures AtMost(points - Flat(F.R, Minus(F.R, Odd(c), Even(c)), k - 1, points), f, 1)
  {
    var flat := Flat(F.R, Minus(F.R, Odd(c), Even(c)), k - 1, points);
    var p :| p in points - flat && Front(p) == f;
    SingleExtension(F, c, k, points, f);
    AtMostFewer(points, points - flat, f, 1);
  }

  lemma SlopedCase<T(!new)>(F: Field<T>, c: seq<T>, k: nat, s: set<T>, points: set<seq<T>>, m: nat)
    requires IsField(F) && k >= 1 && |c| == Pow2(k) && Over(s, k, points) && Vanishes(F.R, c, k, points)
    requires |Fronts(Flat(F.R, Minus(F.R, Odd(c), Even(c)), k - 1, points))| <= m
    ensures |points| <= m * |s| + Exp(|s|, k - 1)
  {
    var flat := Flat(F.R, Minus(F.R, Odd(c), Even(c)), k - 1, points);
    FlatPoints(s, k, flat, m);
    forall f | f in Fronts(points - flat)
      ensures AtMost(points - flat, f, 1)
    {
      SteepAtMostOne(F, c, k, points, f);
    }
    SteepPoints(s, k, points - flat);
    SplitSize(points, flat);
  }

  lemma HalfNonzero<T(!new)>(R: Ring<T>, c: seq<T>)
    requires CommRing(R) && |c| % 2 == 0 && !Zeros(R, c) && Zeros(R, Minus(R, Odd(c), Even(c)))
    ensures !Zeros(R, Even(c))
  {
    MinusZeros(R, Odd(c), Even(c));
    if Zeros(R, Even(c)) {
      EvenOddZeros(R, c);
    }
  }

  /** A list that is not all zeros is orthogonal to the weights of at most `k n^(k - 1)` of the `n^k` points. */
  lemma {:induction false} FewOrthogonal<T(!new)>(F: Field<T>, c: seq<T>, k: nat, s: set<T>, points: set<seq<T>>)
    requires IsField(F) && |c| == Pow2(k) && !Zeros(F.R, c) && Over(s, k, points) && Vanishes(F.R, c, k, points)
    ensures |points| <= Bound(k, |s|)
    decreases k
  {
    if k == 0 {
      NoOrthogonalConstant(F, c, points);
    } else {
      var d := Minus(F.R, Odd(c), Even(c));
      BoundStep(k, |s|);
      if Zeros(F.R, d) {
        ConstantFronts(F.R, c, k, points);
        HalfNonzero(F.R, c);
        FrontsOver(s, k, points);
        FewOrthogonal(F, Even(c), k - 1, s, Fronts(points));
        FlatPoints(s, k, points, Bound(k - 1, |s|));
      } else {
        var flat := Flat(F.R, d, k - 1, points);
        FrontsOver(s, k, flat);
        FlatVanishes(F.R, d, k, flat);
        FewOrthogonal(F, d, k - 1, s, Fronts(flat));
        SlopedCase(F, c, k, s, points, Bound(k - 1, |s|));
      }
    }
  }

  lemma ConstantValue<T(!new)>(R: Ring<T>, c: seq<T>)
    requires CommRing(R) && |c| == 1
    ensures Value(R, c, []) == c[0]
  {
    var w := [R.one];
    assert Lagrange(R, []) == w;
    assert Dot(R, c, w) == R.add(R.mul(c[0], w[0]), Dot(R, c[1..], w[1..]));
    assert Laws(R, c[0], R.one, R.one) && Laws(R, c[0], R.zero, R.zero);
  }

  lemma NoOrthogonalConstant<T(!new)>(F: Field<T>, c: seq<T>, points: set<seq<T>>)
    requires IsField(F) && |c| == 1 && !Zeros(F.R, c) && Vanishes(F.R, c, 0, points)
    ensures points == {}
  {
    ConstantValue(F.R, c);
    assert [] !in points;
  }

  lemma FlatVanishes<T>(R: Ring<T>, d: seq<T>, k: nat, flat: set<seq<T>>)
    requires k >= 1 && |d| == Pow2(k - 1) && forall p <- flat :: |p| == k && Value(R, d, Front(p)) == R.zero
    ensures Vanishes(R, d, k - 1, Fronts(flat))
  {
    forall f | f in Fronts(flat)
      ensures |f| == k - 1 && Value(R, d, f) == R.zero
    {
      var p :| p in flat && Front(p) == f;
    }
  }

  lemma {:induction false} DotZeros<T(!new)>(R: Ring<T>, c: seq<T>, w: seq<T>)
    requires CommRing(R) && |c| <= |w| && Zeros(R, c)
    ensures Dot(R, c, w) == R.zero
  {
    if c != [] {
      DotZeros(R, c[1..], w[1..]);
      MulZero(R, w[0]);
      assert Laws(R, R.zero, R.zero, R.zero);
    }
  }

  /** If both halves of a list agree, the last coordinate does not matter. */
  lemma ConstantStep<T(!new)>(R: Ring<T>, c: seq<T>, p: seq<T>)
    requires CommRing(R) && p != [] && |c| == Pow2(|p|) && Zeros(R, Minus(R, Odd(c), Even(c)))
    ensures Value(R, c, p) == Value(R, Even(c), Front(p))
  {
    ValueStep(R, c, p);
    DotZeros(R, Minus(R, Odd(c), Even(c)), Lagrange(R, Front(p)));
    MulZero(R, p[|p| - 1]);
    assert Laws(R, Value(R, Even(c), Front(p)), R.zero, R.zero);
  }

  lemma ConstantFronts<T(!new)>(R: Ring<T>, c: seq<T>, k: nat, points: set<seq<T>>)
    requires CommRing(R) && k >= 1 && |c| == Pow2(k) && Vanishes(R, c, k, points)
    requires Zeros(R, Minus(R, Odd(c), Even(c)))
    ensures Vanishes(R, Even(c), k - 1, Fronts(points))
  {
    forall f | f in Fronts(points)
      ensures |f| == k - 1 && Value(R, Even(c), f) == R.zero
    {
      var p :| p in points && Front(p) == f;
      ConstantStep(R, c, p);
    }
  }
}
