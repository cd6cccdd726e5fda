/** Polynomials as coefficient lists, lowest degree first, over any commutative ring. */
module Polynomial {
  import opened Wrappers
  import opened Algebra
  import opened FieldAlgebra

  /** Coefficient `k`; zero beyond the end of the list. */
  function Co<T>(R: Ring<T>, p: seq<T>, k: int): T {
    if 0 <= k < |p| then p[k] else R.zero
  }

  /** Equality as polynomials: the same coefficients, whatever the number of trailing zeros. */
  ghost predicate Same<T>(R: Ring<T>, p: seq<T>, q: seq<T>) {
    forall k: nat :: Co(R, p, k) == Co(R, q, k)
  }

  /** Horner's form of evaluation. */
  function Eval<T>(R: Ring<T>, p: seq<T>, x: T): T {
    if p == [] then R.zero else R.add(p[0], R.mul(x, Eval(R, p[1..], x)))
  }

  // Evaluation.

  /** Multiplying each coefficient with a running power and summing. */
  function PowerSum<T>(R: Ring<T>, p: seq<T>, x: T, power: T): T {
    if p == [] then R.zero else R.add(R.mul(power, p[0]), PowerSum(R, p[1..], x, R.mul(power, x)))
  }

  lemma {:induction false} PowerSumIsEval<T(!new)>(R: Ring<T>, p: seq<T>, x: T, power: T)
    requires CommRing(R)
    ensures PowerSum(R, p, x, power) == R.mul(power, Eval(R, p, x))
    decreases p
  {
    if p == [] {
      MulZero(R, power);
    } else {
      var rest := Eval(R, p[1..], x);
      PowerSumIsEval(R, p[1..], x, R.mul(power, x));
      assert Laws(R, power, x, rest);
      assert Laws(R, power, p[0], R.mul(x, rest));
    }
  }

  /** The source's evaluation, a sum of powers times coefficients, is Horner's. */
  method EvalPowers<T(!new)>(R: Ring<T>, p: seq<T>, x: T) returns (sum: T)
    requires CommRing(R)
    ensures sum == Eval(R, p, x)
  {
    sum := R.zero;
    var power := R.one;
    PowerSumIsEval(R, p, x, R.one);
    assert p[0..] == p;
    assert Laws(R, R.one, Eval(R, p, x), R.zero) && Laws(R, Eval(R, p, x), R.one, R.zero);
    assert Laws(R, R.zero, Eval(R, p, x), R.zero) && Laws(R, Eval(R, p, x), R.zero, R.zero);
    for i := 0 to |p|
      invariant R.add(sum, PowerSum(R, p[i..], x, power)) == Eval(R, p, x)
    {
      assert p[i..][1..] == p[i + 1..];
      assert Laws(R, sum, R.mul(power, p[i]), PowerSum(R, p[i + 1..], x, R.mul(power, x)));
      sum := R.add(sum, R.mul(power, p[i]));
      power := R.mul(power, x);
    }
    assert p[|p|..] == [];
    assert Laws(R, sum, R.zero, R.zero);
  }

  ghost predicate Zeros<T>(R: Ring<T>, p: seq<T>) {
    forall i :: 0 <= i < |p| ==> p[i] == R.zero
  }

  lemma {:induction false} EvalZeros<T(!new)>(R: Ring<T>, p: seq<T>, x: T)
    requires CommRing(R) && Zeros(R, p)
    ensures Eval(R, p, x) == R.zero
  {
    if p != [] {
      EvalZeros(R, p[1..], x);
      MulZero(R, x);
      assert Laws(R, R.zero, R.zero, R.zero);
    }
  }

  lemma {:induction false} EvalSame<T(!new)>(R: Ring<T>, p: seq<T>, q: seq<T>, x: T)
    requires CommRing(R) && Same(R, p, q)
    ensures Eval(R, p, x) == Eval(R, q, x)
    decreases |p| + |q|
  {
    if p == [] || q == [] {
      forall k: nat
        ensures (k < |p| ==> p[k] == R.zero) && (k < |q| ==> q[k] == R.zero)
      {
        assert Co(R, p, k) == Co(R, q, k);
      }
      EvalZeros(R, p, x);
      EvalZeros(R, q, x);
    } else {
      assert Co(R, p, 0) == Co(R, q, 0);
      forall k: nat
        ensures Co(R, p[1..], k) == Co(R, q[1..], k)
      {
        assert Co(R, p, k + 1) == Co(R, q, k + 1);
      }
      EvalSame(R, p[1..], q[1..], x);
    }
  }

  // Sum and difference.

  function Longer<T>(p: seq<T>, q: seq<T>): nat {
    if |p| < |q| then |q| else |p|
  }

  /** Coefficients added where both lists have one, and copied where one of them has. */
  function AddPoly<T>(R: Ring<T>, p: seq<T>, q: seq<T>): seq<T> {
    seq(Longer(p, q), i requires 0 <= i < Longer(p, q) =>
      if i < |p| && i < |q| then R.add(p[i], q[i]) else if i < |p| then p[i] else q[i])
  }

  function SubPoly<T>(R: Ring<T>, p: seq<T>, q: seq<T>): seq<T> {
    seq(Longer(p, q), i requires 0 <= i < Longer(p, q) =>
      if i < |p| && i < |q| then Sub(R, p[i], q[i]) else if i < |p| then p[i] else R.neg(q[i]))
  }

  function NegPoly<T>(R: Ring<T>, p: seq<T>): seq<T> {
    seq(|p|, i requires 0 <= i < |p| => R.neg(p[i]))
  }

  lemma AddCo<T(!new)>(R: Ring<T>, p: seq<T>, q: seq<T>, k: nat)
    requires CommRing(R)
    ensures Co(R, AddPoly(R, p, q), k) == R.add(Co(R, p, k), Co(R, q, k))
    ensures Co(R, SubPoly(R, p, q), k) == Sub(R, Co(R, p, k), Co(R, q, k))
  {
    var a, b := Co(R, p, k), Co(R, q, k);
    NegLaws(R, a, a);
    assert Laws(R, a, R.zero, R.zero) && Laws(R, R.zero, b, b) && Laws(R, b, R.zero, R.zero);
    assert Laws(R, R.zero, R.neg(b), b) && Laws(R, R.neg(b), R.zero, R.zero);
    assert Laws(R, R.zero, R.zero, R.zero);
  }

  lemma {:induction false} EvalAdd<T(!new)>(R: Ring<T>, p: seq<T>, q: seq<T>, x: T)
    requires CommRing(R)
    ensures Eval(R, AddPoly(R, p, q), x) == R.add(Eval(R, p, x), Eval(R, q, x))
    decreases |p| + |q|
  {
    var s := AddPoly(R, p, q);
    if p == [] {
      assert s == q;
      assert Laws(R, R.zero, Eval(R, q, x), R.zero) && Laws(R, Eval(R, q, x), R.zero, R.zero);
    } else if q == [] {
      assert s == p;
      assert Laws(R, Eval(R, p, x), R.zero, R.zero);
    } else {
      var u, v := Eval(R, p[1..], x), Eval(R, q[1..], x);
      assert s[1..] == AddPoly(R, p[1..], q[1..]);
      EvalAdd(R, p[1..], q[1..], x);
      assert Laws(R, x, u, v);
      AddSwap(R, p[0], q[0], R.mul(x, u), R.mul(x, v));
    }
  }

  lemma {:induction false} EvalNeg<T(!new)>(R: Ring<T>, p: seq<T>, x: T)
    requires CommRing(R)
    ensures Eval(R, NegPoly(R, p), x) == R.neg(Eval(R, p, x))
  {
    if p == [] {
      NegLaws(R, x, x);
    } else {
      var u := Eval(R, p[1..], x);
      assert NegPoly(R, p)[1..] == NegPoly(R, p[1..]);
      EvalNeg(R, p[1..], x);
      NegLaws(R, x, u);
      NegLaws(R, p[0], R.mul(x, u));
    }
  }

  lemma EvalSub<T(!new)>(R: Ring<T>, p: seq<T>, q: seq<T>, x: T)
    requires CommRing(R)
    ensures Eval(R, SubPoly(R, p, q), x) == Sub(R, Eval(R, p, x), Eval(R, q, x))
  {
    assert SubPoly(R, p, q) == AddPoly(R, p, NegPoly(R, q));
    EvalAdd(R, p, NegPoly(R, q), x);
    EvalNeg(R, q, x);
  }

  // Product.

  /** `p_0 q_k + p_1 q_{k-1} + ... + p_{n-1} q_{k-n+1}`. */
  function Conv<T>(R: Ring<T>, p: seq<T>, q: seq<T>, k: nat, n: nat): T {
    if n == 0 then R.zero
    else R.add(Conv(R, p, q, k, n - 1), R.mul(Co(R, p, n - 1), Co(R, q, k - n + 1)))
  }

  /** The product has coefficients `p_0 q_k + ... + p_k q_0`. */
  ghost predicate IsProduct<T>(R: Ring<T>, p: seq<T>, q: seq<T>, r: seq<T>) {
    forall k: nat :: Co(R, r, k) == Conv(R, p, q, k, k + 1)
  }

  lemma {:induction false} ConvSame<T(!new)>(R: Ring<T>, p: seq<T>, q: seq<T>, p': seq<T>, q': seq<T>, k: nat, n: nat)
    requires Same(R, p, p') && Same(R, q, q')
    ensures Conv(R, p, q, k, n) == Conv(R, p', q', k, n)
    decreases n
  {
    if n > 0 {
      ConvSame(R, p, q, p', q', k, n - 1);
      assert Co(R, p, n - 1) == Co(R, p', n - 1);
      if k - n + 1 >= 0 {
        assert Co(R, q, k - n + 1) == Co(R, q', k - n + 1);
      }
    }
  }

  /** Terms beyond the lists' ends add nothing. */
  lemma {:induction false} ConvBeyond<T(!new)>(R: Ring<T>, p: seq<T>, q: seq<T>, k: nat, m: nat, n: nat)
    requires CommRing(R) && m <= n && (|p| <= m || k < m)
    ensures Conv(R, p, q, k, n) == Conv(R, p, q, k, m)
    decreases n
  {
    if m < n {
      ConvBeyond(R, p, q, k, m, n - 1);
      MulZero(R, Co(R, p, n - 1));
      MulZero(R, Co(R, q, k - n + 1));
      assert Laws(R, Conv(R, p, q, k, n - 1), R.zero, R.zero);
    }
  }

  lemma {:induction false} ConvPastEnd<T(!new)>(R: Ring<T>, p: seq<T>, q: seq<T>, k: nat, n: nat)
    requires CommRing(R) && k + 1 >= |p| + |q| && n <= k + 1
    ensures Conv(R, p, q, k, n) == R.zero
    decreases n
  {
    if n > 0 {
      ConvPastEnd(R, p, q, k, n - 1);
      MulZero(R, Co(R, p, n - 1));
      MulZero(R, Co(R, q, k - n + 1));
      assert Laws(R, R.zero, R.zero, R.zero);
    }
  }

  function Min(a: nat, b: nat): nat {
    if a < b then a else b
  }

  /** What `result[k]` holds when rows before `i`, and entries before `j` of row `i`, have been added. */
  ghost predicate Partial<T>(R: Ring<T>, p: seq<T>, q: seq<T>, r: seq<T>, i: nat, j: nat) {
    forall k :: 0 <= k < |r| ==> r[k] == Conv(R, p, q, k, if i <= k < i + j then i + 1 else Min(i, k + 1))
  }

  lemma RowDone<T(!new)>(R: Ring<T>, p: seq<T>, q: seq<T>, r: seq<T>, i: nat)
    requires CommRing(R) && i < |p| && Partial(R, p, q, r, i, |q|)
    ensures Partial(R, p, q, r, i + 1, 0)
  {
    forall k | 0 <= k < |r|
      ensures r[k] == Conv(R, p, q, k, Min(i + 1, k + 1))
    {
      if k >= i + |q| {
        MulZero(R, p[i]);
        assert Laws(R, Conv(R, p, q, k, i), R.zero, R.zero);
      }
    }
  }

  lemma AllDone<T(!new)>(R: Ring<T>, p: seq<T>, q: seq<T>, r: seq<T>)
    requires CommRing(R) && (p != [] || q != []) && |r| == |p| + |q| - 1 && Partial(R, p, q, r, |p|, 0)
    ensures IsProduct(R, p, q, r)
  {
    forall k: nat
      ensures Co(R, r, k) == Conv(R, p, q, k, k + 1)
    {
      if k < |r| {
        ConvBeyond(R, p, q, k, Min(|p|, k + 1), k + 1);
      } else {
        ConvPastEnd(R, p, q, k, k + 1);
      }
    }
  }

  lemma NothingDone<T(!new)>(R: Ring<T>, p: seq<T>, q: seq<T>, r: seq<T>)
    requires Zeros(R, r)
    ensures Partial(R, p, q, r, 0, 0)
  {
  }

  lemma CellDone<T(!new)>(R: Ring<T>, p: seq<T>, q: seq<T>, r: seq<T>, i: nat, j: nat)
    requires i < |p| && j < |q| && i + j < |r| && Partial(R, p, q, r, i, j)
    ensures Partial(R, p, q, r[i + j := R.add(r[i + j], R.mul(p[i], q[j]))], i, j + 1)
  {
    assert r[i + j] == Conv(R, p, q, i + j, i);
  }

  /** The source's double loop; `None` is the underflow of the length of two empty lists. */
  method MulPoly<T(0, !new)>(R: Ring<T>, p: seq<T>, q: seq<T>) returns (r: Option<seq<T>>)
    requires CommRing(R)
    ensures r.None? <==> p == [] && q == []
    ensures r.Some? ==> |r.value| == |p| + |q| - 1 && IsProduct(R, p, q, r.value)
  {
    if |p| + |q| == 0 {
      return None;
    }
    var result := new T[|p| + |q| - 1](_ => R.zero);
    NothingDone(R, p, q, result[..]);
    for i := 0 to |p|
      invariant Partial(R, p, q, result[..], i, 0)
    {
      MulRow(R, p, q, i, result);
    }
    AllDone(R, p, q, result[..]);
    return Some(result[..]);
  }

  method MulRow<T(!new)>(R: Ring<T>, p: seq<T>, q: seq<T>, i: nat, result: array<T>)
    requires CommRing(R) && i < |p| && result.Length == |p| + |q| - 1 && Partial(R, p, q, result[..], i, 0)
    modifies result
    ensures Partial(R, p, q, result[..], i + 1, 0)
  {
    for j := 0 to |q|
      invariant Partial(R, p, q, result[..], i, j)
    {
      CellDone(R, p, q, result[..], i, j);
      ghost var after := result[..][i + j := R.add(result[i + j], R.mul(p[i], q[j]))];
      result[i + j] := R.add(result[i + j], R.mul(p[i], q[j]));
      assert result[..] == after;
    }
    RowDone(R, p, q, result[..], i);
  }

  /** Splitting off the first coefficient of the left factor. */
  lemma {:induction false} ConvShift<T(!new)>(R: Ring<T>, p: seq<T>, q: seq<T>, k: nat, n: nat)
    requires CommRing(R) && p != [] && n <= k
    ensures Conv(R, p, q, k, n + 1) ==
            R.add(R.mul(p[0], Co(R, q, k)), if k == 0 then R.zero else Conv(R, p[1..], q, k - 1, n))
    decreases n
  {
    var head := R.mul(p[0], Co(R, q, k));
    if n == 0 {
      assert Conv(R, p, q, k, 1) == R.add(Conv(R, p, q, k, 0), head);
      assert Laws(R, R.zero, head, head);
    } else {
      ConvShift(R, p, q, k, n - 1);
      var tail, term := Conv(R, p[1..], q, k - 1, n - 1), R.mul(Co(R, p, n), Co(R, q, k - n));
      assert Co(R, p[1..], n - 1) == Co(R, p, n);
      assert Laws(R, head, tail, term);
    }
  }

  lemma ProductStep<T(!new)>(R: Ring<T>, p: seq<T>, q: seq<T>, k: nat)
    requires CommRing(R) && p != []
    ensures Conv(R, p, q, k, k + 1) ==
            R.add(R.mul(p[0], Co(R, q, k)), if k == 0 then R.zero else Conv(R, p[1..], q, k - 1, k))
  {
    ConvShift(R, p, q, k, k);
  }

  function ScalePoly<T>(R: Ring<T>, c: T, p: seq<T>): seq<T> {
    seq(|p|, i requires 0 <= i < |p| => R.mul(c, p[i]))
  }

  lemma {:induction false} EvalScale<T(!new)>(R: Ring<T>, c: T, p: seq<T>, x: T)
    requires CommRing(R)
    ensures Eval(R, ScalePoly(R, c, p), x) == R.mul(c, Eval(R, p, x))
  {
    if p == [] {
      MulZero(R, c);
    } else {
      var u := Eval(R, p[1..], x);
      assert ScalePoly(R, c, p)[1..] == ScalePoly(R, c, p[1..]);
      EvalScale(R, c, p[1..], x);
      assert Laws(R, c, p[0], R.mul(x, u));
      assert Laws(R, c, x, u) && Laws(R, x, c, u);
    }
  }

  lemma ScaleCo<T(!new)>(R: Ring<T>, c: T, p: seq<T>, k: nat)
    requires CommRing(R)
    ensures Co(R, ScalePoly(R, c, p), k) == R.mul(c, Co(R, p, k))
  {
    MulZero(R, c);
  }

  /** The product of coefficient lists as a list. */
  ghost function Product<T>(R: Ring<T>, p: seq<T>, q: seq<T>): seq<T> {
    seq(|p| + |q|, k requires 0 <= k < |p| + |q| => Conv(R, p, q, k, k + 1))
  }

  lemma ProductIs<T(!new)>(R: Ring<T>, p: seq<T>, q: seq<T>, r: seq<T>)
    requires CommRing(R) && IsProduct(R, p, q, r)
    ensures Same(R, r, Product(R, p, q))
  {
    forall k: nat
      ensures Co(R, r, k) == Co(R, Product(R, p, q), k)
    {
      if k >= |p| + |q| {
        ConvPastEnd(R, p, q, k, k + 1);
      }
    }
  }

  lemma ProductCons<T(!new)>(R: Ring<T>, p: seq<T>, q: seq<T>)
    requires CommRing(R) && p != []
    ensures Same(R, Product(R, p, q), AddPoly(R, ScalePoly(R, p[0], q), [R.zero] + Product(R, p[1..], q)))
  {
    var tail := Product(R, p[1..], q);
    forall k: nat
      ensures Co(R, Product(R, p, q), k) == Co(R, AddPoly(R, ScalePoly(R, p[0], q), [R.zero] + tail), k)
    {
      AddCo(R, ScalePoly(R, p[0], q), [R.zero] + tail, k);
      ScaleCo(R, p[0], q, k);
      ProductStep(R, p, q, k);
      if k >= |p| + |q| {
        ConvPastEnd(R, p, q, k, k + 1);
      }
      if k > 0 {
        ShiftedCo(R, tail, k);
      }
    }
  }

  lemma ShiftedCo<T>(R: Ring<T>, p: seq<T>, k: nat)
    requires k > 0
    ensures Co(R, [R.zero] + p, k) == Co(R, p, k - 1)
  {
  }

  lemma {:induction false} EvalProduct<T(!new)>(R: Ring<T>, p: seq<T>, q: seq<T>, x: T)
    requires CommRing(R)
    ensures Eval(R, Product(R, p, q), x) == R.mul(Eval(R, p, x), Eval(R, q, x))
    decreases p
  {
    if p == [] {
      forall k | 0 <= k < |q|
        ensures Product(R, p, q)[k] == R.zero
      {
        ConvBeyond(R, p, q, k, 0, k + 1);
      }
      EvalZeros(R, Product(R, p, q), x);
      MulZero(R, Eval(R, q, x));
    } else {
      var u, v := Eval(R, p[1..], x), Eval(R, q, x);
      var shifted := [R.zero] + Product(R, p[1..], q);
      EvalProduct(R, p[1..], q, x);
      ProductCons(R, p, q);
      EvalSame(R, Product(R, p, q), AddPoly(R, ScalePoly(R, p[0], q), shifted), x);
      EvalAdd(R, ScalePoly(R, p[0], q), shifted, x);
      EvalScale(R, p[0], q, x);
      assert shifted[1..] == Product(R, p[1..], q);
      assert Laws(R, R.zero, R.mul(x, R.mul(u, v)), R.zero) && Laws(R, R.mul(x, R.mul(u, v)), R.zero, R.zero);
      assert Laws(R, x, u, v);
      MulAdd(R, p[0], R.mul(x, u), v);
    }
  }

  /** Evaluation turns any correct product into a product of values. */
  lemma EvalMul<T(!new)>(R: Ring<T>, p: seq<T>, q: seq<T>, r: seq<T>, x: T)
    requires CommRing(R) && IsProduct(R, p, q, r)
    ensures Eval(R, r, x) == R.mul(Eval(R, p, x), Eval(R, q, x))
  {
    ProductIs(R, p, q, r);
    EvalSame(R, r, Product(R, p, q), x);
    EvalProduct(R, p, q, x);
  }

  // Equality.

  lemma SameIsEquivalence<T(!new)>(R: Ring<T>, p: seq<T>, q: seq<T>, r: seq<T>)
    ensures Same(R, p, p)
    ensures Same(R, p, q) ==> Same(R, q, p)
    ensures Same(R, p, q) && Same(R, q, r) ==> Same(R, p, r)
  {
    if Same(R, p, q) && Same(R, q, r) {
      forall k: nat
        ensures Co(R, p, k) == Co(R, r, k)
      {
        assert Co(R, p, k) == Co(R, q, k);
      }
    }
  }

  /** Sums, differences and products of equal polynomials are equal. */
  lemma SameRespected<T(!new)>(R: Ring<T>, p: seq<T>, q: seq<T>, p': seq<T>, q': seq<T>, r: seq<T>, r': seq<T>)
    requires CommRing(R) && Same(R, p, p') && Same(R, q, q')
    ensures Same(R, AddPoly(R, p, q), AddPoly(R, p', q'))
    ensures Same(R, SubPoly(R, p, q), SubPoly(R, p', q'))
    ensures IsProduct(R, p, q, r) && IsProduct(R, p', q', r') ==> Same(R, r, r')
  {
    forall k: nat
      ensures Co(R, AddPoly(R, p, q), k) == Co(R, AddPoly(R, p', q'), k)
      ensures Co(R, SubPoly(R, p, q), k) == Co(R, SubPoly(R, p', q'), k)
    {
      AddCo(R, p, q, k);
      AddCo(R, p', q', k);
      assert Co(R, p, k) == Co(R, p', k) && Co(R, q, k) == Co(R, q', k);
    }
    if IsProduct(R, p, q, r) && IsProduct(R, p', q', r') {
      forall k: nat
        ensures Co(R, r, k) == Co(R, r', k)
      {
        ConvSame(R, p, q, p', q', k, k + 1);
      }
    }
  }

  /** The source's comparison, a loop over the longer list, decides equality as polynomials. */
  method Equal<T(==)>(R: Ring<T>, p: seq<T>, q: seq<T>) returns (same: bool)
    ensures same <==> Same(R, p, q)
  {
    if |p| != |q| {
      var shorter, longer := if |p| < |q| then p else q, if |p| < |q| then q else p;
      for i := 0 to |longer|
        invariant forall k :: 0 <= k < i ==> Co(R, p, k) == Co(R, q, k)
      {
        if (i < |shorter| && shorter[i] != longer[i]) || (i >= |shorter| && longer[i] != R.zero) {
          assert Co(R, p, i) != Co(R, q, i);
          return false;
        }
      }
      return true;
    }
    if p != q {
      assert exists k :: 0 <= k < |p| && Co(R, p, k) != Co(R, q, k) by {
        var k :| 0 <= k < |p| && p[k] != q[k];
        assert Co(R, p, k) != Co(R, q, k);
      }
    }
    return p == q;
  }

  // Root quotient.

  /** Coefficient `i` of the quotient by `X - r`. */
  function QuotientAt<T>(F: Field<T>, p: seq<T>, r: T, i: nat): T {
    if i == 0 then F.R.mul(F.R.neg(Co(F.R, p, 0)), F.inv(r))
    else F.R.mul(Sub(F.R, QuotientAt(F, p, r, i - 1), Co(F.R, p, i)), F.inv(r))
  }

  ghost predicate IsRootQuotient<T>(F: Field<T>, p: seq<T>, r: T, q: seq<T>) {
    |q| == (if |p| <= 1 then 1 else |p| - 1) && QuotientPrefix(F, p, r, q)
  }

  ghost predicate QuotientPrefix<T>(F: Field<T>, p: seq<T>, r: T, q: seq<T>) {
    forall i :: 0 <= i < |q| ==> q[i] == QuotientAt(F, p, r, i)
  }

  lemma QuotientPush<T>(F: Field<T>, p: seq<T>, r: T, q: seq<T>)
    requires QuotientPrefix(F, p, r, q) && 0 < |q| < |p|
    ensures QuotientPrefix(F, p, r, q + [F.R.mul(Sub(F.R, q[|q| - 1], p[|q|]), F.inv(r))])
  {
  }

  /** The source's loop; `None` is the panic on an empty list or on a zero root. */
  method RootQuotient<T(==)>(F: Field<T>, p: seq<T>, r: T) returns (q: Option<seq<T>>)
    ensures q.None? <==> p == [] || r == F.R.zero
    ensures q.Some? ==> IsRootQuotient(F, p, r, q.value)
  {
    if p == [] || r == F.R.zero {
      return None;
    }
    var rInv := F.inv(r);
    var result := [F.R.mul(F.R.neg(p[0]), rInv)];
    var i := 1;
    while i < |p| - 1
      invariant 1 <= i == |result| && i <= (if |p| <= 1 then 1 else |p| - 1)
      invariant QuotientPrefix(F, p, r, result)
    {
      QuotientPush(F, p, r, result);
      var element := Sub(F.R, result[i - 1], p[i]);
      result := result + [F.R.mul(element, rInv)];
      i := i + 1;
    }
    return Some(result);
  }

  /** `q_{i-1} - r q_i == p_i`, with nothing before the first coefficient. */
  lemma QuotientStep<T(!new)>(F: Field<T>, p: seq<T>, r: T, i: nat)
    requires IsField(F) && r != F.R.zero
    ensures var q, before := QuotientAt(F, p, r, i), if i == 0 then F.R.zero else QuotientAt(F, p, r, i - 1);
            F.R.mul(r, q) == Sub(F.R, before, Co(F.R, p, i))
  {
    var R := F.R;
    var c := Co(R, p, i);
    var n := if i == 0 then R.neg(c) else Sub(R, QuotientAt(F, p, r, i - 1), c);
    DivMul(F, n, r);
    assert Laws(R, r, QuotientAt(F, p, r, i), r);
    assert Laws(R, R.zero, R.neg(c), r) && Laws(R, R.neg(c), R.zero, r);
  }

  /** The product of `X - r` with `q` has coefficients `q_{k-1} - r q_k`. */
  lemma LinearProduct<T(!new)>(R: Ring<T>, r: T, q: seq<T>, k: nat)
    requires CommRing(R)
    ensures Conv(R, [R.neg(r), R.one], q, k, k + 1) == Sub(R, Co(R, q, k - 1), R.mul(r, Co(R, q, k)))
  {
    var l := [R.neg(r), R.one];
    ProductStep(R, l, q, k);
    assert l[1..] == [R.one];
    NegLaws(R, r, Co(R, q, k));
    var t := R.neg(R.mul(r, Co(R, q, k)));
    assert Laws(R, t, R.zero, t) && Laws(R, R.zero, t, t);
    if k > 0 {
      ProductStep(R, [R.one], q, k - 1);
      assert [R.one][1..] == [];
      var c := Co(R, q, k - 1);
      if k > 1 {
        ConvBeyond(R, [], q, k - 2, 0, k - 1);
      }
      assert Laws(R, R.one, c, c) && Laws(R, c, R.one, c) && Laws(R, c, R.zero, c);
      assert Laws(R, t, c, c);
    }
  }

  /** The product of `X - r` with the quotient is `p` exactly when the last two coefficients meet. */
  lemma QuotientProduct<T(!new)>(F: Field<T>, p: seq<T>, r: T, q: seq<T>)
    requires IsField(F) && r != F.R.zero && p != [] && IsRootQuotient(F, p, r, q)
    ensures IsProduct(F.R, [F.R.neg(r), F.R.one], q, p) <==> Co(F.R, p, |q|) == q[|q| - 1]
  {
    var R := F.R;
    var l := [R.neg(r), R.one];
    MulZero(R, r);
    NegLaws(R, r, r);
    assert Laws(R, R.zero, R.zero, R.zero);
    assert Laws(R, q[|q| - 1], R.zero, R.zero);
    LinearProduct(R, r, q, |q|);
    forall k: nat | k != |q|
      ensures Co(R, p, k) == Conv(R, l, q, k, k + 1)
    {
      LinearProduct(R, r, q, k);
      if k < |q| {
        QuotientStep(F, p, r, k);
        SubOfDifference(R, Co(R, q, k - 1), Co(R, p, k));
      }
    }
    assert Co(R, p, |q|) == Conv(R, l, q, |q|, |q| + 1) <==> Co(R, p, |q|) == q[|q| - 1];
  }

  lemma SubOfDifference<T(!new)>(R: Ring<T>, a: T, b: T)
    requires CommRing(R)
    ensures Sub(R, a, Sub(R, a, b)) == b
  {
    SubIff(R, a, Sub(R, a, b), b);
    SubLaws(R, a, b);
  }

  /** How far the value of the coefficients from `i` on is from the quotient's coefficient before `i`. */
  ghost function Gap<T>(F: Field<T>, p: seq<T>, r: T, i: nat): T
    requires i <= |p|
  {
    Sub(F.R, Eval(F.R, p[i..], r), if i == 0 then F.R.zero else QuotientAt(F, p, r, i - 1))
  }

  lemma GapStep<T(!new)>(F: Field<T>, p: seq<T>, r: T, i: nat)
    requires IsField(F) && r != F.R.zero && i < |p|
    ensures Gap(F, p, r, i) == F.R.zero <==> Gap(F, p, r, i + 1) == F.R.zero
  {
    var R := F.R;
    var e, q, before := Eval(R, p[i + 1..], r), QuotientAt(F, p, r, i),
      if i == 0 then R.zero else QuotientAt(F, p, r, i - 1);
    assert p[i..][1..] == p[i + 1..];
    QuotientStep(F, p, r, i);
    MulSub(R, r, e, q);
    SubOfSums(R, p[i], R.mul(r, e), before);
    MulZero(R, r);
    if R.mul(r, Sub(R, e, q)) == R.zero {
      ZeroProduct(F, Sub(R, e, q), r);
    }
  }

  lemma SubOfSums<T(!new)>(R: Ring<T>, a: T, b: T, c: T)
    requires CommRing(R)
    ensures Sub(R, R.add(a, b), c) == Sub(R, b, Sub(R, c, a))
  {
    SubLaws(R, c, a);
    assert Laws(R, b, a, R.neg(c)) && Laws(R, a, b, b);
  }

  lemma {:induction false} GapVanishes<T(!new)>(F: Field<T>, p: seq<T>, r: T, i: nat)
    requires IsField(F) && r != F.R.zero && i <= |p|
    ensures Eval(F.R, p, r) == F.R.zero <==> Gap(F, p, r, i) == F.R.zero
    decreases i
  {
    if i == 0 {
      assert p[0..] == p;
      SubLaws(F.R, Eval(F.R, p, r), F.R.zero);
      SubLaws(F.R, F.R.zero, F.R.zero);
    } else {
      GapVanishes(F, p, r, i - 1);
      GapStep(F, p, r, i - 1);
    }
  }

  /** Factor theorem for the source's quotient: it divides exactly when `r` is a root. */
  lemma FactorTheorem<T(!new)>(F: Field<T>, p: seq<T>, r: T, q: seq<T>)
    requires IsField(F) && r != F.R.zero && p != [] && IsRootQuotient(F, p, r, q)
    ensures IsProduct(F.R, [F.R.neg(r), F.R.one], q, p) <==> Eval(F.R, p, r) == F.R.zero
  {
    var R := F.R;
    var m := |q|;
    QuotientProduct(F, p, r, q);
    GapVanishes(F, p, r, m);
    MulZero(R, r);
    assert p[m..] == (if |p| == 1 then [] else [p[m]]);
    if |p| > 1 {
      assert [p[m]][1..] == [];
      assert Laws(R, p[m], R.zero, R.zero);
    }
    assert Eval(R, p[m..], r) == Co(R, p, m);
    assert Gap(F, p, r, m) == Sub(R, Co(R, p, m), q[m - 1]);
    SubLaws(R, Co(R, p, m), q[m - 1]);
    SubLaws(R, q[m - 1], q[m - 1]);
  }

  // Counting roots.

  /** Synthetic division by `X - r`. */
  ghost function Deflate<T>(R: Ring<T>, p: seq<T>, r: T): (q: seq<T>)
    ensures |q| == if p == [] then 0 else |p| - 1
  {
    if |p| <= 1 then [] else [Eval(R, p[1..], r)] + Deflate(R, p[1..], r)
  }

  lemma {:induction false} DeflateEval<T(!new)>(R: Ring<T>, p: seq<T>, r: T, x: T)
    requires CommRing(R)
    ensures Sub(R, Eval(R, p, x), Eval(R, p, r)) == R.mul(Sub(R, x, r), Eval(R, Deflate(R, p, r), x))
    decreases p
  {
    var d := Sub(R, x, r);
    if |p| <= 1 {
      MulZero(R, d);
      MulZero(R, x);
      MulZero(R, r);
      if p != [] {
        assert p[1..] == [];
      }
      SubLaws(R, Eval(R, p, x), x);
    } else {
      var u, v, w := Eval(R, p[1..], x), Eval(R, p[1..], r), Eval(R, Deflate(R, p[1..], r), x);
      DeflateEval(R, p[1..], r, x);
      assert Deflate(R, p, r)[1..] == Deflate(R, p[1..], r);
      SubShift(R, p[0], R.mul(x, u), R.mul(r, v));
      assert Laws(R, d, v, R.mul(x, w)) && Laws(R, d, x, w) && Laws(R, x, d, w);
      MulSub(R, v, x, r);
      MulSub(R, x, u, v);
      assert Laws(R, Sub(R, R.mul(x, v), R.mul(r, v)), Sub(R, R.mul(x, u), R.mul(x, v)), d);
      Telescope(R, R.mul(x, u), R.mul(x, v), R.mul(r, v));
    }
  }

  lemma {:induction false} DeflateZeros<T(!new)>(R: Ring<T>, p: seq<T>, r: T)
    requires CommRing(R) && Zeros(R, Deflate(R, p, r)) && Eval(R, p, r) == R.zero
    ensures Zeros(R, p)
  {
    if p != [] {
      MulZero(R, r);
      assert Laws(R, p[0], R.zero, R.zero);
      if |p| == 1 {
        assert p[1..] == [];
      } else {
        var q := Deflate(R, p, r);
        assert q[0] == R.zero;
        assert q[1..] == Deflate(R, p[1..], r);
        DeflateZeros(R, p[1..], r);
        forall i | 0 <= i < |p|
          ensures p[i] == R.zero
        {
          if i > 0 {
            assert p[i] == p[1..][i - 1];
          }
        }
      }
    }
  }

  /** A coefficient list that is not all zeros has fewer roots than coefficients. */
  lemma {:induction false} FewRoots<T(!new)>(F: Field<T>, p: seq<T>, roots: set<T>)
    requires IsField(F) && !Zeros(F.R, p) && forall x <- roots :: Eval(F.R, p, x) == F.R.zero
    ensures |roots| < |p|
    decreases |roots|
  {
    var R := F.R;
    if roots != {} {
      var r :| r in roots;
      var q, rest := Deflate(R, p, r), roots - {r};
      if Zeros(R, q) {
        DeflateZeros(R, p, r);
      }
      forall x | x in rest
        ensures Eval(R, q, x) == R.zero
      {
        DeflateEval(R, p, r, x);
        SubLaws(R, R.zero, R.zero);
        DifferenceNonzero(F, x, r);
        ZeroProduct(F, Eval(R, q, x), Sub(R, x, r));
      }
      FewRoots(F, q, rest);
    }
  }
}
