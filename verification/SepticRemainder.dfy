/** Extension multiplication as polynomial multiplication followed by division by z^7 - 3z - 5. */
module SepticRemainder {
  import opened Algebra
  import opened Polynomial
  import opened Septic
  import opened SepticMul

  function Coefficients<T>(a: Septic<T>): (p: seq<T>)
    ensures |p| == 7 && forall i :: 0 <= i < 7 ==> p[i] == At(a, i)
  {
    [a.c0, a.c1, a.c2, a.c3, a.c4, a.c5, a.c6]
  }

  /** `z^7 - 3z - 5`. */
  function Modulus<T>(R: Ring<T>): seq<T> {
    [R.neg(Five(R)), R.neg(Three(R)), R.zero, R.zero, R.zero, R.zero, R.zero, R.one]
  }

  // The cells are the polynomial product.

  lemma RowCo<T(!new)>(R: Ring<T>, a: Septic<T>, b: Septic<T>, i: nat, k: nat)
    requires CommRing(R) && i < 7 && k < 13
    ensures Row(R, i, Scale(R, At(a, i), b))[k] == R.mul(Co(R, Coefficients(a), i), Co(R, Coefficients(b), k - i))
  {
    MulZero(R, At(a, i));
    if i <= k < i + 7 {
      assert Coefficients(b)[k - i] == At(b, k - i);
      assert At(Scale(R, At(a, i), b), k - i) == R.mul(At(a, i), At(b, k - i));
    }
  }

  lemma {:induction false} CellsConv<T(!new)>(R: Ring<T>, a: Septic<T>, b: Septic<T>, i: nat, k: nat)
    requires CommRing(R) && i <= 7 && k < 13
    ensures Cells(R, a, b, i)[k] == Conv(R, Coefficients(a), Coefficients(b), k, i)
    decreases i
  {
    if i > 0 {
      CellsConv(R, a, b, i - 1, k);
      RowCo(R, a, b, i - 1, k);
    }
  }

  lemma CellsAreProduct<T(!new)>(R: Ring<T>, a: Septic<T>, b: Septic<T>)
    requires CommRing(R)
    ensures IsProduct(R, Coefficients(a), Coefficients(b), Cells(R, a, b, 7))
  {
    var p, q, u := Coefficients(a), Coefficients(b), Cells(R, a, b, 7);
    forall k: nat
      ensures Co(R, u, k) == Conv(R, p, q, k, k + 1)
    {
      if k < 13 {
        CellsConv(R, a, b, 7, k);
        if k + 1 <= 7 {
          ConvBeyond(R, p, q, k, k + 1, 7);
        } else {
          ConvBeyond(R, p, q, k, 7, k + 1);
        }
      } else {
        ConvPastEnd(R, p, q, k, k + 1);
      }
    }
  }

  // Multiples of the modulus.

  lemma ZeroStep<T(!new)>(R: Ring<T>, p: seq<T>, q: seq<T>, k: nat)
    requires CommRing(R) && p != [] && p[0] == R.zero
    ensures Conv(R, p, q, k, k + 1) == if k == 0 then R.zero else Conv(R, p[1..], q, k - 1, k)
  {
    ProductStep(R, p, q, k);
    MulZero(R, Co(R, q, k));
    var rest := if k == 0 then R.zero else Conv(R, p[1..], q, k - 1, k);
    assert Laws(R, R.zero, rest, rest) && Laws(R, rest, R.zero, rest);
  }

  lemma OneProduct<T(!new)>(R: Ring<T>, q: seq<T>, k: nat)
    requires CommRing(R)
    ensures Conv(R, [R.one], q, k, k + 1) == Co(R, q, k)
  {
    ProductStep(R, [R.one], q, k);
    assert [R.one][1..] == [];
    if k > 0 {
      ConvBeyond(R, [], q, k - 1, 0, k);
    }
    var c := Co(R, q, k);
    assert Laws(R, R.one, c, c) && Laws(R, c, R.one, c) && Laws(R, c, R.zero, c);
  }

  /** `n` zeros and a one. */
  function Monomial<T>(R: Ring<T>, n: nat): seq<T> {
    if n == 0 then [R.one] else [R.zero] + Monomial(R, n - 1)
  }

  lemma {:induction false} MonomialProduct<T(!new)>(R: Ring<T>, n: nat, q: seq<T>, k: nat)
    requires CommRing(R)
    ensures Conv(R, Monomial(R, n), q, k, k + 1) == Co(R, q, k - n)
    decreases n
  {
    if n == 0 {
      OneProduct(R, q, k);
    } else {
      ZeroStep(R, Monomial(R, n), q, k);
      assert Monomial(R, n)[1..] == Monomial(R, n - 1);
      if k > 0 {
        MonomialProduct(R, n - 1, q, k - 1);
      }
    }
  }

  /** Coefficient `k` of a multiple of the modulus: `q_{k-7} - 3 q_{k-1} - 5 q_k`. */
  ghost function MultipleAt<T>(R: Ring<T>, q: seq<T>, k: nat): T {
    Sub(R, Sub(R, Co(R, q, k - 7), R.mul(Three(R), Co(R, q, k - 1))), R.mul(Five(R), Co(R, q, k)))
  }

  lemma ModulusProduct<T(!new)>(R: Ring<T>, q: seq<T>, k: nat)
    requires CommRing(R)
    ensures Conv(R, Modulus(R), q, k, k + 1) == MultipleAt(R, q, k)
  {
    var m := Modulus(R);
    var tail, mono := m[1..], Monomial(R, 5);
    assert tail == [R.neg(Three(R))] + mono by {
      assert Monomial(R, 0) == [R.one];
      assert Monomial(R, 1) == [R.zero, R.one];
      assert Monomial(R, 2) == [R.zero, R.zero, R.one];
      assert Monomial(R, 3) == [R.zero, R.zero, R.zero, R.one];
      assert Monomial(R, 4) == [R.zero, R.zero, R.zero, R.zero, R.one];
    }
    var c0, c1, c7 := Co(R, q, k), Co(R, q, k - 1), Co(R, q, k - 7);
    ProductStep(R, m, q, k);
    NegLaws(R, Five(R), c0);
    NegLaws(R, Three(R), c1);
    MulZero(R, Three(R));
    NegLaws(R, R.zero, R.zero);
    assert Laws(R, R.zero, R.zero, R.zero);
    if k > 0 {
      ProductStep(R, tail, q, k - 1);
      assert tail[1..] == mono;
      if k > 1 {
        MonomialProduct(R, 5, q, k - 2);
      }
    }
    var s := R.neg(R.mul(Three(R), c1));
    assert Laws(R, s, c7, c7);
    assert Laws(R, R.neg(R.mul(Five(R), c0)), R.add(c7, s), s);
  }

  // Division with remainder.

  /** `p q == m h + r` as polynomials, `m` being the modulus. */
  ghost predicate Divides<T>(R: Ring<T>, p: seq<T>, q: seq<T>, h: seq<T>, r: seq<T>) {
    forall k: nat :: Conv(R, p, q, k, k + 1) == R.add(Co(R, r, k), Conv(R, Modulus(R), h, k, k + 1))
  }

  lemma FoldedDivides<T(!new)>(R: Ring<T>, u: seq<T>, k: nat)
    requires CommRing(R) && |u| == 13
    ensures Co(R, u, k) == R.add(Co(R, Coefficients(Folded(R, u)), k), MultipleAt(R, u[7..], k))
  {
    var h, t, f := u[7..], Three(R), Five(R);
    MulZero(R, t);
    MulZero(R, f);
    NegLaws(R, t, t);
    assert Laws(R, R.zero, R.zero, R.zero);
    if k < 7 {
      var v, x, y := u[k], R.mul(t, Co(R, h, k - 1)), R.mul(f, Co(R, h, k));
      assert Laws(R, Co(R, h, k - 1), t, t) && Laws(R, Co(R, h, k), f, f);
      assert Laws(R, v, R.zero, v) && Laws(R, R.add(v, x), R.zero, v);
      assert Co(R, Coefficients(Folded(R, u)), k) == R.add(R.add(v, x), y);
      Restored(R, v, x, y);
    } else if k < 13 {
      assert Laws(R, u[k], R.zero, R.zero) && Laws(R, R.zero, u[k], R.zero);
    }
  }

  lemma Restored<T(!new)>(R: Ring<T>, v: T, x: T, y: T)
    requires CommRing(R)
    ensures R.add(R.add(R.add(v, x), y), Sub(R, Sub(R, R.zero, x), y)) == v
  {
    var s := R.add(x, y);
    assert Laws(R, v, x, y);
    NegLaws(R, x, y);
    assert Laws(R, R.zero, R.neg(x), R.neg(y)) && Laws(R, R.neg(s), R.zero, v) && Laws(R, R.zero, R.neg(s), v);
    SubLaws(R, v, s);
  }

  /** The source's product is the remainder of the polynomial product, the quotient being the top six cells. */
  lemma ProductIsRemainder<T(!new)>(R: Ring<T>, a: Septic<T>, b: Septic<T>)
    requires CommRing(R)
    ensures Divides(R, Coefficients(a), Coefficients(b), Cells(R, a, b, 7)[7..], Coefficients(SMul(R, a, b)))
  {
    var u := Cells(R, a, b, 7);
    CellsAreProduct(R, a, b);
    CellsFoldToProduct(R, a, b);
    forall k: nat
      ensures Conv(R, Coefficients(a), Coefficients(b), k, k + 1) ==
              R.add(Co(R, Coefficients(SMul(R, a, b)), k), Conv(R, Modulus(R), u[7..], k, k + 1))
    {
      assert Co(R, u, k) == Conv(R, Coefficients(a), Coefficients(b), k, k + 1);
      FoldedDivides(R, u, k);
      ModulusProduct(R, u[7..], k);
    }
  }

  lemma {:induction false} QuotientsAgree<T(!new)>(R: Ring<T>, h: seq<T>, h': seq<T>, j: nat)
    requires CommRing(R) && forall k: nat :: k >= 7 ==> MultipleAt(R, h, k) == MultipleAt(R, h', k)
    ensures Co(R, h, j) == Co(R, h', j)
    decreases |h| + |h'| - j
  {
    if j < |h| || j < |h'| {
      QuotientsAgree(R, h, h', j + 6);
      QuotientsAgree(R, h, h', j + 7);
      assert MultipleAt(R, h, j + 7) == MultipleAt(R, h', j + 7);
      var x, y := R.mul(Three(R), Co(R, h, j + 6)), R.mul(Five(R), Co(R, h, j + 7));
      CancelSubs(R, Co(R, h, j), Co(R, h', j), x, y);
    }
  }

  lemma CancelSubs<T(!new)>(R: Ring<T>, a: T, b: T, x: T, y: T)
    requires CommRing(R) && Sub(R, Sub(R, a, x), y) == Sub(R, Sub(R, b, x), y)
    ensures a == b
  {
    SubLaws(R, Sub(R, a, x), y);
    SubLaws(R, Sub(R, b, x), y);
    SubLaws(R, a, x);
    SubLaws(R, b, x);
  }

  /** There is only one remainder of degree below seven. */
  lemma RemainderUnique<T(!new)>(R: Ring<T>, p: seq<T>, q: seq<T>, h: seq<T>, r: seq<T>, h': seq<T>, r': seq<T>)
    requires CommRing(R) && |r| <= 7 && |r'| <= 7 && Divides(R, p, q, h, r) && Divides(R, p, q, h', r')
    ensures Same(R, r, r') && Same(R, h, h')
  {
    forall k: nat
      ensures R.add(Co(R, r, k), MultipleAt(R, h, k)) == R.add(Co(R, r', k), MultipleAt(R, h', k))
      ensures k >= 7 ==> MultipleAt(R, h, k) == MultipleAt(R, h', k)
    {
      ModulusProduct(R, h, k);
      ModulusProduct(R, h', k);
      assert Conv(R, p, q, k, k + 1) == R.add(Co(R, r, k), Conv(R, Modulus(R), h, k, k + 1));
      assert Conv(R, p, q, k, k + 1) == R.add(Co(R, r', k), Conv(R, Modulus(R), h', k, k + 1));
      if k >= 7 {
        AddCancel(R, R.zero, MultipleAt(R, h, k), MultipleAt(R, h', k));
      }
    }
    forall j: nat
      ensures Co(R, h, j) == Co(R, h', j)
    {
      QuotientsAgree(R, h, h', j);
    }
    forall k: nat
      ensures Co(R, r, k) == Co(R, r', k)
    {
      SameMultiples(R, h, h', k);
      var t := MultipleAt(R, h, k);
      assert Laws(R, Co(R, r, k), t, t) && Laws(R, Co(R, r', k), t, t);
      AddCancel(R, t, Co(R, r, k), Co(R, r', k));
    }
  }

  lemma SameMultiples<T(!new)>(R: Ring<T>, h: seq<T>, h': seq<T>, k: nat)
    requires Same(R, h, h')
    ensures MultipleAt(R, h, k) == MultipleAt(R, h', k)
  {
    assert Co(R, h, k) == Co(R, h', k);
    if k >= 1 {
      assert Co(R, h, k - 1) == Co(R, h', k - 1);
    }
    if k >= 7 {
      assert Co(R, h, k - 7) == Co(R, h', k - 7);
    }
  }
}
