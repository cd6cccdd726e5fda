/** The multiplication loops: schoolbook convolution into 13 cells, then folding z^7 = 3z + 5. */
module SepticMul {
  import opened Algebra
  import opened Septic

  function At<T>(a: Septic<T>, i: nat): T
    requires i < 7
  {
    if i == 0 then a.c0 else if i == 1 then a.c1 else if i == 2 then a.c2 else if i == 3 then a.c3
    else if i == 4 then a.c4 else if i == 5 then a.c5 else a.c6
  }

  /** What the second loop makes of cell `j`: each high cell adds 5 times itself 7 below and 3 times itself 6 below. */
  ghost function FoldedCell<T>(R: Ring<T>, u: seq<T>, j: nat): T
    requires |u| == 13 && j < 7
  {
    var low := if j == 0 then u[j] else R.add(u[j], R.mul(u[j + 6], Three(R)));
    if j == 6 then low else R.add(low, R.mul(u[j + 7], Five(R)))
  }

  ghost function Folded<T>(R: Ring<T>, u: seq<T>): Septic<T>
    requires |u| == 13
  {
    Septic(FoldedCell(R, u, 0), FoldedCell(R, u, 1), FoldedCell(R, u, 2), FoldedCell(R, u, 3),
           FoldedCell(R, u, 4), FoldedCell(R, u, 5), FoldedCell(R, u, 6))
  }

  /** `s` written into the cells from `i` on. */
  ghost function Row<T>(R: Ring<T>, i: nat, s: Septic<T>): (u: seq<T>)
    requires i <= 6
    ensures |u| == 13
  {
    seq(13, k requires 0 <= k < 13 => if i <= k < i + 7 then At(s, k - i) else R.zero)
  }

  ghost function CellsAdd<T>(R: Ring<T>, u: seq<T>, w: seq<T>): (r: seq<T>)
    requires |u| == |w| == 13
    ensures |r| == 13
  {
    seq(13, k requires 0 <= k < 13 => R.add(u[k], w[k]))
  }

  lemma FoldedCellAdd<T(!new)>(R: Ring<T>, u: seq<T>, w: seq<T>, j: nat)
    requires CommRing(R) && |u| == |w| == 13 && j < 7
    ensures FoldedCell(R, CellsAdd(R, u, w), j) == R.add(FoldedCell(R, u, j), FoldedCell(R, w, j))
  {
    var low, low' := u[j], w[j];
    if j > 0 {
      MulAdd(R, u[j + 6], w[j + 6], Three(R));
      AddSwap(R, low, low', R.mul(u[j + 6], Three(R)), R.mul(w[j + 6], Three(R)));
      low, low' := R.add(low, R.mul(u[j + 6], Three(R))), R.add(low', R.mul(w[j + 6], Three(R)));
    }
    if j < 6 {
      MulAdd(R, u[j + 7], w[j + 7], Five(R));
      AddSwap(R, low, low', R.mul(u[j + 7], Five(R)), R.mul(w[j + 7], Five(R)));
    }
  }

  lemma FoldedAdd<T(!new)>(R: Ring<T>, u: seq<T>, w: seq<T>)
    requires CommRing(R) && |u| == |w| == 13
    ensures Folded(R, CellsAdd(R, u, w)) == SAdd(R, Folded(R, u), Folded(R, w))
  {
    FoldedCellAdd(R, u, w, 0); FoldedCellAdd(R, u, w, 1); FoldedCellAdd(R, u, w, 2); FoldedCellAdd(R, u, w, 3);
    FoldedCellAdd(R, u, w, 4); FoldedCellAdd(R, u, w, 5); FoldedCellAdd(R, u, w, 6);
  }

  /** Moving every cell up by one multiplies the folded value by z, as long as nothing falls off. */
  lemma FoldedShift<T(!new)>(R: Ring<T>, u: seq<T>)
    requires CommRing(R) && |u| == 13 && u[12] == R.zero
    ensures Folded(R, [R.zero] + u[..12]) == ZMul(R, Folded(R, u))
  {
    var t, f := Three(R), Five(R);
    MulZero(R, t);
    MulZero(R, f);
    assert Laws(R, u[6], R.zero, t);
    assert Laws(R, u[6], t, t);
    assert Laws(R, u[6], f, f);
    var top := R.mul(u[6], f);
    assert Laws(R, top, R.zero, f);
    assert Laws(R, R.zero, top, f);
    assert Laws(R, R.add(u[5], R.mul(u[11], t)), R.zero, f);
    var a, b := R.mul(u[7], f), R.mul(u[6], t);
    assert Laws(R, u[0], a, b);
    assert Laws(R, u[0], b, a);
    assert Laws(R, a, b, b);
  }

  ghost function ZPow<T>(R: Ring<T>, i: nat, v: Septic<T>): Septic<T> {
    if i == 0 then v else ZMul(R, ZPow(R, i - 1, v))
  }

  lemma FoldedRowZero<T(!new)>(R: Ring<T>, s: Septic<T>)
    requires CommRing(R)
    ensures Folded(R, Row(R, 0, s)) == s
  {
    MulZero(R, Three(R));
    MulZero(R, Five(R));
    var u := Row(R, 0, s);
    forall j | 0 <= j < 7
      ensures FoldedCell(R, u, j) == At(s, j)
    {
      assert Laws(R, At(s, j), R.zero, R.zero);
      assert u[j] == At(s, j);
      assert j > 0 ==> u[j + 6] == R.zero;
      assert j < 6 ==> u[j + 7] == R.zero;
    }
  }

  lemma RowShift<T(!new)>(R: Ring<T>, i: nat, s: Septic<T>)
    requires 1 <= i <= 6
    ensures Row(R, i, s) == [R.zero] + Row(R, i - 1, s)[..12]
    ensures Row(R, i - 1, s)[12] == R.zero
  {
    var u, v := Row(R, i, s), Row(R, i - 1, s);
    forall k | 0 <= k < 13
      ensures u[k] == ([R.zero] + v[..12])[k]
    {
      if k > 0 {
        assert u[k] == v[k - 1];
      }
    }
  }

  lemma {:induction false} FoldedRow<T(!new)>(R: Ring<T>, i: nat, s: Septic<T>)
    requires CommRing(R) && i <= 6
    ensures Folded(R, Row(R, i, s)) == ZPow(R, i, s)
  {
    if i == 0 {
      FoldedRowZero(R, s);
    } else {
      FoldedRow(R, i - 1, s);
      RowShift(R, i, s);
      FoldedShift(R, Row(R, i - 1, s));
    }
  }

  // The rows add up to the product.

  lemma {:induction false} ZPowAdd<T(!new)>(R: Ring<T>, i: nat, u: Septic<T>, v: Septic<T>)
    requires CommRing(R)
    ensures ZPow(R, i, SAdd(R, u, v)) == SAdd(R, ZPow(R, i, u), ZPow(R, i, v))
    ensures ZPow(R, i, ZMul(R, v)) == ZPow(R, i + 1, v)
  {
    if i > 0 {
      ZPowAdd(R, i - 1, u, v);
      ZMulAdd(R, ZPow(R, i - 1, u), ZPow(R, i - 1, v));
    }
  }

  ghost function RowSum<T>(R: Ring<T>, a: Septic<T>, b: Septic<T>, k: nat): Septic<T>
    requires k <= 7
  {
    if k == 0 then SZero(R) else SAdd(R, RowSum(R, a, b, k - 1), ZPow(R, k - 1, Scale(R, At(a, k - 1), b)))
  }

  ghost function Tail<T>(R: Ring<T>, a: Septic<T>, b: Septic<T>, k: nat): Septic<T>
    requires k < 7
    decreases 7 - k
  {
    if k == 6 then Scale(R, a.c6, b) else Horner(R, At(a, k), Tail(R, a, b, k + 1), b)
  }

  lemma {:induction false} RowSumTail<T(!new)>(R: Ring<T>, a: Septic<T>, b: Septic<T>, k: nat)
    requires CommRing(R) && k < 7
    ensures SAdd(R, RowSum(R, a, b, k), ZPow(R, k, Tail(R, a, b, k))) == Tail(R, a, b, 0)
  {
    if k == 0 {
      VectorLaws(R, SZero(R), Tail(R, a, b, 0), SZero(R));
      VectorLaws(R, Tail(R, a, b, 0), SZero(R), SZero(R));
    } else {
      RowSumTail(R, a, b, k - 1);
      var c, w := Scale(R, At(a, k - 1), b), Tail(R, a, b, k);
      ZPowAdd(R, k - 1, c, ZMul(R, w));
      ZPowAdd(R, k - 1, c, w);
      VectorLaws(R, RowSum(R, a, b, k - 1), ZPow(R, k - 1, c), ZPow(R, k, w));
    }
  }

  lemma TailIsProduct<T(!new)>(R: Ring<T>, a: Septic<T>, b: Septic<T>)
    ensures Tail(R, a, b, 0) == SMul(R, a, b)
  {
    assert Tail(R, a, b, 5) == Horner(R, a.c5, Scale(R, a.c6, b), b);
    assert Tail(R, a, b, 3) == Horner(R, a.c3, Horner(R, a.c4, Tail(R, a, b, 5), b), b);
    assert Tail(R, a, b, 1) == Horner(R, a.c1, Horner(R, a.c2, Tail(R, a, b, 3), b), b);
  }

  lemma RowSumIsProduct<T(!new)>(R: Ring<T>, a: Septic<T>, b: Septic<T>)
    requires CommRing(R)
    ensures RowSum(R, a, b, 7) == SMul(R, a, b)
  {
    RowSumTail(R, a, b, 6);
    TailIsProduct(R, a, b);
  }

  lemma RowZero<T(!new)>(R: Ring<T>, u: seq<T>)
    requires CommRing(R) && |u| == 13 && forall k :: 0 <= k < 13 ==> u[k] == R.zero
    ensures Folded(R, u) == SZero(R)
  {
    MulZero(R, Three(R));
    MulZero(R, Five(R));
    assert Laws(R, R.zero, R.zero, R.zero);
  }

  /** The cells after the first `k` rows of the convolution. */
  ghost function Cells<T>(R: Ring<T>, a: Septic<T>, b: Septic<T>, k: nat): (u: seq<T>)
    requires k <= 7
    ensures |u| == 13
  {
    if k == 0 then seq(13, _ => R.zero)
    else CellsAdd(R, Cells(R, a, b, k - 1), Row(R, k - 1, Scale(R, At(a, k - 1), b)))
  }

  lemma {:induction false} CellsFold<T(!new)>(R: Ring<T>, a: Septic<T>, b: Septic<T>, k: nat)
    requires CommRing(R) && k <= 7
    ensures Folded(R, Cells(R, a, b, k)) == RowSum(R, a, b, k)
  {
    if k == 0 {
      RowZero(R, Cells(R, a, b, 0));
    } else {
      var s := Scale(R, At(a, k - 1), b);
      CellsFold(R, a, b, k - 1);
      FoldedAdd(R, Cells(R, a, b, k - 1), Row(R, k - 1, s));
      FoldedRow(R, k - 1, s);
    }
  }

  /** Folding the convolution gives the product. */
  lemma CellsFoldToProduct<T(!new)>(R: Ring<T>, a: Septic<T>, b: Septic<T>)
    requires CommRing(R)
    ensures Folded(R, Cells(R, a, b, 7)) == SMul(R, a, b)
  {
    CellsFold(R, a, b, 7);
    RowSumIsProduct(R, a, b);
  }

  /** Adding one row of products gives the next cells. */
  lemma AddRow<T(!new)>(R: Ring<T>, a: Septic<T>, b: Septic<T>, i: nat, after: seq<T>)
    requires CommRing(R) && i < 7 && |after| == 13
    requires forall k :: 0 <= k < 13 ==>
               after[k] ==
               if i <= k < i + 7 then R.add(Cells(R, a, b, i)[k], R.mul(At(a, i), At(b, k - i)))
               else Cells(R, a, b, i)[k]
    ensures after == Cells(R, a, b, i + 1)
  {
    var before, s := Cells(R, a, b, i), Scale(R, At(a, i), b);
    forall k | 0 <= k < 13
      ensures after[k] == R.add(before[k], Row(R, i, s)[k])
    {
      assert Laws(R, before[k], R.zero, R.zero);
    }
    assert after == CellsAdd(R, before, Row(R, i, s));
  }

  /** The inner loop: `res[i + j] += a[i] * b[j]` for every `j`. */
  method AccumulateRow<T(!new)>(R: Ring<T>, c: T, b: Septic<T>, i: nat, res: array<T>)
    requires i < 7 && res.Length == 13
    modifies res
    ensures forall k :: 0 <= k < 13 ==>
              res[k] == if i <= k < i + 7 then R.add(old(res[k]), R.mul(c, At(b, k - i))) else old(res[k])
  {
    for j := 0 to 7
      invariant forall k :: 0 <= k < 13 ==>
                  res[k] == if i <= k < i + j then R.add(old(res[k]), R.mul(c, At(b, k - i))) else old(res[k])
    {
      res[i + j] := R.add(res[i + j], R.mul(c, At(b, j)));
    }
  }

  /** The convolution: one accumulated row per coefficient of `a`. */
  method Convolve<T(!new)>(R: Ring<T>, a: Septic<T>, b: Septic<T>) returns (res: array<T>)
    requires CommRing(R)
    ensures fresh(res) && res.Length == 13
    ensures res[..] == Cells(R, a, b, 7)
  {
    res := new T[13](k => R.zero);
    assert res[..] == Cells(R, a, b, 0);
    for i := 0 to 7
      invariant res[..] == Cells(R, a, b, i)
    {
      AccumulateRow(R, At(a, i), b, i, res);
      AddRow(R, a, b, i, res[..]);
    }
  }

  /** Multiplies in the extension, as the source does, with two arrays of cells. */
  method Multiply<T(!new)>(R: Ring<T>, a: Septic<T>, b: Septic<T>) returns (r: Septic<T>)
    requires CommRing(R)
    ensures r == SMul(R, a, b)
  {
    var res := Convolve(R, a, b);
    CellsFoldToProduct(R, a, b);
    var ret := new T[7](k requires 0 <= k < 7 reads res => res[k]);
    ghost var u := res[..];
    for i := 7 to 13
      invariant res[..] == u
      invariant forall k :: 0 <= k < i - 7 ==> ret[k] == FoldedCell(R, u, k)
      invariant ret[i - 7] == if i == 7 then u[0] else R.add(u[i - 7], R.mul(u[i - 1], Three(R)))
      invariant forall k :: i - 7 < k < 7 ==> ret[k] == u[k]
    {
      ret[i - 7] := R.add(ret[i - 7], R.mul(res[i], Five(R)));
      ret[i - 6] := R.add(ret[i - 6], R.mul(res[i], Three(R)));
    }
    r := Septic(ret[0], ret[1], ret[2], ret[3], ret[4], ret[5], ret[6]);
  }
}
